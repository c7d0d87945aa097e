/** The job records of the scheduling lab (scheduler.h): `Process`, used by the
    per-policy schedulers, and `Task`, used by the task-scheduler facade. Both
    are plain structs held by value in vectors, so they are datatypes here. */
module Jobs {

  /** INT_MAX of a 32-bit `int`: every selection scan starts its running minimum here. */
  const IntMax: int := 0x7fff_ffff

  /** The default `priority` argument of both record constructors. */
  const DefaultPriority: int := 0

  datatype Process = Process(
    pid: int,
    arrivalTime: int,
    burstTime: int,
    remainingTime: int,
    priority: int,
    waitingTime: int,
    turnaroundTime: int,
    completionTime: int)

  datatype Task = Task(
    taskId: int,
    arrivalTime: int,
    burstTime: int,
    priority: int,
    remainingTime: int,
    waitingTime: int,
    turnaroundTime: int,
    completionTime: int,
    startTime: int,
    started: bool)

  /** `Process(p, at, bt, pr)`: all of the work is still to do and no timing is recorded. */
  function NewProcess(pid: int, arrival: int, burst: int, priority: int): (p: Process)
    ensures p.pid == pid && p.arrivalTime == arrival && p.burstTime == burst && p.priority == priority
    ensures p.remainingTime == burst
    ensures p.waitingTime == 0 && p.turnaroundTime == 0 && p.completionTime == 0
  {
    Process(pid, arrival, burst, burst, priority, 0, 0, 0)
  }

  /** `Task(id, at, bt, pr)`: not started (start time -1), all work to do, no timing recorded. */
  function NewTask(id: int, arrival: int, burst: int, priority: int): (t: Task)
    ensures t.taskId == id && t.arrivalTime == arrival && t.burstTime == burst && t.priority == priority
    ensures t.remainingTime == burst
    ensures t.waitingTime == 0 && t.turnaroundTime == 0 && t.completionTime == 0
    ensures t.startTime == -1 && !t.started
  {
    Task(id, arrival, burst, priority, burst, 0, 0, 0, -1, false)
  }

  /** `Process(p, at, bt)`: the priority argument left out takes its default, 0. */
  function NewProcessDefault(pid: int, arrival: int, burst: int): (p: Process)
    ensures p.priority == DefaultPriority == 0
    ensures p.pid == pid && p.arrivalTime == arrival && p.burstTime == burst && p.remainingTime == burst
    ensures p.waitingTime == 0 && p.turnaroundTime == 0 && p.completionTime == 0
  {
    NewProcess(pid, arrival, burst, DefaultPriority)
  }

  /** `Task(id, at, bt)`: the priority argument left out takes its default, 0. */
  function NewTaskDefault(id: int, arrival: int, burst: int): (t: Task)
    ensures t.priority == DefaultPriority == 0
    ensures t.taskId == id && t.arrivalTime == arrival && t.burstTime == burst && t.remainingTime == burst
    ensures t.waitingTime == 0 && t.turnaroundTime == 0 && t.completionTime == 0
    ensures t.startTime == -1 && !t.started
  {
    NewTask(id, arrival, burst, DefaultPriority)
  }

  /** The per-record step of `calculateMetrics`: turnaround and waiting time are
      derived from the completion time; no other field changes. */
  function WithMetrics(p: Process): (r: Process)
    ensures r.turnaroundTime == r.completionTime - r.arrivalTime
    ensures r.waitingTime == r.turnaroundTime - r.burstTime
    ensures r.(turnaroundTime := p.turnaroundTime, waitingTime := p.waitingTime) == p
  {
    var turnaround := p.completionTime - p.arrivalTime;
    p.(turnaroundTime := turnaround, waitingTime := turnaround - p.burstTime)
  }

  /** The same derivation as the task scheduler writes it inline when a task
      completes. `Task` is a record type of its own, sharing no base with
      `Process`, so the derivation is stated again over its fields. */
  function TaskWithMetrics(t: Task): (r: Task)
    ensures r.turnaroundTime == r.completionTime - r.arrivalTime
    ensures r.waitingTime == r.turnaroundTime - r.burstTime
    ensures r.(turnaroundTime := t.turnaroundTime, waitingTime := t.waitingTime) == t
  {
    var turnaround := t.completionTime - t.arrivalTime;
    t.(turnaroundTime := turnaround, waitingTime := turnaround - t.burstTime)
  }

  // Column views of a record vector, used to state the policies over plain integers.

  function ProcessArrivals(ps: seq<Process>): seq<int> {
    seq(|ps|, i requires 0 <= i < |ps| => ps[i].arrivalTime)
  }

  function ProcessBursts(ps: seq<Process>): seq<int> {
    seq(|ps|, i requires 0 <= i < |ps| => ps[i].burstTime)
  }

  function ProcessRemaining(ps: seq<Process>): seq<int> {
    seq(|ps|, i requires 0 <= i < |ps| => ps[i].remainingTime)
  }

  function ProcessCompletions(ps: seq<Process>): seq<int> {
    seq(|ps|, i requires 0 <= i < |ps| => ps[i].completionTime)
  }

  function TaskArrivals(ts: seq<Task>): seq<int> {
    seq(|ts|, i requires 0 <= i < |ts| => ts[i].arrivalTime)
  }

  function TaskBursts(ts: seq<Task>): seq<int> {
    seq(|ts|, i requires 0 <= i < |ts| => ts[i].burstTime)
  }

  function TaskPriorities(ts: seq<Task>): seq<int> {
    seq(|ts|, i requires 0 <= i < |ts| => ts[i].priority)
  }

  function TaskRemaining(ts: seq<Task>): seq<int> {
    seq(|ts|, i requires 0 <= i < |ts| => ts[i].remainingTime)
  }

  function TaskCompletions(ts: seq<Task>): seq<int> {
    seq(|ts|, i requires 0 <= i < |ts| => ts[i].completionTime)
  }

  function TaskStarts(ts: seq<Task>): seq<int> {
    seq(|ts|, i requires 0 <= i < |ts| => ts[i].startTime)
  }

  function TaskStartedFlags(ts: seq<Task>): seq<bool> {
    seq(|ts|, i requires 0 <= i < |ts| => ts[i].started)
  }

  /** The records `ps` with the completion times `f` written in. */
  function WithCompletions(ps: seq<Process>, f: seq<int>): (r: seq<Process>)
    requires |f| == |ps|
    ensures |r| == |ps|
    ensures forall i :: 0 <= i < |ps| ==> r[i] == ps[i].(completionTime := f[i])
  {
    seq(|ps|, i requires 0 <= i < |ps| => ps[i].(completionTime := f[i]))
  }

  lemma WithCompletionsColumns(ps: seq<Process>, f: seq<int>)
    requires |f| == |ps|
    ensures WithCompletions(ps, ProcessCompletions(ps)) == ps
    ensures ProcessArrivals(WithCompletions(ps, f)) == ProcessArrivals(ps)
    ensures ProcessBursts(WithCompletions(ps, f)) == ProcessBursts(ps)
  {
  }

  lemma WithCompletionsSet(ps: seq<Process>, f: seq<int>, i: nat, t: int)
    requires |f| == |ps| && i < |ps|
    ensures WithCompletions(ps, f[i := t]) == WithCompletions(ps, f)[i := WithCompletions(ps, f)[i].(completionTime := t)]
  {
  }

  /** The records `ps` with the remaining times `rem` and the completion times
      `f` written in: the state Round Robin works on. */
  function WithProgress(ps: seq<Process>, rem: seq<int>, f: seq<int>): (r: seq<Process>)
    requires |rem| == |ps| && |f| == |ps|
    ensures |r| == |ps|
    ensures forall i :: 0 <= i < |ps| ==> r[i] == ps[i].(remainingTime := rem[i], completionTime := f[i])
  {
    seq(|ps|, i requires 0 <= i < |ps| => ps[i].(remainingTime := rem[i], completionTime := f[i]))
  }

  lemma WithProgressColumns(ps: seq<Process>, rem: seq<int>, f: seq<int>)
    requires |rem| == |ps| && |f| == |ps|
    ensures WithProgress(ps, ProcessRemaining(ps), ProcessCompletions(ps)) == ps
    ensures ProcessArrivals(WithProgress(ps, rem, f)) == ProcessArrivals(ps)
    ensures ProcessRemaining(WithProgress(ps, rem, f)) == rem
  {
  }

  lemma WithProgressSet(ps: seq<Process>, rem: seq<int>, f: seq<int>, i: nat, v: int, t: int)
    requires |rem| == |ps| && |f| == |ps| && i < |ps|
    ensures var r := WithProgress(ps, rem, f);
      && WithProgress(ps, rem[i := v], f) == r[i := r[i].(remainingTime := v)]
      && WithProgress(ps, rem, f[i := t]) == r[i := r[i].(completionTime := t)]
  {
  }
}
