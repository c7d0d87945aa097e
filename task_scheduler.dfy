/** The task-scheduler facade of scheduler.h: `TaskScheduler` holds a vector
    of `Task` records, the name of a policy, a quantum and a clock, and `run`
    dispatches on the name. Unlike the per-policy schedulers it records each
    task's start time, and writes turnaround and waiting time into a record
    at the moment the record completes. Every schedule method runs the loop
    of the source on the class's fields and is proved to end in the state
    that the policy's specification function gives. */
module TaskScheduling {
  import opened Jobs
  import opened SeqMath
  import opened Selection
  import opened Sorting
  import opened FcfsPolicy
  import opened NonPreemptivePolicy
  import opened SrtfPolicy
  import opened RoundRobinPolicy

  /** The default quantum of `TaskScheduler(algo, q = 4)`. */
  const DefaultTaskQuantum: int := 4

  function TaskArrival(t: Task): int {
    t.arrivalTime
  }

  /** The tasks part way through SJF or Priority: each carries the start and
      completion time of the columns, and a completed one also its
      turnaround and waiting time. */
  function Dispatched(ts: seq<Task>, done: seq<bool>, start: seq<int>, finish: seq<int>): (r: seq<Task>)
    requires |done| == |ts| && |start| == |ts| && |finish| == |ts|
    ensures |r| == |ts|
    ensures forall i :: 0 <= i < |ts| ==>
      r[i] == (var t := ts[i].(startTime := start[i], completionTime := finish[i]); if done[i] then TaskWithMetrics(t) else t)
  {
    seq(|ts|, i requires 0 <= i < |ts| =>
      var t := ts[i].(startTime := start[i], completionTime := finish[i]); if done[i] then TaskWithMetrics(t) else t)
  }

  lemma DispatchedInitial(ts: seq<Task>)
    ensures Dispatched(ts, Fill(|ts|, false), TaskStarts(ts), TaskCompletions(ts)) == ts
    ensures TaskArrivals(Dispatched(ts, Fill(|ts|, false), TaskStarts(ts), TaskCompletions(ts))) == TaskArrivals(ts)
  {
  }

  /** Completing task `i` writes its times and metrics into that record only. */
  lemma DispatchedSet(ts: seq<Task>, done: seq<bool>, start: seq<int>, finish: seq<int>, i: nat, c: int, f: int)
    requires |done| == |ts| && |start| == |ts| && |finish| == |ts| && i < |ts| && !done[i]
    ensures var r := Dispatched(ts, done, start, finish);
      Dispatched(ts, done[i := true], start[i := c], finish[i := f])
        == r[i := TaskWithMetrics(r[i].(startTime := c, completionTime := f))]
  {
  }

  /** The tasks part way through SRTF or Round Robin: each carries the work
      left, the start bookkeeping and the completion time of the columns, and
      one with no work left also its turnaround and waiting time, except the
      task `pending` (-1 for none), whose slice has ended but whose
      completion is still to be written. */
  function Progressed(ts: seq<Task>, rem: seq<int>, started: seq<bool>, start: seq<int>, finish: seq<int>, pending: int): (r: seq<Task>)
    requires |rem| == |ts| && |started| == |ts| && |start| == |ts| && |finish| == |ts|
    ensures |r| == |ts|
    ensures forall i :: 0 <= i < |ts| ==>
      r[i] == (var t := ts[i].(remainingTime := rem[i], started := started[i], startTime := start[i], completionTime := finish[i]);
               if rem[i] == 0 && i != pending then TaskWithMetrics(t) else t)
  {
    seq(|ts|, i requires 0 <= i < |ts| =>
      var t := ts[i].(remainingTime := rem[i], started := started[i], startTime := start[i], completionTime := finish[i]);
      if rem[i] == 0 && i != pending then TaskWithMetrics(t) else t)
  }

  lemma ProgressedInitial(ts: seq<Task>)
    requires forall i :: 0 <= i < |ts| ==> ts[i].remainingTime != 0
    ensures Progressed(ts, TaskRemaining(ts), TaskStartedFlags(ts), TaskStarts(ts), TaskCompletions(ts), -1) == ts
  {
  }

  /** The columns the loops read back from the records. */
  lemma ProgressedColumns(ts: seq<Task>, rem: seq<int>, started: seq<bool>, start: seq<int>, finish: seq<int>, pending: int)
    requires |rem| == |ts| && |started| == |ts| && |start| == |ts| && |finish| == |ts|
    ensures TaskRemaining(Progressed(ts, rem, started, start, finish, pending)) == rem
    ensures TaskArrivals(Progressed(ts, rem, started, start, finish, pending)) == TaskArrivals(ts)
  {
  }

  /** Updating the columns of task `i`, which shows no metrics, rewrites that
      record only; `i` may become or stop being the pending task. */
  lemma ProgressedSet(ts: seq<Task>, rem: seq<int>, started: seq<bool>, start: seq<int>, finish: seq<int>, p: int,
                      i: nat, v: int, st: bool, sa: int, f: int, p': int)
    requires |rem| == |ts| && |started| == |ts| && |start| == |ts| && |finish| == |ts| && i < |ts|
    requires (p == -1 || p == i) && (p' == -1 || p' == i) && (rem[i] != 0 || p == i)
    ensures var r := Progressed(ts, rem, started, start, finish, p);
      Progressed(ts, rem[i := v], started[i := st], start[i := sa], finish[i := f], p')
        == r[i := (var t := r[i].(remainingTime := v, started := st, startTime := sa, completionTime := f);
                   if v == 0 && i != p' then TaskWithMetrics(t) else t)]
  {
  }

  /** A pending task with work left shows no metrics either way. */
  lemma ProgressedSettle(ts: seq<Task>, rem: seq<int>, started: seq<bool>, start: seq<int>, finish: seq<int>, i: nat)
    requires |rem| == |ts| && |started| == |ts| && |start| == |ts| && |finish| == |ts| && i < |ts| && rem[i] != 0
    ensures Progressed(ts, rem, started, start, finish, i) == Progressed(ts, rem, started, start, finish, -1)
  {
  }

  /** The end state of SJF (key: burst times) or Priority (key: priorities) on `ts`. */
  ghost function TaskNpRun(ts: seq<Task>, key: seq<int>): (r: NpState)
    requires |key| == |ts| && Selectable(key)
    ensures NpShaped(|ts|, r) && forall i :: 0 <= i < |ts| ==> r.done[i]
  {
    var s := NpInitial(TaskStarts(ts), TaskCompletions(ts));
    var arr, burst := TaskArrivals(ts), TaskBursts(ts);
    NpRunCompletes(arr, burst, key, s);
    assert forall i :: 0 <= i < |ts| ==> NpRun(arr, burst, key, s).done[i];
    NpRun(arr, burst, key, s)
  }

  /** The end state of SRTF on `ts`, driven by the tasks' remaining times. */
  ghost function TaskSrtfRun(ts: seq<Task>): (r: SrtfState)
    requires forall i :: 0 <= i < |ts| ==> 0 < ts[i].remainingTime < IntMax
    ensures SrtfShaped(|ts|, r) && forall i :: 0 <= i < |ts| ==> r.rem[i] == 0
  {
    var s := SrtfInitial(TaskRemaining(ts), TaskStartedFlags(ts), TaskStarts(ts), TaskCompletions(ts));
    var arr := TaskArrivals(ts);
    SrtfRunCompletes(arr, s);
    assert forall i :: 0 <= i < |ts| ==> SrtfRun(arr, s).rem[i] == 0;
    SrtfRun(arr, s)
  }

  /** The end state of Round Robin on `ts` with quantum `q`, the tasks
      taken in the arrival order `order`. */
  ghost function TaskRrRun(ts: seq<Task>, order: seq<nat>, q: int): (r: RrState)
    requires Enumerates(order, |ts|) && q >= 1
    requires forall i :: 0 <= i < |ts| ==> ts[i].remainingTime > 0
    ensures RrShaped(|ts|, r) && forall i :: 0 <= i < |ts| ==> r.rem[i] == 0
  {
    var s := RrInitial(TaskRemaining(ts), TaskStartedFlags(ts), TaskStarts(ts), TaskCompletions(ts));
    RrInvInitial(TaskArrivals(ts), order, TaskRemaining(ts), TaskStartedFlags(ts), TaskStarts(ts), TaskCompletions(ts));
    var arr := TaskArrivals(ts);
    RrRunCompletes(arr, order, q, s);
    assert forall i :: 0 <= i < |ts| ==> RrRun(arr, order, q, s).rem[i] == 0;
    RrRun(arr, order, q, s)
  }

  /** The tasks `ts`, in run order, once FCFS has run the first `i` of them:
      each of those starts and completes when the FCFS clock says, with its
      turnaround and waiting time derived from that. */
  function TaskFcfsCompleted(ts: seq<Task>, i: nat): (r: seq<Task>)
    requires i <= |ts|
    ensures |r| == |ts|
  {
    seq(|ts|, k requires 0 <= k < |ts| =>
      if k < i then
        var arr, burst := TaskArrivals(ts), TaskBursts(ts);
        TaskWithMetrics(ts[k].(startTime := FcfsStart(arr, burst, k), completionTime := FcfsFinish(arr, burst, k)))
      else ts[k])
  }

  /** The records FCFS leaves, from the records `ts0`: an arrival-sorted
      rearrangement `runOrder` of them (whichever one `std::sort` picks), each
      starting and completing when the FCFS clock says, with its turnaround
      and waiting time derived from that; `clock` is the FCFS clock at the end. */
  ghost predicate FcfsOutcome(ts0: seq<Task>, runOrder: seq<Task>, ts: seq<Task>, clock: int) {
    && SortedBy(runOrder, TaskArrival) && multiset(runOrder) == multiset(ts0)
    && |ts| == |runOrder|
    && (forall k :: 0 <= k < |runOrder| ==>
         var arr, burst := TaskArrivals(runOrder), TaskBursts(runOrder);
         ts[k] == TaskWithMetrics(runOrder[k].(startTime := FcfsStart(arr, burst, k), completionTime := FcfsFinish(arr, burst, k))))
    && clock == FcfsClock(TaskArrivals(runOrder), TaskBursts(runOrder), |runOrder|)
  }

  /** The records SJF (key: burst times) or Priority (key: priorities)
      leaves: every task starts and completes when the specification says,
      with its turnaround and waiting time derived from that. */
  ghost predicate NpOutcome(ts0: seq<Task>, key: seq<int>, ts: seq<Task>, clock: int)
    requires |key| == |ts0| && Selectable(key)
  {
    var r := TaskNpRun(ts0, key);
    && |ts| == |ts0|
    && (forall i :: 0 <= i < |ts| ==>
         ts[i] == TaskWithMetrics(ts0[i].(startTime := r.start[i], completionTime := r.finish[i])))
    && clock == r.clock
  }

  /** The records SRTF leaves: every task has no work left, its start
      bookkeeping and completion time as the specification says, and its
      turnaround and waiting time derived from that. */
  ghost predicate SrtfOutcome(ts0: seq<Task>, ts: seq<Task>, clock: int)
    requires forall i :: 0 <= i < |ts0| ==> 0 < ts0[i].remainingTime < IntMax
  {
    var r := TaskSrtfRun(ts0);
    && |ts| == |ts0|
    && (forall i :: 0 <= i < |ts| ==>
         ts[i] == TaskWithMetrics(ts0[i].(remainingTime := 0, started := r.started[i],
                                          startTime := r.start[i], completionTime := r.finish[i])))
    && clock == r.clock
  }

  /** The records Round Robin leaves with quantum `q`, the tasks taken in
      the arrival order `order`: as for SRTF. */
  ghost predicate RrOutcome(ts0: seq<Task>, order: seq<nat>, q: int, ts: seq<Task>, clock: int)
    requires Enumerates(order, |ts0|) && q >= 1
    requires forall i :: 0 <= i < |ts0| ==> ts0[i].remainingTime > 0
  {
    var r := TaskRrRun(ts0, order, q);
    && |ts| == |ts0|
    && (forall i :: 0 <= i < |ts| ==>
         ts[i] == TaskWithMetrics(ts0[i].(remainingTime := 0, started := r.started[i],
                                          startTime := r.start[i], completionTime := r.finish[i])))
    && clock == r.clock
  }

  /** What SJF and Priority give every task: it starts no earlier than its
      arrival, runs its whole burst without interruption, and so waits exactly
      from its arrival to its start; and, for non-negative bursts, no two
      tasks overlap, and a task that had arrived when another started, and
      starts later, has a key no smaller, with ties going to the lower index. */
  lemma TaskNpSchedule(ts: seq<Task>, key: seq<int>)
    requires |key| == |ts| && Selectable(key)
    ensures var r := TaskNpRun(ts, key);
      && NpShaped(|ts|, r)
      && forall i :: 0 <= i < |ts| ==>
        var t := TaskWithMetrics(ts[i].(startTime := r.start[i], completionTime := r.finish[i]));
        && t.startTime >= t.arrivalTime
        && t.completionTime == t.startTime + t.burstTime
        && t.waitingTime == t.startTime - t.arrivalTime >= 0
    ensures (forall i :: 0 <= i < |ts| ==> ts[i].burstTime >= 0) ==>
      var r := TaskNpRun(ts, key);
      && (forall i, j :: 0 <= i < |ts| && 0 <= j < |ts| && i != j ==>
            r.finish[i] <= r.start[j] || r.finish[j] <= r.start[i])
      && (forall i, j ::
            (0 <= i < |ts| && 0 <= j < |ts| && i != j && ts[j].arrivalTime <= r.start[i] && r.start[i] < r.start[j]) ==>
            key[i] <= key[j] && (key[i] == key[j] ==> i < j))
  {
    var arr, burst := TaskArrivals(ts), TaskBursts(ts);
    NpSchedule(arr, burst, key, TaskStarts(ts), TaskCompletions(ts));
    if forall i :: 0 <= i < |ts| ==> ts[i].burstTime >= 0 {
      assert forall i :: 0 <= i < |burst| ==> burst[i] >= 0;
    }
  }

  /** What SRTF gives fresh tasks, whose whole burst is still to run: each
      starts no earlier than its arrival, completes no earlier than its start
      plus its burst, and so never waits a negative time. */
  lemma TaskSrtfSchedule(ts: seq<Task>)
    requires forall i :: 0 <= i < |ts| ==> 0 < ts[i].remainingTime < IntMax && !ts[i].started
    requires forall i :: 0 <= i < |ts| ==> ts[i].remainingTime == ts[i].burstTime
    ensures var r := TaskSrtfRun(ts);
      && SrtfShaped(|ts|, r)
      && forall i :: 0 <= i < |ts| ==>
        var t := TaskWithMetrics(ts[i].(remainingTime := 0, started := r.started[i], startTime := r.start[i], completionTime := r.finish[i]));
        && t.started && t.startTime >= t.arrivalTime
        && t.completionTime >= t.startTime + t.burstTime
        && t.completionTime <= r.clock
        && t.waitingTime >= 0
  {
    var n := |ts|;
    assert TaskStartedFlags(ts) == Fill(n, false);
    SrtfSchedule(TaskArrivals(ts), TaskRemaining(ts), TaskStarts(ts), TaskCompletions(ts));
  }

  /** What Round Robin gives fresh tasks, as for SRTF, whatever order
      `std::sort` leaves tasks with equal arrival times in. */
  lemma TaskRrSchedule(ts: seq<Task>, order: seq<nat>, q: int)
    requires IsArrivalOrder(order, TaskArrivals(ts)) && Enumerates(order, |ts|) && q >= 1
    requires forall i :: 0 <= i < |ts| ==> ts[i].remainingTime > 0 && !ts[i].started
    requires forall i :: 0 <= i < |ts| ==> ts[i].remainingTime == ts[i].burstTime
    ensures var r := TaskRrRun(ts, order, q);
      && RrShaped(|ts|, r)
      && forall i :: 0 <= i < |ts| ==>
        var t := TaskWithMetrics(ts[i].(remainingTime := 0, started := r.started[i], startTime := r.start[i], completionTime := r.finish[i]));
        && t.started && t.startTime >= t.arrivalTime
        && t.completionTime >= t.startTime + t.burstTime
        && t.completionTime <= r.clock
        && t.waitingTime >= 0
  {
    var n := |ts|;
    assert TaskStartedFlags(ts) == Fill(n, false);
    RrSchedule(TaskArrivals(ts), order, q, TaskRemaining(ts), TaskStarts(ts), TaskCompletions(ts));
  }

  /** The records FCFS leaves, in run order: each task starts no earlier than
      its arrival and waits exactly from its arrival to its start; with
      non-negative bursts each completes before the next one starts. */
  lemma TaskFcfsRecords(runOrder: seq<Task>, ts: seq<Task>)
    requires |ts| == |runOrder|
    requires forall k :: 0 <= k < |runOrder| ==>
      var arr, burst := TaskArrivals(runOrder), TaskBursts(runOrder);
      ts[k] == TaskWithMetrics(runOrder[k].(startTime := FcfsStart(arr, burst, k), completionTime := FcfsFinish(arr, burst, k)))
    ensures forall k :: 0 <= k < |ts| ==> ts[k].startTime >= ts[k].arrivalTime && ts[k].waitingTime == ts[k].startTime - ts[k].arrivalTime
    ensures (forall k :: 0 <= k < |ts| ==> ts[k].burstTime >= 0) ==>
      forall k :: 0 < k < |ts| ==> ts[k - 1].completionTime <= ts[k].startTime
  {
    var arr, burst := TaskArrivals(runOrder), TaskBursts(runOrder);
    forall k | 0 <= k < |ts|
      ensures ts[k].startTime >= ts[k].arrivalTime && ts[k].waitingTime == ts[k].startTime - ts[k].arrivalTime
    {
      assert arr[k] == ts[k].arrivalTime && burst[k] == ts[k].burstTime;
    }
    if forall k :: 0 <= k < |ts| ==> ts[k].burstTime >= 0 {
      assert forall k :: 0 <= k < |burst| ==> burst[k] == ts[k].burstTime;
      FcfsTimings(arr, burst);
      forall k | 0 < k < |ts|
        ensures ts[k - 1].completionTime <= ts[k].startTime
      {
        assert FcfsFinish(arr, burst, k - 1) <= FcfsStart(arr, burst, k);
      }
    }
  }

  class TaskScheduler {
    var tasks: seq<Task>
    var algorithm: string
    var quantum: int
    var currentTime: int

    /** `TaskScheduler(algo, q)`. */
    constructor (algo: string, q: int)
      ensures tasks == [] && algorithm == algo && quantum == q && currentTime == 0
    {
      tasks := [];
      algorithm := algo;
      quantum := q;
      currentTime := 0;
    }

    /** `TaskScheduler(algo)`, with the default quantum. */
    constructor WithDefaultQuantum(algo: string)
      ensures tasks == [] && algorithm == algo && quantum == DefaultTaskQuantum && currentTime == 0
    {
      tasks := [];
      algorithm := algo;
      quantum := DefaultTaskQuantum;
      currentTime := 0;
    }

    /** `run`: the schedule of the policy named by `algorithm`; any other
        name leaves everything as it was. Each policy demands of the tasks
        what its loop needs to end. */
    method Run() returns (ghost runOrder: seq<Task>, ghost order: seq<nat>)
      requires algorithm == "SJF" ==> forall i :: 0 <= i < |tasks| ==> tasks[i].burstTime < IntMax
      requires algorithm == "SRTF" ==> forall i :: 0 <= i < |tasks| ==> 0 < tasks[i].remainingTime < IntMax
      requires algorithm == "RR" ==> quantum >= 1 && forall i :: 0 <= i < |tasks| ==> tasks[i].remainingTime > 0
      requires algorithm == "Priority" ==> forall i :: 0 <= i < |tasks| ==> tasks[i].priority < IntMax
      modifies this
      ensures algorithm == old(algorithm) && quantum == old(quantum)
      ensures algorithm == "FCFS" ==> FcfsOutcome(old(tasks), runOrder, tasks, currentTime)
      ensures algorithm == "SJF" ==> NpOutcome(old(tasks), TaskBursts(old(tasks)), tasks, currentTime)
      ensures algorithm == "SRTF" ==> SrtfOutcome(old(tasks), tasks, currentTime)
      ensures algorithm == "RR" ==> (&& IsArrivalOrder(order, TaskArrivals(old(tasks))) && Enumerates(order, |old(tasks)|)
                                     && RrOutcome(old(tasks), order, quantum, tasks, currentTime))
      ensures algorithm == "Priority" ==> NpOutcome(old(tasks), TaskPriorities(old(tasks)), tasks, currentTime)
      ensures algorithm !in ["FCFS", "SJF", "SRTF", "RR", "Priority"] ==> tasks == old(tasks) && currentTime == old(currentTime)
    {
      runOrder, order := [], [];
      if algorithm == "FCFS" {
        runOrder := ScheduleFCFS();
      } else if algorithm == "SJF" {
        ScheduleSJF();
      } else if algorithm == "SRTF" {
        ScheduleSRTF();
      } else if algorithm == "RR" {
        order := ScheduleRR();
      } else if algorithm == "Priority" {
        SchedulePriority();
      }
    }

    /** `addTask`: appends a copy of the record. */
    method AddTask(t: Task)
      modifies this
      ensures tasks == old(tasks) + [t]
      ensures algorithm == old(algorithm) && quantum == old(quantum) && currentTime == old(currentTime)
    {
      tasks := tasks + [t];
    }

    /** `scheduleFCFS`: the records are sorted by arrival and run in that
        order, each written as FCFS says. */
    method ScheduleFCFS() returns (ghost runOrder: seq<Task>)
      modifies this
      ensures FcfsOutcome(old(tasks), runOrder, tasks, currentTime)
      ensures algorithm == old(algorithm) && quantum == old(quantum)
    {
      tasks := SortBy(tasks, TaskArrival);
      runOrder := tasks;
      RunInOrder();
    }

    /** The loop of `scheduleFCFS`: the tasks run in the order they stand,
        each starting once it has arrived and the previous one has completed. */
    method RunInOrder()
      modifies this
      ensures tasks == TaskFcfsCompleted(old(tasks), |old(tasks)|)
      ensures currentTime == FcfsClock(TaskArrivals(old(tasks)), TaskBursts(old(tasks)), |old(tasks)|)
      ensures algorithm == old(algorithm) && quantum == old(quantum)
    {
      ghost var runOrder := tasks;
      ghost var arr, burst := TaskArrivals(runOrder), TaskBursts(runOrder);
      currentTime := 0;
      for i := 0 to |tasks|
        invariant algorithm == old(algorithm) && quantum == old(quantum)
        invariant tasks == TaskFcfsCompleted(runOrder, i) && currentTime == FcfsClock(arr, burst, i)
      {
        RunNext(i, arr, burst, runOrder);
      }
    }

    /** The body of the FCFS loop for the task at `i`: it starts once it has
        arrived and the CPU is free, runs its burst, and gets its metrics. */
    method RunNext(i: nat, ghost arr: seq<int>, ghost burst: seq<int>, ghost runOrder: seq<Task>)
      requires i < |runOrder| && arr == TaskArrivals(runOrder) && burst == TaskBursts(runOrder)
      requires tasks == TaskFcfsCompleted(runOrder, i) && currentTime == FcfsClock(arr, burst, i)
      modifies this
      ensures tasks == TaskFcfsCompleted(runOrder, i + 1) && currentTime == FcfsClock(arr, burst, i + 1)
      ensures algorithm == old(algorithm) && quantum == old(quantum)
    {
      var t := tasks[i];
      assert t == runOrder[i];
      assert t.arrivalTime == arr[i] && t.burstTime == burst[i];
      if currentTime < t.arrivalTime {
        currentTime := t.arrivalTime;
      }
      assert currentTime == FcfsStart(arr, burst, i);
      t := t.(startTime := currentTime);
      currentTime := currentTime + t.burstTime;
      t := t.(completionTime := currentTime);
      t := t.(turnaroundTime := t.completionTime - t.arrivalTime);
      t := t.(waitingTime := t.turnaroundTime - t.burstTime);
      assert t == TaskWithMetrics(runOrder[i].(startTime := FcfsStart(arr, burst, i), completionTime := FcfsFinish(arr, burst, i)));
      tasks := tasks[i := t];
    }

    /** `scheduleSJF`: every task starts and completes when the SJF
        specification (key: burst time) says, with its turnaround and waiting
        time derived from that. A burst of INT_MAX is never picked by the
        scan, and the loop would not end. */
    method ScheduleSJF()
      requires forall i :: 0 <= i < |tasks| ==> tasks[i].burstTime < IntMax
      modifies this
      ensures NpOutcome(old(tasks), TaskBursts(old(tasks)), tasks, currentTime)
      ensures algorithm == old(algorithm) && quantum == old(quantum)
    {
      DispatchLoop(TaskBursts(tasks));
    }

    /** `schedulePriority`: as `scheduleSJF`, with the priority value (lower
        is more urgent) as the key. */
    method SchedulePriority()
      requires forall i :: 0 <= i < |tasks| ==> tasks[i].priority < IntMax
      modifies this
      ensures NpOutcome(old(tasks), TaskPriorities(old(tasks)), tasks, currentTime)
      ensures algorithm == old(algorithm) && quantum == old(quantum)
    {
      DispatchLoop(TaskPriorities(tasks));
    }

    /** The loop `scheduleSJF` and `schedulePriority` share, for the key column `key`. */
    method DispatchLoop(key: seq<int>)
      requires |key| == |tasks| && Selectable(key)
      modifies this
      ensures NpOutcome(old(tasks), key, tasks, currentTime)
      ensures algorithm == old(algorithm) && quantum == old(quantum)
    {
      var n := |tasks|;
      ghost var ts0 := tasks;
      var arr, burst := TaskArrivals(tasks), TaskBursts(tasks);
      ghost var g := NpInitial(TaskStarts(tasks), TaskCompletions(tasks));
      ghost var goal := TaskNpRun(ts0, key);
      var completed := Fill(n, false);
      DispatchedInitial(ts0);
      currentTime := 0;
      var completedCount := 0;
      CountTrueNone(completed);
      while completedCount < n
        invariant NpShaped(n, g)
        invariant algorithm == old(algorithm) && quantum == old(quantum)
        invariant completed == g.done && currentTime == g.clock && tasks == Dispatched(ts0, g.done, g.start, g.finish)
        invariant completedCount == CountTrue(completed)
        invariant NpRun(arr, burst, key, g) == goal
        decreases n - completedCount, MaxOf(arr) - g.clock
      {
        var idx;
        ghost var g';
        idx, g' := SelectNext(arr, burst, key, completed, currentTime, g);
        if idx != -1 {
          Dispatch(idx, burst, ts0, g, g');
          completed := completed[idx := true];
          completedCount := completedCount + 1;
        } else {
          currentTime := currentTime + 1;
        }
        g := g';
      }
      CountTrueFull(completed);
    }

    /** The dispatch of task `idx`: it starts now and runs its whole burst;
        its start, completion, turnaround and waiting time are written. */
    method Dispatch(idx: nat, burst: seq<int>, ghost ts0: seq<Task>, ghost g: NpState, ghost g': NpState)
      requires |ts0| == |burst| && NpShaped(|burst|, g) && idx < |burst| && !g.done[idx]
      requires ts0[idx].burstTime == burst[idx] && tasks == Dispatched(ts0, g.done, g.start, g.finish) && currentTime == g.clock
      requires RunsWhole(burst, g, idx, g')
      modifies this
      ensures currentTime == g'.clock && tasks == Dispatched(ts0, g'.done, g'.start, g'.finish)
      ensures algorithm == old(algorithm) && quantum == old(quantum)
    {
      assert tasks[idx].burstTime == ts0[idx].burstTime == burst[idx];
      DispatchedSet(ts0, g.done, g.start, g.finish, idx, currentTime, currentTime + burst[idx]);
      var t := tasks[idx].(startTime := currentTime);
      currentTime := currentTime + t.burstTime;
      t := t.(completionTime := currentTime);
      t := t.(turnaroundTime := t.completionTime - t.arrivalTime);
      t := t.(waitingTime := t.turnaroundTime - t.burstTime);
      tasks := tasks[idx := t];
    }
  
    /** `scheduleSRTF`: every task ends with no work left, its start
        bookkeeping and completion time as the SRTF specification says, and
        its turnaround and waiting time derived from that. The bound on the
        remaining times is what the loop needs to end: a task with no work
        is never counted as completed, and one with INT_MAX units is never
        picked. */
    method ScheduleSRTF()
      requires forall i :: 0 <= i < |tasks| ==> 0 < tasks[i].remainingTime < IntMax
      modifies this
      ensures SrtfOutcome(old(tasks), tasks, currentTime)
      ensures algorithm == old(algorithm) && quantum == old(quantum)
    {
      currentTime := 0;
      var completed := 0;
      var n := |tasks|;
      ghost var ts0 := tasks;
      var arr := TaskArrivals(tasks);
      ghost var g := SrtfInitial(TaskRemaining(tasks), TaskStartedFlags(tasks), TaskStarts(tasks), TaskCompletions(tasks));
      ghost var goal := TaskSrtfRun(ts0);
      ProgressedInitial(ts0);
      CountZerosNone(g.rem);
      while completed < n
        invariant SrtfShaped(n, g) && Workable(g.rem)
        invariant algorithm == old(algorithm) && quantum == old(quantum)
        invariant tasks == Progressed(ts0, g.rem, g.started, g.start, g.finish, -1) && currentTime == g.clock
        invariant completed == CountZeros(g.rem)
        invariant SrtfRun(arr, g) == goal
        decreases Sum(g.rem), MaxOf(arr) - g.clock
      {
        var idx, finished;
        idx, finished, g := SrtfTaskTurn(arr, ts0, g);
        if finished {
          completed := completed + 1;
        }
      }
      CountZerosFull(g.rem);
    }

    /** One time unit of the SRTF loop, up to the `completed` count: the scan
        over the tasks' remaining times, then either one unit of work for the
        task it found (`finished` when that was its last), or one idle unit.
        The ghost loop state `g` mirrors the tasks and the clock; the unit
        picks by the selection rule and is one step of the specification. */
    method SrtfTaskTurn(arr: seq<int>, ghost ts0: seq<Task>, ghost g: SrtfState) returns (idx: int, finished: bool, ghost g': SrtfState)
      requires SrtfShaped(|arr|, g) && Workable(g.rem) && CountZeros(g.rem) < |arr|
      requires |ts0| == |arr| && tasks == Progressed(ts0, g.rem, g.started, g.start, g.finish, -1) && currentTime == g.clock
      modifies this
      ensures PicksFirstMin(g.rem, ArrivedWithWork(arr, g.rem, g.clock), idx)
      ensures g' == SrtfStep(arr, g)
      ensures SrtfShaped(|arr|, g') && Workable(g'.rem)
      ensures tasks == Progressed(ts0, g'.rem, g'.started, g'.start, g'.finish, -1) && currentTime == g'.clock
      ensures algorithm == old(algorithm) && quantum == old(quantum)
      ensures idx == -1 ==> !finished && g'.rem == g.rem && g'.clock == g.clock + 1 && g.clock < MaxOf(arr)
      ensures idx != -1 ==> 0 <= Sum(g'.rem) < Sum(g.rem)
      ensures idx != -1 ==> CountZeros(g'.rem) == CountZeros(g.rem) + (if finished then 1 else 0)
      ensures SrtfRun(arr, g') == SrtfRun(arr, g)
    {
      ProgressedColumns(ts0, g.rem, g.started, g.start, g.finish, -1);
      var rem';
      idx, rem', g' := SrtfUnit(arr, TaskRemaining(tasks), currentTime, g);
      if idx != -1 {
        finished := RunOneUnit(idx, ts0, g, g');
      } else {
        currentTime := currentTime + 1;
        finished := false;
      }
    }

    /** One unit of work for task `idx`: it is marked started (its start time
        written on its first unit), its remaining time drops by one, and if
        that was its last unit it completes now, with its metrics. */
    method RunOneUnit(idx: nat, ghost ts0: seq<Task>, ghost g: SrtfState, ghost g': SrtfState) returns (finished: bool)
      requires SrtfShaped(|ts0|, g) && idx < |ts0| && g.rem[idx] > 0
      requires tasks == Progressed(ts0, g.rem, g.started, g.start, g.finish, -1) && currentTime == g.clock
      requires WorkUnit(g, idx, g')
      modifies this
      ensures finished <==> g.rem[idx] == 1
      ensures tasks == Progressed(ts0, g'.rem, g'.started, g'.start, g'.finish, -1) && currentTime == g'.clock
      ensures algorithm == old(algorithm) && quantum == old(quantum)
    {
      ProgressedSet(ts0, g.rem, g.started, g.start, g.finish, -1, idx, g'.rem[idx], true, g'.start[idx], g'.finish[idx], -1);
      var t := tasks[idx];
      if !t.started {
        t := t.(startTime := currentTime, started := true);
      }
      t := t.(remainingTime := t.remainingTime - 1);
      currentTime := currentTime + 1;
      finished := false;
      if t.remainingTime == 0 {
        t := t.(completionTime := currentTime);
        t := t.(turnaroundTime := t.completionTime - t.arrivalTime);
        t := t.(waitingTime := t.turnaroundTime - t.burstTime);
        finished := true;
      }
      tasks := tasks[idx := t];
    }

    /** `scheduleRR`: the tasks are taken in the arrival order `order` that
        the sort of the indices leaves, and every task ends with no work
        left, its start bookkeeping and completion time as the Round Robin
        specification says, and its turnaround and waiting time derived from
        that. */
    method ScheduleRR() returns (ghost order: seq<nat>)
      requires quantum >= 1
      requires forall i :: 0 <= i < |tasks| ==> tasks[i].remainingTime > 0
      modifies this
      ensures quantum == old(quantum) && algorithm == old(algorithm)
      ensures IsArrivalOrder(order, TaskArrivals(old(tasks))) && Enumerates(order, |old(tasks)|)
      ensures RrOutcome(old(tasks), order, quantum, tasks, currentTime)
    {
      var arr := TaskArrivals(tasks);
      var indices := SortIndicesByArrival(arr);
      order := indices;
      ArrivalOrderEnumerates(indices, arr);
      ghost var final := RunQueue(arr, indices);
    }

    /** The dispatch loop of `TaskScheduler::scheduleRR`, over the tasks in
        the arrival order `indices`: it ends in the final state of the Round
        Robin specification, with every task's work done. */
    method RunQueue(arr: seq<int>, indices: seq<nat>) returns (ghost final: RrState)
      requires quantum >= 1 && arr == TaskArrivals(tasks) && Enumerates(indices, |tasks|)
      requires forall i :: 0 <= i < |tasks| ==> tasks[i].remainingTime > 0
      modifies this
      ensures quantum == old(quantum) && algorithm == old(algorithm)
      ensures final == TaskRrRun(old(tasks), indices, quantum) && RrShaped(|old(tasks)|, final)
      ensures tasks == Progressed(old(tasks), final.rem, final.started, final.start, final.finish, -1) && currentTime == final.clock
      ensures forall i :: 0 <= i < |old(tasks)| ==> final.rem[i] == 0
    {
      var n := |tasks|;
      ghost var ts0 := tasks;
      ghost var goal := TaskRrRun(ts0, indices, quantum);
      var ready;
      ghost var g;
      ready, g := StartQueue(arr, indices);
      var completed := 0;
      while completed < n
        invariant quantum == old(quantum) && algorithm == old(algorithm)
        invariant RrInv(arr, indices, g, -1) && RrRun(arr, indices, quantum, g) == goal
        invariant tasks == Progressed(ts0, g.rem, g.started, g.start, g.finish, -1) && currentTime == g.clock && ready == g.ready
        invariant completed == CountZeros(g.rem)
        decreases Sum(g.rem), MaxOf(arr) - g.clock
      {
        var finished;
        ghost var g';
        ready, finished, g' := RrTaskTurn(arr, indices, ready, ts0, g);
        RrTurnFacts(arr, indices, quantum, g, finished);
        g := g';
        if finished {
          completed := completed + 1;
        }
      }
      CountZerosFull(g.rem);
      final := g;
    }

    /** The set-up of `TaskScheduler::scheduleRR`: an empty ready queue and
        the clock at zero, the initial state of the Round Robin specification. */
    method StartQueue(arr: seq<int>, indices: seq<nat>) returns (ready: Ready, ghost g: RrState)
      requires quantum >= 1 && arr == TaskArrivals(tasks) && Enumerates(indices, |tasks|)
      requires forall i :: 0 <= i < |tasks| ==> tasks[i].remainingTime > 0
      modifies this
      ensures tasks == old(tasks) && quantum == old(quantum) && algorithm == old(algorithm)
      ensures g == RrInitial(TaskRemaining(tasks), TaskStartedFlags(tasks), TaskStarts(tasks), TaskCompletions(tasks))
      ensures RrInv(arr, indices, g, -1) && RrRun(arr, indices, quantum, g) == TaskRrRun(tasks, indices, quantum)
      ensures tasks == Progressed(tasks, g.rem, g.started, g.start, g.finish, -1) && currentTime == g.clock && ready == g.ready
      ensures CountZeros(g.rem) == 0
    {
      ready := Ready([], Fill(|tasks|, false), 0);
      currentTime := 0;
      g := RrInitial(TaskRemaining(tasks), TaskStartedFlags(tasks), TaskStarts(tasks), TaskCompletions(tasks));
      RrInvInitial(arr, indices, g.rem, g.started, g.start, g.finish);
      ProgressedInitial(tasks);
      CountZerosNone(g.rem);
    }

    /** One turn of the Round Robin loop, up to the `completed` count: the
        arrivals are admitted, then either the task at the head of the ready
        queue has its slice, or the CPU idles for one unit. The ghost loop
        state `g` mirrors the tasks, the clock and the queue, and moves by one
        step of the specification. */
    method RrTaskTurn(arr: seq<int>, order: seq<nat>, ready: Ready, ghost ts0: seq<Task>, ghost g: RrState)
      returns (ready': Ready, finished: bool, ghost g': RrState)
      requires Enumerates(order, |arr|) && RrInv(arr, order, g, -1) && quantum >= 1
      requires CountZeros(g.rem) < |arr|
      requires |ts0| == |arr| && TaskArrivals(ts0) == arr
      requires tasks == Progressed(ts0, g.rem, g.started, g.start, g.finish, -1) && currentTime == g.clock && ready == g.ready
      modifies this
      ensures g' == RrStep(arr, order, quantum, g)
      ensures tasks == Progressed(ts0, g'.rem, g'.started, g'.start, g'.finish, -1) && currentTime == g'.clock && ready' == g'.ready
      ensures quantum == old(quantum) && algorithm == old(algorithm)
      ensures var a := AdmitAll(arr, order, g); finished <==> a.queue() != [] && g'.rem[a.queue()[0]] <= 0
    {
      AdmitInv(arr, order, g, -1);
      g' := RrStep(arr, order, quantum, g);
      ProgressedColumns(ts0, g.rem, g.started, g.start, g.finish, -1);
      ready' := AdmitArrivals(arr, order, TaskRemaining(tasks), currentTime, ready);
      if ready'.queue != [] {
        ghost var a := AdmitAll(arr, order, g);
        assert a.inQueue()[a.queue()[0]];
        var idx;
        ghost var d;
        idx, ready', d := RrTaskHead(arr, order, ready', ts0, a);
        ready', finished := RrTaskRequeue(arr, idx, ready', ts0, d);
      } else {
        currentTime := currentTime + 1;
        finished := false;
      }
    }

    /** The working part of a Round Robin turn, from the state `a` after
        admission: the head `idx` of the queue is taken off (its start time
        written on its first slice) and runs for `min(quantum, remaining)`
        units, and the tasks that arrived meanwhile are admitted, giving the
        state `d`, in which `idx` is pending. */
    method RrTaskHead(arr: seq<int>, order: seq<nat>, ready: Ready, ghost ts0: seq<Task>, ghost a: RrState)
      returns (idx: nat, ready': Ready, ghost d: RrState)
      requires Enumerates(order, |arr|) && RrShaped(|arr|, a) && a.queue() != [] && a.rem[a.queue()[0]] > 0
      requires |ts0| == |arr|
      requires tasks == Progressed(ts0, a.rem, a.started, a.start, a.finish, -1) && currentTime == a.clock && ready == a.ready
      modifies this
      ensures idx == a.queue()[0] && d == AdmitAll(arr, order, Execute(quantum, Pop(a), idx))
      ensures tasks == Progressed(ts0, d.rem, d.started, d.start, d.finish, idx) && currentTime == d.clock && ready' == d.ready
      ensures quantum == old(quantum) && algorithm == old(algorithm)
    {
      ghost var c;
      idx, ready', c := RrTaskSlice(ready, ts0, a);
      ProgressedColumns(ts0, c.rem, c.started, c.start, c.finish, idx);
      ready' := AdmitArrivals(arr, order, TaskRemaining(tasks), currentTime, ready');
      d := AdmitAll(arr, order, c);
    }

    /** The head `idx` of the queue is taken off, its start time written on
        its first slice, and it runs for `min(quantum, remaining)` units,
        giving the state `c`, in which `idx` is pending. */
    method RrTaskSlice(ready: Ready, ghost ts0: seq<Task>, ghost a: RrState) returns (idx: nat, ready': Ready, ghost c: RrState)
      requires RrShaped(|ts0|, a) && a.queue() != [] && a.rem[a.queue()[0]] > 0
      requires tasks == Progressed(ts0, a.rem, a.started, a.start, a.finish, -1) && currentTime == a.clock && ready == a.ready
      modifies this
      ensures idx == a.queue()[0] && c == Execute(quantum, Pop(a), idx)
      ensures tasks == Progressed(ts0, c.rem, c.started, c.start, c.finish, idx) && currentTime == c.clock && ready' == c.ready
      ensures quantum == old(quantum) && algorithm == old(algorithm)
    {
      idx := ready.queue[0];
      c := Execute(quantum, Pop(a), idx);
      ready' := ready.(queue := ready.queue[1..], inQueue := ready.inQueue[idx := false]);
      var t := tasks[idx];
      if !t.started {
        t := t.(startTime := currentTime, started := true);
      }
      var execTime := Min(quantum, t.remainingTime);
      currentTime := currentTime + execTime;
      t := t.(remainingTime := t.remainingTime - execTime);
      ProgressedSet(ts0, a.rem, a.started, a.start, a.finish, -1, idx, c.rem[idx], true, c.start[idx], a.finish[idx], idx);
      assert a.finish[idx := a.finish[idx]] == c.finish;
      tasks := tasks[idx := t];
    }

    /** The end of a working turn, from the state `d`: the pending task `idx`
        rejoins the tail of the queue if it has work left, or else completes
        now, with its metrics (`finished`). */
    method RrTaskRequeue(arr: seq<int>, idx: nat, ready: Ready, ghost ts0: seq<Task>, ghost d: RrState)
      returns (ready': Ready, finished: bool)
      requires RrShaped(|arr|, d) && idx < |arr| && |ts0| == |arr| && d.rem[idx] >= 0
      requires tasks == Progressed(ts0, d.rem, d.started, d.start, d.finish, idx) && currentTime == d.clock && ready == d.ready
      modifies this
      ensures var s' := Requeue(d, idx);
        && tasks == Progressed(ts0, s'.rem, s'.started, s'.start, s'.finish, -1) && currentTime == s'.clock && ready' == s'.ready
        && (finished <==> s'.rem[idx] <= 0)
      ensures quantum == old(quantum) && algorithm == old(algorithm)
    {
      if tasks[idx].remainingTime > 0 {
        ProgressedSettle(ts0, d.rem, d.started, d.start, d.finish, idx);
        ready' := ready.(queue := ready.queue + [idx], inQueue := ready.inQueue[idx := true]);
        finished := false;
      } else {
        ProgressedSet(ts0, d.rem, d.started, d.start, d.finish, idx, idx, 0, d.started[idx], d.start[idx], currentTime, -1);
        assert d.rem[idx := 0] == d.rem && d.started[idx := d.started[idx]] == d.started && d.start[idx := d.start[idx]] == d.start;
        var t := tasks[idx];
        t := t.(completionTime := currentTime);
        t := t.(turnaroundTime := t.completionTime - t.arrivalTime);
        t := t.(waitingTime := t.turnaroundTime - t.burstTime);
        tasks := tasks[idx := t];
        ready' := ready;
        finished := true;
      }
    }
}
}
