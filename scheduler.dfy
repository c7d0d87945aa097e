/** The per-policy schedulers of scheduler.h: the `Scheduler` base class
    (a vector of `Process` records and a clock) and its five subclasses, each
    of which differs only in `schedule()`. One class stands for all of them
    here: `quantum` is the field the two Round Robin subclasses add, and each
    `schedule()` is a method of its own. Every method runs the loop of the
    source on the class's fields and is proved to end in the state that the
    policy's specification function gives. */
module Schedulers {
  import opened Jobs
  import opened SeqMath
  import opened Selection
  import opened Sorting
  import opened FcfsPolicy
  import opened NonPreemptivePolicy
  import opened SrtfPolicy
  import opened RoundRobinPolicy

  /** The default quantum of `RRNonPreemptiveScheduler(int q = 4)`. */
  const DefaultQuantum: int := 4

  function ArrivalOf(p: Process): int {
    p.arrivalTime
  }

  /** The completion times SJF gives (a ghost start column is carried along). */
  ghost function SjfCompletions(ps: seq<Process>): (f: seq<int>)
    requires Selectable(ProcessBursts(ps))
    ensures |f| == |ps|
  {
    var burst := ProcessBursts(ps);
    NpRun(ProcessArrivals(ps), burst, burst, NpInitial(Fill(|ps|, 0), ProcessCompletions(ps))).finish
  }

  ghost function SjfEnd(ps: seq<Process>): int
    requires Selectable(ProcessBursts(ps))
  {
    var burst := ProcessBursts(ps);
    NpRun(ProcessArrivals(ps), burst, burst, NpInitial(Fill(|ps|, 0), ProcessCompletions(ps))).clock
  }

  ghost function SrtfFinal(ps: seq<Process>): (r: SrtfState)
    requires forall i :: 0 <= i < |ps| ==> 0 < ps[i].burstTime < IntMax
    ensures SrtfShaped(|ps|, r) && forall i :: 0 <= i < |ps| ==> r.rem[i] == 0
  {
    var n := |ps|;
    var s := SrtfInitial(ProcessBursts(ps), Fill(n, false), Fill(n, 0), ProcessCompletions(ps));
    var arr := ProcessArrivals(ps);
    SrtfRunCompletes(arr, s);
    assert forall i :: 0 <= i < n ==> SrtfRun(arr, s).rem[i] == 0;
    SrtfRun(arr, s)
  }

  ghost function RrFinal(ps: seq<Process>, order: seq<nat>, q: int): (r: RrState)
    requires Enumerates(order, |ps|) && q >= 1
    requires forall i :: 0 <= i < |ps| ==> ps[i].remainingTime > 0
    ensures RrShaped(|ps|, r) && forall i :: 0 <= i < |ps| ==> r.rem[i] == 0
  {
    var n := |ps|;
    var s := RrInitial(ProcessRemaining(ps), Fill(n, false), Fill(n, 0), ProcessCompletions(ps));
    RrInvInitial(ProcessArrivals(ps), order, ProcessRemaining(ps), Fill(n, false), Fill(n, 0), ProcessCompletions(ps));
    var arr := ProcessArrivals(ps);
    RrRunCompletes(arr, order, q, s);
    assert forall i :: 0 <= i < |ps| ==> RrRun(arr, order, q, s).rem[i] == 0;
    RrRun(arr, order, q, s)
  }

  /** The records `ps`, in run order, once FCFS has run the first `i` of
      them: each of those has the completion time the FCFS clock gives it. */
  function FcfsCompleted(ps: seq<Process>, i: nat): (r: seq<Process>)
    requires i <= |ps|
    ensures |r| == |ps|
  {
    seq(|ps|, k requires 0 <= k < |ps| =>
      if k < i then ps[k].(completionTime := FcfsFinish(ProcessArrivals(ps), ProcessBursts(ps), k)) else ps[k])
  }

  /** The records FCFS leaves, in run order: no record waits a negative
      time, and with non-negative bursts each one completes before the next
      one starts, so completions rise along the vector. */
  lemma FcfsRecords(runOrder: seq<Process>, ps: seq<Process>)
    requires |ps| == |runOrder|
    requires forall k :: 0 <= k < |runOrder| ==>
      ps[k] == WithMetrics(runOrder[k].(completionTime := FcfsFinish(ProcessArrivals(runOrder), ProcessBursts(runOrder), k)))
    ensures forall k :: 0 <= k < |ps| ==> ps[k].waitingTime >= 0
    ensures (forall k :: 0 <= k < |ps| ==> ps[k].burstTime >= 0) ==>
      forall k :: 0 < k < |ps| ==> ps[k - 1].completionTime <= ps[k].completionTime - ps[k].burstTime
  {
    var arr, burst := ProcessArrivals(runOrder), ProcessBursts(runOrder);
    forall k | 0 <= k < |ps|
      ensures ps[k].waitingTime >= 0
    {
      assert ps[k].waitingTime == FcfsStart(arr, burst, k) - arr[k];
    }
    if forall k :: 0 <= k < |ps| ==> ps[k].burstTime >= 0 {
      assert forall k :: 0 <= k < |burst| ==> burst[k] == ps[k].burstTime;
      FcfsTimings(arr, burst);
      forall k | 0 < k < |ps|
        ensures ps[k - 1].completionTime <= ps[k].completionTime - ps[k].burstTime
      {
        assert FcfsFinish(arr, burst, k - 1) <= FcfsStart(arr, burst, k);
      }
    }
  }

  /** Under SJF no process waits a negative time: each one runs from a start
      time no earlier than its arrival and completes its burst after it. */
  lemma SjfWaiting(ps: seq<Process>)
    requires Selectable(ProcessBursts(ps))
    ensures |SjfCompletions(ps)| == |ps|
    ensures forall i :: 0 <= i < |ps| ==> SjfCompletions(ps)[i] - ps[i].arrivalTime - ps[i].burstTime >= 0
  {
    var burst := ProcessBursts(ps);
    NpSchedule(ProcessArrivals(ps), burst, burst, Fill(|ps|, 0), ProcessCompletions(ps));
  }

  /** Under Round Robin no record finishes sooner after its arrival than the
      work it had left: its first turn comes no earlier than its arrival, and
      it gets at most one unit of work per time unit. */
  lemma RrTurnaround(ps: seq<Process>, order: seq<nat>, q: int)
    requires IsArrivalOrder(order, ProcessArrivals(ps)) && Enumerates(order, |ps|) && q >= 1
    requires forall i :: 0 <= i < |ps| ==> ps[i].remainingTime > 0
    ensures |RrFinal(ps, order, q).finish| == |ps|
    ensures forall i :: 0 <= i < |ps| ==> RrFinal(ps, order, q).finish[i] - ps[i].arrivalTime >= ps[i].remainingTime
  {
    RrSchedule(ProcessArrivals(ps), order, q, ProcessRemaining(ps), Fill(|ps|, 0), ProcessCompletions(ps));
  }

  class Scheduler {
    var processes: seq<Process>
    var currentTime: int
    var quantum: int

    /** `Scheduler()`, and the subclasses built without a quantum argument. */
    constructor ()
      ensures processes == [] && currentTime == 0 && quantum == DefaultQuantum
    {
      processes := [];
      currentTime := 0;
      quantum := DefaultQuantum;
    }

    /** `RRNonPreemptiveScheduler(q)` and `RoundRobinScheduler(q)`. */
    constructor WithQuantum(q: int)
      ensures processes == [] && currentTime == 0 && quantum == q
    {
      processes := [];
      currentTime := 0;
      quantum := q;
    }

    /** `addProcess`: appends a copy of the record. */
    method AddProcess(p: Process)
      modifies this
      ensures processes == old(processes) + [p]
      ensures currentTime == old(currentTime) && quantum == old(quantum)
    {
      processes := processes + [p];
    }

    /** `calculateMetrics`: every record gets its turnaround and waiting time
        from its completion time; nothing else changes. */
    method CalculateMetrics()
      modifies this
      ensures |processes| == |old(processes)|
      ensures forall i :: 0 <= i < |processes| ==> processes[i] == WithMetrics(old(processes)[i])
      ensures currentTime == old(currentTime) && quantum == old(quantum)
    {
      for i := 0 to |processes|
        invariant |processes| == |old(processes)|
        invariant currentTime == old(currentTime) && quantum == old(quantum)
        invariant forall k :: 0 <= k < i ==> processes[k] == WithMetrics(old(processes)[k])
        invariant forall k :: i <= k < |processes| ==> processes[k] == old(processes)[k]
      {
        var p := processes[i];
        var turnaround := p.completionTime - p.arrivalTime;
        processes := processes[i := p.(turnaroundTime := turnaround, waitingTime := turnaround - p.burstTime)];
      }
    }

    /** `FCFSScheduler::schedule`: the records end up in an arrival-sorted
        rearrangement `runOrder` of the old ones (whichever one `std::sort`
        picks), each completing when the FCFS clock says; no record waits a
        negative time, and with non-negative bursts each completes before the
        next one starts. */
    method ScheduleFCFS() returns (ghost runOrder: seq<Process>)
      modifies this
      ensures SortedBy(runOrder, ArrivalOf) && multiset(runOrder) == multiset(old(processes))
      ensures |processes| == |runOrder|
      ensures forall k :: 0 <= k < |runOrder| ==>
        processes[k] == WithMetrics(runOrder[k].(completionTime := FcfsFinish(ProcessArrivals(runOrder), ProcessBursts(runOrder), k)))
      ensures currentTime == FcfsClock(ProcessArrivals(runOrder), ProcessBursts(runOrder), |runOrder|)
      ensures forall k :: 0 <= k < |processes| ==> processes[k].waitingTime >= 0
      ensures (forall k :: 0 <= k < |processes| ==> processes[k].burstTime >= 0) ==>
        forall k :: 0 < k < |processes| ==> processes[k - 1].completionTime <= processes[k].completionTime - processes[k].burstTime
      ensures quantum == old(quantum)
    {
      processes := SortBy(processes, ArrivalOf);
      runOrder := processes;
      ghost var arr, burst := ProcessArrivals(runOrder), ProcessBursts(runOrder);
      currentTime := 0;
      for i := 0 to |processes|
        invariant quantum == old(quantum)
        invariant processes == FcfsCompleted(runOrder, i) && currentTime == FcfsClock(arr, burst, i)
      {
        FcfsNext(i, arr, burst, runOrder);
      }
      CalculateMetrics();
      FcfsRecords(runOrder, processes);
    }

    /** The body of the FCFS loop for the job at `i`: it starts once it has
        arrived and the CPU is free, and completes after its burst. */
    method FcfsNext(i: nat, ghost arr: seq<int>, ghost burst: seq<int>, ghost runOrder: seq<Process>)
      requires i < |runOrder| && arr == ProcessArrivals(runOrder) && burst == ProcessBursts(runOrder)
      requires processes == FcfsCompleted(runOrder, i) && currentTime == FcfsClock(arr, burst, i)
      modifies this
      ensures processes == FcfsCompleted(runOrder, i + 1) && currentTime == FcfsClock(arr, burst, i + 1)
      ensures quantum == old(quantum)
    {
      assert processes[i] == runOrder[i];
      assert processes[i].arrivalTime == arr[i] && processes[i].burstTime == burst[i];
      if currentTime < processes[i].arrivalTime {
        currentTime := processes[i].arrivalTime;
      }
      currentTime := currentTime + processes[i].burstTime;
      processes := processes[i := processes[i].(completionTime := currentTime)];
    }

    /** `SJFScheduler::schedule`: each record completes when the SJF
        specification says, with its turnaround and waiting time derived from
        that; no record waits a negative time. A burst of INT_MAX is never
        picked by the scan, and the loop would not end. */
    method ScheduleSJF()
      requires forall i :: 0 <= i < |processes| ==> processes[i].burstTime < IntMax
      modifies this
      ensures |processes| == |old(processes)|
      ensures forall i :: 0 <= i < |processes| ==>
        processes[i] == WithMetrics(old(processes)[i].(completionTime := SjfCompletions(old(processes))[i]))
      ensures currentTime == SjfEnd(old(processes))
      ensures quantum == old(quantum)
      ensures forall i :: 0 <= i < |processes| ==> processes[i].waitingTime >= 0
    {
      var n := |processes|;
      ghost var ps0 := processes;
      var arr, burst := ProcessArrivals(processes), ProcessBursts(processes);
      ghost var g := NpInitial(Fill(n, 0), ProcessCompletions(processes));
      ghost var goal := NpRun(arr, burst, burst, g);
      WithCompletionsColumns(ps0, g.finish);
      var completed := Fill(n, false);
      currentTime := 0;
      var completedCount := 0;
      CountTrueNone(completed);
      while completedCount < n
        invariant NpShaped(n, g) && quantum == old(quantum)
        invariant completed == g.done && currentTime == g.clock && processes == WithCompletions(ps0, g.finish)
        invariant completedCount == CountTrue(completed)
        invariant NpRun(arr, burst, burst, g) == goal
        decreases n - completedCount, MaxOf(arr) - g.clock
      {
        var idx;
        ghost var g';
        idx, g' := SelectNext(arr, burst, burst, completed, currentTime, g);
        if idx != -1 {
          RunToCompletion(idx, burst, ps0, g, g');
          completed := completed[idx := true];
          completedCount := completedCount + 1;
        } else {
          currentTime := currentTime + 1;
        }
        g := g';
      }
      CountTrueFull(completed);
      CalculateMetrics();
      SjfWaiting(ps0);
    }

    /** Job `idx` runs its whole burst from the current time; its completion
        time is recorded. */
    method RunToCompletion(idx: nat, burst: seq<int>, ghost ps0: seq<Process>, ghost g: NpState, ghost g': NpState)
      requires |ps0| == |burst| && NpShaped(|burst|, g) && idx < |burst|
      requires currentTime == g.clock && processes == WithCompletions(ps0, g.finish) && RunsWhole(burst, g, idx, g')
      modifies this
      ensures currentTime == g'.clock && processes == WithCompletions(ps0, g'.finish)
      ensures quantum == old(quantum)
    {
      currentTime := currentTime + burst[idx];
      WithCompletionsSet(ps0, g.finish, idx, currentTime);
      processes := processes[idx := processes[idx].(completionTime := currentTime)];
    }
  
    /** `SRTFScheduler::schedule`: each record completes when the SRTF
        specification says, with its turnaround and waiting time derived from
        that; no record waits a negative time. The bound on bursts is what the
        loop needs to end: a job with no work is never counted as completed,
        and one with INT_MAX units is never picked. */
    method ScheduleSRTF()
      requires forall i :: 0 <= i < |processes| ==> 0 < processes[i].burstTime < IntMax
      modifies this
      ensures |processes| == |old(processes)|
      ensures forall i :: 0 <= i < |processes| ==>
        processes[i] == WithMetrics(old(processes)[i].(completionTime := SrtfFinal(old(processes)).finish[i]))
      ensures currentTime == SrtfFinal(old(processes)).clock
      ensures quantum == old(quantum)
      ensures forall i :: 0 <= i < |processes| ==> processes[i].waitingTime >= 0
    {
      currentTime := 0;
      var completed := 0;
      var n := |processes|;
      ghost var ps0 := processes;
      var arr := ProcessArrivals(processes);
      var remainingTime := ProcessBursts(processes);
      ghost var g := SrtfInitial(remainingTime, Fill(n, false), Fill(n, 0), ProcessCompletions(processes));
      ghost var goal := SrtfFinal(ps0);
      WithCompletionsColumns(ps0, g.finish);
      CountZerosNone(remainingTime);
      while completed < n
        invariant SrtfShaped(n, g) && Workable(g.rem)
        invariant quantum == old(quantum)
        invariant remainingTime == g.rem && currentTime == g.clock && processes == WithCompletions(ps0, g.finish)
        invariant completed == CountZeros(g.rem)
        invariant SrtfRun(arr, g) == goal
        decreases Sum(g.rem), MaxOf(arr) - g.clock
      {
        var idx;
        idx, remainingTime, g := SrtfTimeUnit(arr, remainingTime, ps0, g);
        if idx != -1 && remainingTime[idx] == 0 {
          completed := completed + 1;
        }
      }
      CountZerosFull(remainingTime);
      CalculateMetrics();
      SrtfSchedule(ProcessArrivals(ps0), ProcessBursts(ps0), Fill(n, 0), ProcessCompletions(ps0));
    }

    /** One time unit of the SRTF loop, up to the `completed` count: the scan,
        then either one unit of work for the job it found, completing it when
        that was its last, or one idle unit. The unit picks by the selection
        rule and is one step of the specification from `g`. */
    method SrtfTimeUnit(arr: seq<int>, rem: seq<int>, ghost ps0: seq<Process>, ghost g: SrtfState)
      returns (idx: int, rem': seq<int>, ghost g': SrtfState)
      requires SrtfShaped(|arr|, g) && Workable(g.rem) && CountZeros(g.rem) < |arr|
      requires rem == g.rem && currentTime == g.clock
      requires |ps0| == |arr| && processes == WithCompletions(ps0, g.finish)
      modifies this
      ensures PicksFirstMin(g.rem, ArrivedWithWork(arr, g.rem, g.clock), idx)
      ensures g' == SrtfStep(arr, g)
      ensures SrtfShaped(|arr|, g') && Workable(g'.rem)
      ensures rem' == g'.rem && currentTime == g'.clock && processes == WithCompletions(ps0, g'.finish)
      ensures quantum == old(quantum)
      ensures idx == -1 ==> g' == g.(clock := g.clock + 1) && g.clock < MaxOf(arr)
      ensures idx != -1 ==> (&& 0 <= idx < |arr| && 0 <= Sum(g'.rem) < Sum(g.rem)
        && CountZeros(g'.rem) == CountZeros(g.rem) + (if g'.rem[idx] == 0 then 1 else 0))
      ensures SrtfRun(arr, g') == SrtfRun(arr, g)
    {
      idx, rem', g' := SrtfUnit(arr, rem, currentTime, g);
      currentTime := currentTime + 1;
      if idx != -1 && rem'[idx] == 0 {
        WithCompletionsSet(ps0, g.finish, idx, currentTime);
        processes := processes[idx := processes[idx].(completionTime := currentTime)];
      }
    }

    /** `RRNonPreemptiveScheduler::schedule` and `RoundRobinScheduler::schedule`,
        whose bodies are the same: each record ends with no work left and
        completes when the Round Robin specification says for the arrival
        order `order` that the index sort produced, with its turnaround and
        waiting time derived from that; no record waits a negative time. A
        quantum below one or a record with no work would keep the loop from
        ending. */
    method ScheduleRR() returns (ghost order: seq<nat>)
      requires quantum >= 1
      requires forall i :: 0 <= i < |processes| ==> processes[i].remainingTime > 0
      modifies this
      ensures quantum == old(quantum)
      ensures IsArrivalOrder(order, ProcessArrivals(old(processes))) && Enumerates(order, |old(processes)|)
      ensures |processes| == |old(processes)|
      ensures forall i :: 0 <= i < |processes| ==>
        processes[i] == WithMetrics(old(processes)[i].(remainingTime := 0, completionTime := RrFinal(old(processes), order, quantum).finish[i]))
      ensures currentTime == RrFinal(old(processes), order, quantum).clock
      ensures forall i :: 0 <= i < |processes| ==> processes[i].turnaroundTime >= old(processes)[i].remainingTime
      ensures forall i :: 0 <= i < |processes| && old(processes)[i].remainingTime == old(processes)[i].burstTime ==>
        processes[i].waitingTime >= 0
    {
      ghost var ps0 := processes;
      var arr := ProcessArrivals(processes);
      var indices := SortIndicesByArrival(arr);
      order := indices;
      ArrivalOrderEnumerates(indices, arr);
      ghost var final := RunQueue(arr, indices);
      CalculateMetrics();
      RrTurnaround(ps0, order, quantum);
    }

    /** The dispatch loop of `RoundRobinScheduler::schedule`, over the jobs
        in the arrival order `indices`: it ends in the final state of the
        Round Robin specification, with every job's work done. */
    method RunQueue(arr: seq<int>, indices: seq<nat>) returns (ghost final: RrState)
      requires quantum >= 1 && arr == ProcessArrivals(processes) && Enumerates(indices, |processes|)
      requires forall i :: 0 <= i < |processes| ==> processes[i].remainingTime > 0
      modifies this
      ensures quantum == old(quantum)
      ensures final == RrFinal(old(processes), indices, quantum) && RrShaped(|old(processes)|, final)
      ensures processes == WithProgress(old(processes), final.rem, final.finish) && currentTime == final.clock
      ensures forall i :: 0 <= i < |arr| ==> final.rem[i] == 0
    {
      var n := |processes|;
      ghost var ps0 := processes;
      var ready := Ready([], Fill(n, false), 0);
      currentTime := 0;
      var completed := 0;
      ghost var g := RrInitial(ProcessRemaining(ps0), Fill(n, false), Fill(n, 0), ProcessCompletions(ps0));
      ghost var goal := RrFinal(ps0, indices, quantum);
      RrInvInitial(arr, indices, g.rem, g.started, g.start, g.finish);
      WithProgressColumns(ps0, g.rem, g.finish);
      CountZerosNone(g.rem);
      while completed < n
        invariant quantum == old(quantum)
        invariant RrInv(arr, indices, g, -1) && RrRun(arr, indices, quantum, g) == goal
        invariant processes == WithProgress(ps0, g.rem, g.finish) && currentTime == g.clock && ready == g.ready
        invariant completed == CountZeros(g.rem)
        decreases Sum(g.rem), MaxOf(arr) - g.clock
      {
        var finished;
        ghost var g';
        ready, finished, g' := RrTurn(arr, indices, ready, ps0, g);
        RrTurnFacts(arr, indices, quantum, g, finished);
        g := g';
        if finished {
          completed := completed + 1;
        }
      }
      CountZerosFull(g.rem);
      final := g;
    }

    /** One turn of the Round Robin loop, up to the `completed` count: the
        arrivals are admitted; then either the job at the head of the ready
        queue runs for `min(quantum, remaining)` units, the jobs that arrived
        meanwhile are admitted, and the job rejoins the tail or completes
        (`finished`), or the CPU idles for one unit. The ghost loop state `g`
        mirrors the records, the clock and the queue, and moves by one step
        of the specification. */
    method RrTurn(arr: seq<int>, order: seq<nat>, ready: Ready, ghost ps0: seq<Process>, ghost g: RrState)
      returns (ready': Ready, finished: bool, ghost g': RrState)
      requires Enumerates(order, |arr|) && RrInv(arr, order, g, -1) && quantum >= 1
      requires CountZeros(g.rem) < |arr|
      requires |ps0| == |arr| && ProcessArrivals(ps0) == arr
      requires processes == WithProgress(ps0, g.rem, g.finish) && currentTime == g.clock && ready == g.ready
      modifies this
      ensures g' == RrStep(arr, order, quantum, g)
      ensures processes == WithProgress(ps0, g'.rem, g'.finish) && currentTime == g'.clock && ready' == g'.ready
      ensures quantum == old(quantum)
      ensures var a := AdmitAll(arr, order, g); finished <==> a.queue() != [] && g'.rem[a.queue()[0]] <= 0
    {
      g' := RrStep(arr, order, quantum, g);
      WithProgressColumns(ps0, g.rem, g.finish);
      ready' := AdmitArrivals(arr, order, ProcessRemaining(processes), currentTime, ready);
      if ready'.queue != [] {
        var idx;
        ghost var d;
        idx, ready', d := RrRunHead(arr, order, ready', ps0, AdmitAll(arr, order, g));
        ready', finished := RrRequeue(arr, idx, ready', ps0, d);
      } else {
        currentTime := currentTime + 1;
        finished := false;
      }
    }

    /** The working part of a Round Robin turn, from the state `a` after
        admission: the head `idx` of the queue is taken off and runs for
        `min(quantum, remaining)` units, and the jobs that arrived meanwhile
        are admitted, giving the state `d`. */
    method RrRunHead(arr: seq<int>, order: seq<nat>, ready: Ready, ghost ps0: seq<Process>, ghost a: RrState)
      returns (idx: nat, ready': Ready, ghost d: RrState)
      requires Enumerates(order, |arr|) && RrShaped(|arr|, a) && a.queue() != []
      requires |ps0| == |arr| && ProcessArrivals(ps0) == arr
      requires processes == WithProgress(ps0, a.rem, a.finish) && currentTime == a.clock && ready == a.ready
      modifies this
      ensures idx == a.queue()[0] && d == AdmitAll(arr, order, Execute(quantum, Pop(a), idx))
      ensures processes == WithProgress(ps0, d.rem, d.finish) && currentTime == d.clock && ready' == d.ready
      ensures quantum == old(quantum)
    {
      ghost var c;
      idx, ready', c := RrSlice(ready, ps0, a);
      WithProgressColumns(ps0, c.rem, c.finish);
      ready' := AdmitArrivals(arr, order, ProcessRemaining(processes), currentTime, ready');
      d := AdmitAll(arr, order, c);
    }

    /** The head `idx` of the queue is taken off and runs for
        `min(quantum, remaining)` units, giving the state `c`. */
    method RrSlice(ready: Ready, ghost ps0: seq<Process>, ghost a: RrState) returns (idx: nat, ready': Ready, ghost c: RrState)
      requires RrShaped(|ps0|, a) && a.queue() != []
      requires processes == WithProgress(ps0, a.rem, a.finish) && currentTime == a.clock && ready == a.ready
      modifies this
      ensures idx == a.queue()[0] && c == Execute(quantum, Pop(a), idx)
      ensures processes == WithProgress(ps0, c.rem, c.finish) && currentTime == c.clock && ready' == c.ready
      ensures quantum == old(quantum)
    {
      idx := ready.queue[0];
      ready' := ready.(queue := ready.queue[1..], inQueue := ready.inQueue[idx := false]);
      var execTime := Min(quantum, processes[idx].remainingTime);
      currentTime := currentTime + execTime;
      c := Execute(quantum, Pop(a), idx);
      WithProgressSet(ps0, a.rem, a.finish, idx, c.rem[idx], currentTime);
      processes := processes[idx := processes[idx].(remainingTime := processes[idx].remainingTime - execTime)];
    }

    /** The end of a working turn, from the state `d`: job `idx` rejoins the
        tail of the queue if it has work left, or else completes now
        (`finished`). */
    method RrRequeue(arr: seq<int>, idx: nat, ready: Ready, ghost ps0: seq<Process>, ghost d: RrState)
      returns (ready': Ready, finished: bool)
      requires RrShaped(|arr|, d) && idx < |arr| && |ps0| == |arr|
      requires processes == WithProgress(ps0, d.rem, d.finish) && currentTime == d.clock && ready == d.ready
      modifies this
      ensures var s' := Requeue(d, idx);
        && processes == WithProgress(ps0, s'.rem, s'.finish) && currentTime == s'.clock && ready' == s'.ready
        && (finished <==> s'.rem[idx] <= 0)
      ensures quantum == old(quantum)
    {
      if processes[idx].remainingTime > 0 {
        ready' := ready.(queue := ready.queue + [idx], inQueue := ready.inQueue[idx := true]);
        finished := false;
      } else {
        WithProgressSet(ps0, d.rem, d.finish, idx, d.rem[idx], currentTime);
        processes := processes[idx := processes[idx].(completionTime := currentTime)];
        ready' := ready;
        finished := true;
      }
    }
}
}
