/** Round Robin (scheduler.cpp: `RRNonPreemptiveScheduler::schedule`,
    `RoundRobinScheduler::schedule` and `TaskScheduler::scheduleRR`, three
    copies of one loop). Job indices are sorted by arrival; a FIFO ready
    queue holds the arrived jobs with work left. Each turn admits the jobs
    that have arrived, then either runs the job at the head of the queue for
    at most one quantum, admits the jobs that arrived meanwhile, and puts the
    job back at the tail if it still has work, or idles for one time unit. */
module RoundRobinPolicy {
  import opened SeqMath
  import opened Sorting

  /** The ready queue, its `in_queue` flags, and the position in the arrival
      order of the next job to admit. */
  datatype Ready = Ready(queue: seq<nat>, inQueue: seq<bool>, next: nat)

  predicate ReadyShaped(n: nat, r: Ready) {
    && |r.inQueue| == n && r.next <= n
    && forall k :: 0 <= k < |r.queue| ==> r.queue[k] < n
  }

  /** The loop state: work left per job, the clock, the ready queue, and the
      start bookkeeping and completion time of each job. */
  datatype RrState = RrState(rem: seq<int>, clock: int, ready: Ready,
                             started: seq<bool>, start: seq<int>, finish: seq<int>)
  {
    function queue(): seq<nat> { ready.queue }
    function inQueue(): seq<bool> { ready.inQueue }
    function next(): nat { ready.next }
  }

  predicate RrShaped(n: nat, s: RrState) {
    |s.rem| == n && ReadyShaped(n, s.ready) && |s.started| == n && |s.start| == n && |s.finish| == n
  }

  /** `order` lists every job index exactly once. */
  predicate Enumerates(order: seq<nat>, n: nat) {
    && |order| == n && Distinct(order)
    && (forall k :: 0 <= k < n ==> order[k] < n)
    && (forall i :: 0 <= i < n ==> i in order)
  }

  lemma ArrivalOrderEnumerates(order: seq<nat>, arr: seq<int>)
    requires IsArrivalOrder(order, arr)
    ensures Enumerates(order, |arr|)
  {
    ArrivalOrderFacts(order, arr);
  }

  /** The state when the loop is entered: clock 0, an empty queue, nothing admitted. */
  function RrInitial(work: seq<int>, started0: seq<bool>, start0: seq<int>, finish0: seq<int>): (s: RrState)
    requires |started0| == |work| && |start0| == |work| && |finish0| == |work|
    ensures RrShaped(|work|, s) && s.clock == 0 && s.rem == work && s.queue() == [] && s.next() == 0
    ensures forall i :: 0 <= i < |work| ==> !s.inQueue()[i]
    ensures s.started == started0 && s.start == start0 && s.finish == finish0
  {
    RrState(work, 0, Ready([], Fill(|work|, false), 0), started0, start0, finish0)
  }

  /** The admission loop: walk the arrival order while the next job has
      arrived by `clock`, queueing it when it is not queued and has work left.
      Admission only moves forward and only appends to the queue, and it stops
      at the end of the order or at a job that has not arrived. */
  function Admit(arr: seq<int>, order: seq<nat>, rem: seq<int>, clock: int, r: Ready): (r': Ready)
    requires |rem| == |arr| && ReadyShaped(|arr|, r) && Enumerates(order, |arr|)
    ensures ReadyShaped(|arr|, r')
    ensures r.next <= r'.next
    ensures r'.next == |arr| || clock < arr[order[r'.next]]
    ensures forall k :: r.next <= k < r'.next ==> arr[order[k]] <= clock
    ensures |r.queue| <= |r'.queue| && r'.queue[..|r.queue|] == r.queue
    decreases |arr| - r.next
  {
    if r.next < |arr| && arr[order[r.next]] <= clock then
      Admit(arr, order, rem, clock, AdmitNext(order, rem, r))
    else
      r
  }

  /** One turn of the admission loop: the next job in arrival order joins the
      tail of the queue if it is not queued and has work left. */
  function AdmitNext(order: seq<nat>, rem: seq<int>, r: Ready): (r': Ready)
    requires ReadyShaped(|rem|, r) && Enumerates(order, |rem|) && r.next < |rem|
    ensures ReadyShaped(|rem|, r') && r'.next == r.next + 1
    ensures |r.queue| <= |r'.queue| && r'.queue[..|r.queue|] == r.queue
  {
    var o := order[r.next];
    var r1 := if !r.inQueue[o] && rem[o] > 0 then r.(queue := r.queue + [o], inQueue := r.inQueue[o := true]) else r;
    r1.(next := r.next + 1)
  }

  /** Admission as the loop state sees it. */
  function AdmitAll(arr: seq<int>, order: seq<nat>, s: RrState): (s': RrState)
    requires RrShaped(|arr|, s) && Enumerates(order, |arr|)
    ensures RrShaped(|arr|, s')
    ensures s' == s.(ready := s'.ready)
  {
    s.(ready := Admit(arr, order, s.rem, s.clock, s.ready))
  }

  /** The admission loop as the source runs it, on the queue, the flags and
      the position in place. */
  method AdmitArrivals(arr: seq<int>, order: seq<nat>, rem: seq<int>, clock: int, r: Ready) returns (r': Ready)
    requires |rem| == |arr| && ReadyShaped(|arr|, r) && Enumerates(order, |arr|)
    ensures r' == Admit(arr, order, rem, clock, r)
  {
    var queue, inQueue, next := r.queue, r.inQueue, r.next;
    while next < |arr| && arr[order[next]] <= clock
      invariant ReadyShaped(|arr|, Ready(queue, inQueue, next))
      invariant Admit(arr, order, rem, clock, Ready(queue, inQueue, next)) == Admit(arr, order, rem, clock, r)
      decreases |arr| - next
    {
      ghost var before := Ready(queue, inQueue, next);
      if !inQueue[order[next]] && rem[order[next]] > 0 {
        queue := queue + [order[next]];
        inQueue := inQueue[order[next] := true];
      }
      next := next + 1;
      assert Ready(queue, inQueue, next) == AdmitNext(order, rem, before);
    }
    r' := Ready(queue, inQueue, next);
  }

  /** Takes the job at the head of the queue, recording its start time on its
      first turn. */
  function Pop(s: RrState): (s': RrState)
    requires RrShaped(|s.rem|, s) && s.queue() != []
    ensures RrShaped(|s.rem|, s')
    ensures s'.queue() == s.queue()[1..] && s'.rem == s.rem && s'.clock == s.clock && s'.next() == s.next()
    ensures s'.finish == s.finish && s'.started == s.started[s.queue()[0] := true]
    ensures s'.start == (if s.started[s.queue()[0]] then s.start else s.start[s.queue()[0] := s.clock])
  {
    var idx := s.queue()[0];
    s.(ready := s.ready.(queue := s.queue()[1..], inQueue := s.inQueue()[idx := false]),
       started := s.started[idx := true],
       start := if s.started[idx] then s.start else s.start[idx := s.clock])
  }

  /** Runs job `idx` for `min(quantum, remaining)` time units. */
  function Execute(q: int, s: RrState, idx: nat): (s': RrState)
    requires RrShaped(|s.rem|, s) && idx < |s.rem|
    ensures RrShaped(|s.rem|, s')
    ensures s'.clock == s.clock + Min(q, s.rem[idx]) && s'.rem == s.rem[idx := s.rem[idx] - Min(q, s.rem[idx])]
    ensures s'.ready == s.ready && s'.started == s.started && s'.start == s.start && s'.finish == s.finish
  {
    var e := Min(q, s.rem[idx]);
    s.(clock := s.clock + e, rem := s.rem[idx := s.rem[idx] - e])
  }

  /** Puts job `idx` back at the tail when it has work left, otherwise
      records its completion at the current time. */
  function Requeue(s: RrState, idx: nat): (s': RrState)
    requires RrShaped(|s.rem|, s) && idx < |s.rem|
    ensures RrShaped(|s.rem|, s')
    ensures s'.rem == s.rem && s'.clock == s.clock && s'.started == s.started && s'.start == s.start
    ensures s.rem[idx] > 0 ==> s'.queue() == s.queue() + [idx] && s'.finish == s.finish
    ensures s.rem[idx] <= 0 ==> s'.ready == s.ready && s'.finish == s.finish[idx := s.clock]
  {
    if s.rem[idx] > 0 then s.(ready := s.ready.(queue := s.queue() + [idx], inQueue := s.inQueue()[idx := true]))
    else s.(finish := s.finish[idx := s.clock])
  }

  /** One turn of the outer loop. */
  function RrStep(arr: seq<int>, order: seq<nat>, q: int, s: RrState): (s': RrState)
    requires RrShaped(|arr|, s) && Enumerates(order, |arr|)
    ensures RrShaped(|arr|, s')
  {
    var a := AdmitAll(arr, order, s);
    if a.queue() == [] then a.(clock := a.clock + 1)
    else
      var idx := a.queue()[0];
      Requeue(AdmitAll(arr, order, Execute(q, Pop(a), idx)), idx)
  }

  /** What one turn does, in Round Robin's terms: with an empty queue after
      admission the clock moves by one and no work is done; otherwise the job
      at the head runs for `min(quantum, remaining)` units, the jobs queued
      behind it keep their places at the front, and it rejoins at the tail if
      it has work left or is completed at the current time if not. */
  lemma RrStepSlice(arr: seq<int>, order: seq<nat>, q: int, s: RrState)
    requires RrShaped(|arr|, s) && Enumerates(order, |arr|)
    ensures var a := AdmitAll(arr, order, s);
      var s' := RrStep(arr, order, q, s);
      if a.queue() == [] then
        s'.clock == s.clock + 1 && s'.rem == s.rem && s'.finish == s.finish && s'.queue() == []
      else
        var idx := a.queue()[0];
        var e := Min(q, s.rem[idx]);
        && e <= q
        && s'.clock == s.clock + e
        && s'.rem == s.rem[idx := s.rem[idx] - e]
        && s'.started == s.started[idx := true]
        && s'.start == (if s.started[idx] then s.start else s.start[idx := s.clock])
        && |a.queue()| - 1 <= |s'.queue()| && s'.queue()[..|a.queue()| - 1] == a.queue()[1..]
        && (s'.rem[idx] > 0 ==> s'.queue() != [] && s'.queue()[|s'.queue()| - 1] == idx && s'.finish == s.finish)
        && (s'.rem[idx] <= 0 ==> s'.finish == s.finish[idx := s'.clock])
  {
    var a := AdmitAll(arr, order, s);
    if a.queue() != [] {
      var idx := a.queue()[0];
      var b := Pop(a);
      var c := Execute(q, b, idx);
      var d := AdmitAll(arr, order, c);
      var s' := Requeue(d, idx);
      assert s' == RrStep(arr, order, q, s);
      var e := Min(q, s.rem[idx]);
      assert s'.clock == s.clock + e;
      assert s'.rem == s.rem[idx := s.rem[idx] - e];
      assert d.queue()[..|b.queue()|] == a.queue()[1..];
      if d.rem[idx] > 0 {
        assert s'.queue() == d.queue() + [idx];
        assert s'.queue()[..|b.queue()|] == d.queue()[..|b.queue()|];
      }
    }
  }

  /** The invariant of the outer loop. `flying` is the job taken off the queue
      in the current turn (or -1 between turns). The queue holds distinct
      jobs, exactly those flagged `in_queue`, each arrived and with work left;
      jobs not yet reached in the arrival order are neither queued nor
      running; every job already passed is finished, queued or running. */
  ghost predicate RrInv(arr: seq<int>, order: seq<nat>, s: RrState, flying: int)
    requires Enumerates(order, |arr|)
  {
    && RrShaped(|arr|, s)
    && Distinct(s.queue())
    && (forall i :: 0 <= i < |arr| ==> (s.inQueue()[i] <==> i in s.queue()))
    && (forall i :: 0 <= i < |arr| ==> s.rem[i] >= 0)
    && (forall i :: 0 <= i < |arr| && s.inQueue()[i] ==> s.rem[i] > 0 && arr[i] <= s.clock && i != flying)
    && (0 <= flying < |arr| ==> arr[flying] <= s.clock)
    && (forall k :: s.next() <= k < |arr| ==> !s.inQueue()[order[k]] && order[k] != flying)
    && (forall k :: 0 <= k < s.next() ==> s.rem[order[k]] == 0 || s.inQueue()[order[k]] || order[k] == flying)
  }

  lemma RrInvInitial(arr: seq<int>, order: seq<nat>, work: seq<int>, started0: seq<bool>, start0: seq<int>, finish0: seq<int>)
    requires |work| == |arr| && |started0| == |arr| && |start0| == |arr| && |finish0| == |arr|
    requires Enumerates(order, |arr|)
    requires forall i :: 0 <= i < |work| ==> work[i] > 0
    ensures RrInv(arr, order, RrInitial(work, started0, start0, finish0), -1)
  {
  }

  lemma {:induction false} AdmitInv(arr: seq<int>, order: seq<nat>, s: RrState, flying: int)
    requires Enumerates(order, |arr|) && RrInv(arr, order, s, flying)
    ensures RrInv(arr, order, AdmitAll(arr, order, s), flying)
    decreases |arr| - s.next()
  {
    if s.next() < |arr| && arr[order[s.next()]] <= s.clock {
      var s2 := s.(ready := AdmitNext(order, s.rem, s.ready));
      AdmitOneInv(arr, order, s, flying);
      assert AdmitAll(arr, order, s2) == AdmitAll(arr, order, s);
      AdmitInv(arr, order, s2, flying);
    }
  }

  lemma AdmitOneInv(arr: seq<int>, order: seq<nat>, s: RrState, flying: int)
    requires Enumerates(order, |arr|) && RrInv(arr, order, s, flying)
    requires s.next() < |arr| && arr[order[s.next()]] <= s.clock
    ensures RrInv(arr, order, s.(ready := AdmitNext(order, s.rem, s.ready)), flying)
  {
    var o := order[s.next()];
    assert forall k :: s.next() < k < |arr| ==> order[k] != o;
  }

  lemma PopInv(arr: seq<int>, order: seq<nat>, s: RrState)
    requires Enumerates(order, |arr|) && RrInv(arr, order, s, -1) && s.queue() != []
    ensures RrInv(arr, order, Pop(s), s.queue()[0])
  {
    var idx := s.queue()[0];
    assert s.queue() == [idx] + s.queue()[1..];
    assert idx !in s.queue()[1..];
  }

  lemma ExecuteInv(arr: seq<int>, order: seq<nat>, q: int, s: RrState, idx: nat)
    requires Enumerates(order, |arr|) && RrInv(arr, order, s, idx) && idx < |arr|
    requires q >= 1 && s.rem[idx] > 0
    ensures RrInv(arr, order, Execute(q, s, idx), idx)
  {
  }

  lemma RequeueInv(arr: seq<int>, order: seq<nat>, s: RrState, idx: nat)
    requires Enumerates(order, |arr|) && RrInv(arr, order, s, idx) && idx < |arr|
    ensures RrInv(arr, order, Requeue(s, idx), -1)
  {
    if s.rem[idx] > 0 {
      assert idx !in s.queue();
    }
  }

  /** Each turn keeps the invariant, and either does at least one unit of
      work or idles while some job has still to arrive: the loop's variant. */
  lemma RrStepProgress(arr: seq<int>, order: seq<nat>, q: int, s: RrState)
    requires Enumerates(order, |arr|) && RrInv(arr, order, s, -1) && q >= 1
    requires CountZeros(s.rem) < |arr|
    ensures var s' := RrStep(arr, order, q, s);
      && RrInv(arr, order, s', -1)
      && (Sum(s'.rem) < Sum(s.rem) || (s'.rem == s.rem && s'.clock == s.clock + 1 && s.clock < MaxOf(arr)))
  {
    var a := AdmitAll(arr, order, s);
    AdmitInv(arr, order, s, -1);
    if a.queue() == [] {
      IdleMeansWaiting(arr, order, a);
    } else {
      SliceProgress(arr, order, q, a);
    }
  }

  /** A turn that runs the head of the queue keeps the invariant and does at
      least one unit of work. */
  lemma SliceProgress(arr: seq<int>, order: seq<nat>, q: int, a: RrState)
    requires Enumerates(order, |arr|) && RrInv(arr, order, a, -1) && q >= 1 && a.queue() != []
    ensures var idx := a.queue()[0];
      var s' := Requeue(AdmitAll(arr, order, Execute(q, Pop(a), idx)), idx);
      RrInv(arr, order, s', -1) && Sum(s'.rem) < Sum(a.rem)
  {
    var idx := a.queue()[0];
    PopInv(arr, order, a);
    var b := Pop(a);
    ExecuteInv(arr, order, q, b, idx);
    var c := Execute(q, b, idx);
    AdmitInv(arr, order, c, idx);
    RequeueInv(arr, order, AdmitAll(arr, order, c), idx);
    SumUpdate(b.rem, idx, c.rem[idx]);
  }

  /** With nothing queued after admission while some job has work left, that
      job has not arrived yet. */
  lemma IdleMeansWaiting(arr: seq<int>, order: seq<nat>, a: RrState)
    requires Enumerates(order, |arr|) && RrInv(arr, order, a, -1) && a.queue() == []
    requires CountZeros(a.rem) < |arr|
    requires a.next() == |arr| || a.clock < arr[order[a.next()]]
    ensures a.clock < MaxOf(arr)
  {
    CountZerosFull(a.rem);
    var i :| 0 <= i < |arr| && a.rem[i] != 0;
    assert i in order;
    var k :| 0 <= k < |arr| && order[k] == i;
    assert !a.inQueue()[i];
    assert a.next() <= k;
    assert arr[order[a.next()]] <= MaxOf(arr);
  }

  /** The whole loop, `while (completed < n)`, for a quantum of at least one. */
  function RrRun(arr: seq<int>, order: seq<nat>, q: int, s: RrState): (r: RrState)
    requires Enumerates(order, |arr|) && RrInv(arr, order, s, -1) && q >= 1
    ensures RrShaped(|arr|, r)
    decreases Sum(s.rem), MaxOf(arr) - s.clock
  {
    if CountZeros(s.rem) < |arr| then
      SumNonNegative(s.rem);
      RrStepProgress(arr, order, q, s);
      RrRun(arr, order, q, RrStep(arr, order, q, s))
    else
      s
  }

  /** The run ends with no work left, nothing queued, and the invariant intact. */
  lemma {:induction false} RrRunCompletes(arr: seq<int>, order: seq<nat>, q: int, s: RrState)
    requires Enumerates(order, |arr|) && RrInv(arr, order, s, -1) && q >= 1
    ensures var r := RrRun(arr, order, q, s);
      && RrInv(arr, order, r, -1)
      && (forall i :: 0 <= i < |arr| ==> r.rem[i] == 0)
      && r.queue() == []
    decreases Sum(s.rem), MaxOf(arr) - s.clock
  {
    if CountZeros(s.rem) < |arr| {
      SumNonNegative(s.rem);
      RrStepProgress(arr, order, q, s);
      RrRunCompletes(arr, order, q, RrStep(arr, order, q, s));
    } else {
      assert s.queue() != [] ==> s.inQueue()[s.queue()[0]];
      CountZerosFull(s.rem);
    }
  }

  /** A turn of the loop while work remains leaves the outcome of the run unchanged. */
  lemma RrRunStep(arr: seq<int>, order: seq<nat>, q: int, s: RrState)
    requires Enumerates(order, |arr|) && RrInv(arr, order, s, -1) && q >= 1
    requires CountZeros(s.rem) < |arr|
    ensures RrInv(arr, order, RrStep(arr, order, q, s), -1)
    ensures RrRun(arr, order, q, RrStep(arr, order, q, s)) == RrRun(arr, order, q, s)
  {
    RrStepProgress(arr, order, q, s);
  }

  /** A turn changes the zero count only through the job it ran: after an
      idle turn no work has moved, and after a working turn the job at the
      head of the queue has work left or has just reached zero. */
  lemma RrStepCount(arr: seq<int>, order: seq<nat>, q: int, s: RrState)
    requires Enumerates(order, |arr|) && RrInv(arr, order, s, -1) && q >= 1
    ensures var a := AdmitAll(arr, order, s);
      var s' := RrStep(arr, order, q, s);
      && (a.queue() == [] ==> s'.rem == s.rem)
      && (a.queue() != [] ==>
            && s'.rem[a.queue()[0]] >= 0
            && CountZeros(s'.rem) == CountZeros(s.rem) + (if s'.rem[a.queue()[0]] == 0 then 1 else 0))
  {
    var a := AdmitAll(arr, order, s);
    AdmitInv(arr, order, s, -1);
    RrStepSlice(arr, order, q, s);
    if a.queue() != [] {
      var idx := a.queue()[0];
      assert a.inQueue()[idx];
      CountZerosUpdate(s.rem, idx, s.rem[idx] - Min(q, s.rem[idx]));
    }
  }

  /** What the dispatch loop needs from one turn, where `finished` says
      whether the job that ran has just completed: the invariant holds again,
      the rest of the run is unchanged, the work left shrinks or else the
      clock moves towards the last arrival, and the zero count rises by one
      exactly when `finished`. */
  lemma RrTurnFacts(arr: seq<int>, order: seq<nat>, q: int, s: RrState, finished: bool)
    requires Enumerates(order, |arr|) && RrInv(arr, order, s, -1) && q >= 1 && CountZeros(s.rem) < |arr|
    requires var a := AdmitAll(arr, order, s);
      finished <==> a.queue() != [] && RrStep(arr, order, q, s).rem[a.queue()[0]] <= 0
    ensures var s' := RrStep(arr, order, q, s);
      && RrInv(arr, order, s', -1) && RrRun(arr, order, q, s') == RrRun(arr, order, q, s)
      && ((0 <= Sum(s'.rem) < Sum(s.rem)) || (s'.rem == s.rem && s'.clock == s.clock + 1 && s.clock < MaxOf(arr)))
      && CountZeros(s'.rem) == CountZeros(s.rem) + (if finished then 1 else 0)
  {
    RrRunStep(arr, order, q, s);
    RrStepProgress(arr, order, q, s);
    RrStepCount(arr, order, q, s);
    SumNonNegative(RrStep(arr, order, q, s).rem);
  }

  /** When the indices are in arrival order, admission stops only at a job
      that has not arrived: every job that has arrived by the clock has been
      reached. */
  lemma AdmitMissesNone(arr: seq<int>, order: seq<nat>, s: RrState)
    requires RrShaped(|arr|, s) && IsArrivalOrder(order, arr)
    ensures var s' := (ArrivalOrderEnumerates(order, arr); AdmitAll(arr, order, s));
      forall k :: s'.next() <= k < |arr| ==> s.clock < arr[order[k]]
  {
    ArrivalOrderEnumerates(order, arr);
  }

  /** The accounting that holds throughout a run, against the work `work` each
      job started with (as for SRTF). */
  ghost predicate RrTimed(arr: seq<int>, work: seq<int>, s: RrState)
    requires |work| == |arr| && RrShaped(|arr|, s)
  {
    forall i :: 0 <= i < |arr| ==>
      && s.rem[i] <= work[i]
      && (!s.started[i] ==> s.rem[i] == work[i])
      && (s.started[i] ==> arr[i] <= s.start[i] && s.clock - s.start[i] >= work[i] - s.rem[i])
      && (s.rem[i] == 0 ==> s.started[i] && s.finish[i] <= s.clock && s.finish[i] - s.start[i] >= work[i])
  }

  lemma RrStepTimed(arr: seq<int>, order: seq<nat>, q: int, work: seq<int>, s: RrState)
    requires Enumerates(order, |arr|) && RrInv(arr, order, s, -1) && q >= 1 && |work| == |arr|
    requires RrTimed(arr, work, s)
    ensures RrTimed(arr, work, RrStep(arr, order, q, s))
  {
    var a := AdmitAll(arr, order, s);
    AdmitInv(arr, order, s, -1);
    RrStepSlice(arr, order, q, s);
    if a.queue() != [] {
      var idx := a.queue()[0];
      assert a.inQueue()[idx];
    }
  }

  lemma {:induction false} RrRunTimed(arr: seq<int>, order: seq<nat>, q: int, work: seq<int>, s: RrState)
    requires Enumerates(order, |arr|) && RrInv(arr, order, s, -1) && q >= 1 && |work| == |arr|
    requires RrTimed(arr, work, s)
    ensures RrTimed(arr, work, RrRun(arr, order, q, s))
    decreases Sum(s.rem), MaxOf(arr) - s.clock
  {
    if CountZeros(s.rem) < |arr| {
      SumNonNegative(s.rem);
      RrStepProgress(arr, order, q, s);
      RrStepTimed(arr, order, q, work, s);
      RrRunTimed(arr, order, q, work, RrStep(arr, order, q, s));
    }
  }

  /** A turn lasts at least as long as the work it does: a slice of `e`
      units takes `e` time units, and an idle turn does no work. */
  lemma RrStepBusy(arr: seq<int>, order: seq<nat>, q: int, s: RrState)
    requires RrShaped(|arr|, s) && Enumerates(order, |arr|)
    ensures RrStep(arr, order, q, s).clock - s.clock >= Sum(s.rem) - Sum(RrStep(arr, order, q, s).rem)
  {
    RrStepSlice(arr, order, q, s);
    var a := AdmitAll(arr, order, s);
    if a.queue() != [] {
      var idx := a.queue()[0];
      SumUpdate(s.rem, idx, s.rem[idx] - Min(q, s.rem[idx]));
    }
  }

  /** The CPU does at most one unit of work per time unit: from any state,
      the rest of the run lasts at least as long as the work it does. */
  lemma {:induction false} RrRunBusy(arr: seq<int>, order: seq<nat>, q: int, s: RrState)
    requires Enumerates(order, |arr|) && RrInv(arr, order, s, -1) && q >= 1
    ensures RrRun(arr, order, q, s).clock - s.clock >= Sum(s.rem) - Sum(RrRun(arr, order, q, s).rem)
    decreases Sum(s.rem), MaxOf(arr) - s.clock
  {
    if CountZeros(s.rem) < |arr| {
      SumNonNegative(s.rem);
      RrStepProgress(arr, order, q, s);
      RrStepBusy(arr, order, q, s);
      RrRunBusy(arr, order, q, RrStep(arr, order, q, s));
    }
  }

  /** A complete Round Robin run from time 0 lasts at least the total work
      of all the jobs, since at most one of them runs at any time. */
  lemma RrLastsWork(arr: seq<int>, order: seq<nat>, q: int, work: seq<int>, start0: seq<int>, finish0: seq<int>)
    requires Enumerates(order, |arr|) && q >= 1
    requires |work| == |arr| && |start0| == |arr| && |finish0| == |arr|
    requires forall i :: 0 <= i < |work| ==> work[i] > 0
    ensures var s := RrInitial(work, Fill(|arr|, false), start0, finish0);
      RrInv(arr, order, s, -1) && RrRun(arr, order, q, s).clock >= Sum(work)
  {
    var s := RrInitial(work, Fill(|arr|, false), start0, finish0);
    RrInvInitial(arr, order, work, Fill(|arr|, false), start0, finish0);
    RrRunCompletes(arr, order, q, s);
    RrRunBusy(arr, order, q, s);
    SumZeros(RrRun(arr, order, q, s).rem);
  }

  /** What a complete Round Robin run guarantees for jobs that each start with
      some work and none started, whatever order `std::sort` leaves equal
      arrivals in: every job is finished, its first turn came no earlier than
      its arrival, and it completed no earlier than its start time plus its
      work (so its waiting time is never negative). */
  lemma RrSchedule(arr: seq<int>, order: seq<nat>, q: int, work: seq<int>, start0: seq<int>, finish0: seq<int>)
    requires IsArrivalOrder(order, arr) && q >= 1
    requires |work| == |arr| && |start0| == |arr| && |finish0| == |arr|
    requires forall i :: 0 <= i < |work| ==> work[i] > 0
    ensures Enumerates(order, |arr|)
    ensures var s := RrInitial(work, Fill(|arr|, false), start0, finish0);
      RrInv(arr, order, s, -1) &&
      var r := RrRun(arr, order, q, s);
      forall i :: 0 <= i < |arr| ==>
        && r.rem[i] == 0 && r.started[i]
        && arr[i] <= r.start[i]
        && r.finish[i] - r.start[i] >= work[i]
        && r.finish[i] <= r.clock
  {
    ArrivalOrderEnumerates(order, arr);
    var s := RrInitial(work, Fill(|arr|, false), start0, finish0);
    RrInvInitial(arr, order, work, Fill(|arr|, false), start0, finish0);
    RrRunCompletes(arr, order, q, s);
    RrRunTimed(arr, order, q, work, s);
  }
}
