/** The non-preemptive selection schedulers of scheduler.cpp: SJF (both the
    `SJFScheduler` and `TaskScheduler::scheduleSJF`, keyed by burst time) and
    Priority (`TaskScheduler::schedulePriority`, keyed by priority value).
    Each turn of the loop either dispatches the first arrived, uncompleted job
    with the smallest key and runs it to completion, or, when none qualifies,
    advances the clock by one. */
module NonPreemptivePolicy {
  import opened Jobs
  import opened SeqMath
  import opened Selection

  /** The loop state: the `completed` flags, the clock, and the start and
      completion time recorded for each job. */
  datatype NpState = NpState(done: seq<bool>, clock: int, start: seq<int>, finish: seq<int>)

  predicate NpShaped(n: nat, s: NpState) {
    |s.done| == n && |s.start| == n && |s.finish| == n
  }

  /** The jobs: arrival times, burst times and the selection key of each. */
  predicate Instance(arr: seq<int>, burst: seq<int>, key: seq<int>) {
    |burst| == |arr| && |key| == |arr|
  }

  /** Every key is below the scan's INT_MAX sentinel, so every job can be picked. */
  predicate Selectable(key: seq<int>) {
    forall i :: 0 <= i < |key| ==> key[i] < IntMax
  }

  /** The state when the loop is entered: nothing completed, clock 0, and the
      start and completion fields as the records hold them. */
  function NpInitial(start0: seq<int>, finish0: seq<int>): (s: NpState)
    requires |start0| == |finish0|
    ensures NpShaped(|start0|, s) && s.clock == 0 && s.start == start0 && s.finish == finish0
    ensures forall i :: 0 <= i < |s.done| ==> !s.done[i]
  {
    NpState(Fill(|start0|, false), 0, start0, finish0)
  }

  /** A turn in which no job qualifies: only the clock moves, by one. */
  predicate NpIdle(arr: seq<int>, burst: seq<int>, key: seq<int>, s: NpState, s': NpState)
    requires Instance(arr, burst, key) && NpShaped(|arr|, s)
  {
    PicksFirstMin(key, ArrivedWaiting(arr, s.done, s.clock), -1) && s' == s.(clock := s.clock + 1)
  }

  /** A turn that dispatches job `j`, the first arrived uncompleted job with
      the smallest key: it starts now, runs its whole burst, and is marked completed. */
  predicate NpDispatch(arr: seq<int>, burst: seq<int>, key: seq<int>, s: NpState, s': NpState, j: int)
    requires Instance(arr, burst, key) && NpShaped(|arr|, s)
  {
    && 0 <= j < |arr|
    && PicksFirstMin(key, ArrivedWaiting(arr, s.done, s.clock), j)
    && RunsWhole(burst, s, j, s')
  }

  /** Job `j` starts at the current time, runs its whole burst, and is marked completed. */
  predicate RunsWhole(burst: seq<int>, s: NpState, j: nat, s': NpState)
    requires j < |burst| && NpShaped(|burst|, s)
  {
    && s'.done == s.done[j := true]
    && s'.clock == s.clock + burst[j]
    && s'.start == s.start[j := s.clock]
    && s'.finish == s.finish[j := s.clock + burst[j]]
  }

  /** One turn of the dispatch loop. */
  function NpStep(arr: seq<int>, burst: seq<int>, key: seq<int>, s: NpState): (s': NpState)
    requires Instance(arr, burst, key) && NpShaped(|arr|, s)
    ensures NpShaped(|arr|, s')
  {
    var idx := FirstMin(key, ArrivedWaiting(arr, s.done, s.clock));
    if idx == -1 then
      s.(clock := s.clock + 1)
    else
      NpState(s.done[idx := true], s.clock + burst[idx], s.start[idx := s.clock], s.finish[idx := s.clock + burst[idx]])
  }

  /** A turn either idles or dispatches a job by the selection rule. */
  lemma NpStepCases(arr: seq<int>, burst: seq<int>, key: seq<int>, s: NpState)
    requires Instance(arr, burst, key) && NpShaped(|arr|, s)
    ensures var s' := NpStep(arr, burst, key, s);
      NpIdle(arr, burst, key, s, s') || exists j :: NpDispatch(arr, burst, key, s, s', j)
  {
    var idx := FirstMin(key, ArrivedWaiting(arr, s.done, s.clock));
    FirstMinPicks(key, ArrivedWaiting(arr, s.done, s.clock));
    if idx != -1 {
      assert NpDispatch(arr, burst, key, s, NpStep(arr, burst, key, s), idx);
    }
  }

  /** The scan's answer decides the turn: an index satisfying the selection
      rule is the one dispatched. */
  lemma NpStepBy(arr: seq<int>, burst: seq<int>, key: seq<int>, s: NpState, idx: int)
    requires Instance(arr, burst, key) && NpShaped(|arr|, s)
    requires PicksFirstMin(key, ArrivedWaiting(arr, s.done, s.clock), idx)
    ensures NpStep(arr, burst, key, s) ==
      if idx == -1 then s.(clock := s.clock + 1)
      else NpState(s.done[idx := true], s.clock + burst[idx], s.start[idx := s.clock], s.finish[idx := s.clock + burst[idx]])
  {
    FirstMinPicks(key, ArrivedWaiting(arr, s.done, s.clock));
    FirstMinUnique(key, ArrivedWaiting(arr, s.done, s.clock), idx, FirstMin(key, ArrivedWaiting(arr, s.done, s.clock)));
  }

  /** Each turn either completes one more job, or moves the clock towards the
      last arrival while some job has still to arrive: the loop's variant. */
  lemma NpStepProgress(arr: seq<int>, burst: seq<int>, key: seq<int>, s: NpState)
    requires Instance(arr, burst, key) && Selectable(key) && NpShaped(|arr|, s)
    requires CountTrue(s.done) < |arr|
    ensures var s' := NpStep(arr, burst, key, s);
      || CountTrue(s'.done) == CountTrue(s.done) + 1
      || (CountTrue(s'.done) == CountTrue(s.done) && s'.clock == s.clock + 1 && s.clock < MaxOf(arr))
  {
    var s' := NpStep(arr, burst, key, s);
    NpStepCases(arr, burst, key, s);
    if NpIdle(arr, burst, key, s, s') {
      CountTrueFull(s.done);
      var i :| 0 <= i < |arr| && !s.done[i];
      assert !ArrivedWaiting(arr, s.done, s.clock)[i];
    } else {
      var j :| NpDispatch(arr, burst, key, s, s', j);
      CountTrueSet(s.done, j);
    }
  }

  /** The whole loop, `while (completed_count < n)`: it ends, with every job
      completed, and a job completed on entry keeps its recorded times. */
  function NpRun(arr: seq<int>, burst: seq<int>, key: seq<int>, s: NpState): (r: NpState)
    requires Instance(arr, burst, key) && Selectable(key) && NpShaped(|arr|, s)
    ensures NpShaped(|arr|, r)
    decreases |arr| - CountTrue(s.done), MaxOf(arr) - s.clock
  {
    if CountTrue(s.done) < |arr| then
      NpStepProgress(arr, burst, key, s);
      NpRun(arr, burst, key, NpStep(arr, burst, key, s))
    else
      s
  }

  /** A turn never undoes a completion nor rewrites the times of a completed job. */
  lemma NpStepKeeps(arr: seq<int>, burst: seq<int>, key: seq<int>, s: NpState)
    requires Instance(arr, burst, key) && NpShaped(|arr|, s)
    ensures var s' := NpStep(arr, burst, key, s);
      forall i :: 0 <= i < |arr| && s.done[i] ==> s'.done[i] && s'.start[i] == s.start[i] && s'.finish[i] == s.finish[i]
  {
    NpStepCases(arr, burst, key, s);
    var s' := NpStep(arr, burst, key, s);
    if !NpIdle(arr, burst, key, s, s') {
      var j :| NpDispatch(arr, burst, key, s, s', j);
      assert ArrivedWaiting(arr, s.done, s.clock)[j];
    }
  }

  /** The run ends with every job completed, and a job completed on entry
      keeps its recorded times. */
  lemma {:induction false} NpRunCompletes(arr: seq<int>, burst: seq<int>, key: seq<int>, s: NpState)
    requires Instance(arr, burst, key) && Selectable(key) && NpShaped(|arr|, s)
    ensures var r := NpRun(arr, burst, key, s);
      && (forall i :: 0 <= i < |arr| ==> r.done[i])
      && (forall i :: 0 <= i < |arr| && s.done[i] ==> r.start[i] == s.start[i] && r.finish[i] == s.finish[i])
    decreases |arr| - CountTrue(s.done), MaxOf(arr) - s.clock
  {
    if CountTrue(s.done) < |arr| {
      NpStepProgress(arr, burst, key, s);
      NpStepKeeps(arr, burst, key, s);
      NpRunCompletes(arr, burst, key, NpStep(arr, burst, key, s));
    } else {
      CountTrueFull(s.done);
    }
  }

  /** A turn of the loop while jobs remain leaves the outcome of the run unchanged. */
  lemma NpRunStep(arr: seq<int>, burst: seq<int>, key: seq<int>, s: NpState)
    requires Instance(arr, burst, key) && Selectable(key) && NpShaped(|arr|, s)
    requires CountTrue(s.done) < |arr|
    ensures NpRun(arr, burst, key, NpStep(arr, burst, key, s)) == NpRun(arr, burst, key, s)
  {
  }

  /** What the scan's answer `idx` means for the turn it opens: an idle
      unit before the last arrival, or the dispatch of `idx`; either way the
      rest of the run is unchanged. */
  lemma NpTurn(arr: seq<int>, burst: seq<int>, key: seq<int>, s: NpState, idx: int)
    requires Instance(arr, burst, key) && Selectable(key) && NpShaped(|arr|, s)
    requires CountTrue(s.done) < |arr|
    requires PicksFirstMin(key, ArrivedWaiting(arr, s.done, s.clock), idx)
    ensures NpRun(arr, burst, key, NpStep(arr, burst, key, s)) == NpRun(arr, burst, key, s)
    ensures idx == -1 ==> NpStep(arr, burst, key, s) == s.(clock := s.clock + 1) && s.clock < MaxOf(arr)
    ensures idx != -1 ==> (&& 0 <= idx < |arr| && !s.done[idx]
      && CountTrue(NpStep(arr, burst, key, s).done) == CountTrue(s.done) + 1
      && RunsWhole(burst, s, idx, NpStep(arr, burst, key, s)))
  {
    NpStepBy(arr, burst, key, s, idx);
    NpRunStep(arr, burst, key, s);
    if idx == -1 {
      NpStepProgress(arr, burst, key, s);
    } else {
      assert ArrivedWaiting(arr, s.done, s.clock)[idx];
      CountTrueSet(s.done, idx);
    }
  }

  /** Every completed job started no earlier than its arrival and ran its
      whole burst in one piece. */
  ghost predicate NpTimed(arr: seq<int>, burst: seq<int>, s: NpState)
    requires |burst| == |arr| && NpShaped(|arr|, s)
  {
    forall i :: 0 <= i < |arr| && s.done[i] ==> arr[i] <= s.start[i] && s.finish[i] == s.start[i] + burst[i]
  }

  lemma NpStepTimed(arr: seq<int>, burst: seq<int>, key: seq<int>, s: NpState)
    requires Instance(arr, burst, key) && NpShaped(|arr|, s)
    requires NpTimed(arr, burst, s)
    ensures NpTimed(arr, burst, NpStep(arr, burst, key, s))
  {
    NpStepCases(arr, burst, key, s);
    var s' := NpStep(arr, burst, key, s);
    if !NpIdle(arr, burst, key, s, s') {
      var j :| NpDispatch(arr, burst, key, s, s', j);
      assert ArrivedWaiting(arr, s.done, s.clock)[j];
    }
  }

  lemma {:induction false} NpRunTimed(arr: seq<int>, burst: seq<int>, key: seq<int>, s: NpState)
    requires Instance(arr, burst, key) && Selectable(key) && NpShaped(|arr|, s)
    requires NpTimed(arr, burst, s)
    ensures NpTimed(arr, burst, NpRun(arr, burst, key, s))
    decreases |arr| - CountTrue(s.done), MaxOf(arr) - s.clock
  {
    if CountTrue(s.done) < |arr| {
      NpStepProgress(arr, burst, key, s);
      NpStepTimed(arr, burst, key, s);
      NpRunTimed(arr, burst, key, NpStep(arr, burst, key, s));
    }
  }

  /** The invariant behind the selection rule, for non-negative bursts: the
      completed jobs lie before the clock without overlapping, and a job that
      had arrived when another was dispatched, but started later (or not yet),
      has a key no smaller, and a higher index when the keys tie. */
  ghost predicate NpOrdered(arr: seq<int>, burst: seq<int>, key: seq<int>, s: NpState)
    requires Instance(arr, burst, key) && NpShaped(|arr|, s)
  {
    NpSpaced(arr, burst, s) && NpKeyed(arr, key, s)
  }

  /** The completed jobs lie before the clock and do not overlap. */
  ghost predicate NpSpaced(arr: seq<int>, burst: seq<int>, s: NpState)
    requires |burst| == |arr| && NpShaped(|arr|, s)
  {
    && NpTimed(arr, burst, s)
    && (forall i :: 0 <= i < |arr| && s.done[i] ==> s.finish[i] <= s.clock)
    && (forall i, j :: 0 <= i < |arr| && 0 <= j < |arr| && i != j && s.done[i] && s.done[j] ==>
          s.finish[i] <= s.start[j] || s.finish[j] <= s.start[i])
  }

  /** A job that had arrived when another was dispatched, but started later
      (or not yet), has a key no smaller, and a higher index when the keys tie. */
  ghost predicate NpKeyed(arr: seq<int>, key: seq<int>, s: NpState)
    requires |key| == |arr| && NpShaped(|arr|, s)
  {
    forall i, j ::
      (0 <= i < |arr| && 0 <= j < |arr| && i != j && s.done[i]
       && arr[j] <= s.start[i] && (!s.done[j] || s.start[i] < s.start[j])) ==>
      key[i] <= key[j] && (key[i] == key[j] ==> i < j)
  }

  lemma NpStepOrdered(arr: seq<int>, burst: seq<int>, key: seq<int>, s: NpState)
    requires Instance(arr, burst, key) && NpShaped(|arr|, s)
    requires forall i :: 0 <= i < |burst| ==> burst[i] >= 0
    requires NpOrdered(arr, burst, key, s)
    ensures NpOrdered(arr, burst, key, NpStep(arr, burst, key, s))
  {
    NpStepCases(arr, burst, key, s);
    NpStepSpaced(arr, burst, key, s);
    NpStepKeyed(arr, burst, key, s);
  }

  lemma NpStepSpaced(arr: seq<int>, burst: seq<int>, key: seq<int>, s: NpState)
    requires Instance(arr, burst, key) && NpShaped(|arr|, s)
    requires forall i :: 0 <= i < |burst| ==> burst[i] >= 0
    requires NpSpaced(arr, burst, s)
    ensures NpSpaced(arr, burst, NpStep(arr, burst, key, s))
  {
    NpStepCases(arr, burst, key, s);
  }

  lemma NpStepKeyed(arr: seq<int>, burst: seq<int>, key: seq<int>, s: NpState)
    requires Instance(arr, burst, key) && NpShaped(|arr|, s)
    requires forall i :: 0 <= i < |burst| ==> burst[i] >= 0
    requires NpSpaced(arr, burst, s) && NpKeyed(arr, key, s)
    ensures NpKeyed(arr, key, NpStep(arr, burst, key, s))
  {
    var s' := NpStep(arr, burst, key, s);
    NpStepCases(arr, burst, key, s);
    if !NpIdle(arr, burst, key, s, s') {
      var d :| NpDispatch(arr, burst, key, s, s', d);
      var waiting := ArrivedWaiting(arr, s.done, s.clock);
      assert forall k :: 0 <= k < |arr| && s.done[k] ==> s.start[k] <= s.clock;
      forall i, j | 0 <= i < |arr| && 0 <= j < |arr| && i != j && s'.done[i]
          && arr[j] <= s'.start[i] && (!s'.done[j] || s'.start[i] < s'.start[j])
        ensures key[i] <= key[j] && (key[i] == key[j] ==> i < j)
      {
        if i == d {
          assert waiting[j];
        }
      }
    }
  }

  lemma {:induction false} NpRunOrdered(arr: seq<int>, burst: seq<int>, key: seq<int>, s: NpState)
    requires Instance(arr, burst, key) && Selectable(key) && NpShaped(|arr|, s)
    requires forall i :: 0 <= i < |burst| ==> burst[i] >= 0
    requires NpOrdered(arr, burst, key, s)
    ensures NpOrdered(arr, burst, key, NpRun(arr, burst, key, s))
    decreases |arr| - CountTrue(s.done), MaxOf(arr) - s.clock
  {
    if CountTrue(s.done) < |arr| {
      NpStepProgress(arr, burst, key, s);
      NpStepOrdered(arr, burst, key, s);
      NpRunOrdered(arr, burst, key, NpStep(arr, burst, key, s));
    }
  }

  /** What a complete SJF or Priority run guarantees, from the initial state:
      each job waits only after its arrival and then runs its whole burst
      without interruption; and, for non-negative bursts, no two jobs overlap,
      and whenever a job is dispatched, every job that had arrived and starts
      later has a key no smaller, with ties going to the lower index. */
  lemma NpSchedule(arr: seq<int>, burst: seq<int>, key: seq<int>, start0: seq<int>, finish0: seq<int>)
    requires Instance(arr, burst, key) && Selectable(key)
    requires |start0| == |arr| && |finish0| == |arr|
    ensures var r := NpRun(arr, burst, key, NpInitial(start0, finish0));
      forall i :: 0 <= i < |arr| ==> arr[i] <= r.start[i] && r.finish[i] == r.start[i] + burst[i]
    ensures (forall i :: 0 <= i < |burst| ==> burst[i] >= 0) ==>
      var r := NpRun(arr, burst, key, NpInitial(start0, finish0));
      && (forall i, j :: 0 <= i < |arr| && 0 <= j < |arr| && i != j ==>
            r.finish[i] <= r.start[j] || r.finish[j] <= r.start[i])
      && (forall i, j ::
            (0 <= i < |arr| && 0 <= j < |arr| && i != j && arr[j] <= r.start[i] && r.start[i] < r.start[j]) ==>
            key[i] <= key[j] && (key[i] == key[j] ==> i < j))
  {
    var s := NpInitial(start0, finish0);
    NpRunCompletes(arr, burst, key, s);
    NpRunTimed(arr, burst, key, s);
    if forall i :: 0 <= i < |burst| ==> burst[i] >= 0 {
      NpRunOrdered(arr, burst, key, s);
    }
  }

  /** The scan that opens each turn of the loop: it picks by the selection
      rule, the turn it opens is one step of the specification, and the
      answer says what that step does. */
  method SelectNext(arr: seq<int>, burst: seq<int>, key: seq<int>, done: seq<bool>, clock: int, ghost s: NpState)
    returns (idx: int, ghost s': NpState)
    requires Instance(arr, burst, key) && Selectable(key) && NpShaped(|arr|, s)
    requires done == s.done && clock == s.clock && CountTrue(done) < |arr|
    ensures PicksFirstMin(key, ArrivedWaiting(arr, done, clock), idx)
    ensures s' == NpStep(arr, burst, key, s)
    ensures NpShaped(|arr|, s')
    ensures idx == -1 ==> s' == s.(clock := clock + 1) && clock < MaxOf(arr)
    ensures idx != -1 ==> (&& 0 <= idx < |arr| && !done[idx] && CountTrue(s'.done) == CountTrue(done) + 1
      && RunsWhole(burst, s, idx, s'))
    ensures NpRun(arr, burst, key, s') == NpRun(arr, burst, key, s)
  {
    idx := ScanArrivedWaiting(arr, key, done, clock);
    NpTurn(arr, burst, key, s, idx);
    s' := NpStep(arr, burst, key, s);
  }
}
