/** Shortest remaining time first (scheduler.cpp, `SRTFScheduler::schedule`
    and `TaskScheduler::scheduleSRTF`). Every turn of the loop is one time
    unit: the first arrived job with the least work left runs for that unit,
    or the CPU idles; a job completes at the end of the unit in which its
    remaining time reaches 0. */
module SrtfPolicy {
  import opened Jobs
  import opened SeqMath
  import opened Selection

  /** The loop state: work left per job, the clock, and the start bookkeeping
      and completion time of each job. */
  datatype SrtfState = SrtfState(rem: seq<int>, clock: int, started: seq<bool>, start: seq<int>, finish: seq<int>)

  predicate SrtfShaped(n: nat, s: SrtfState) {
    |s.rem| == n && |s.started| == n && |s.start| == n && |s.finish| == n
  }

  /** Work left is never negative and stays below the scan's INT_MAX sentinel. */
  predicate Workable(rem: seq<int>) {
    forall i :: 0 <= i < |rem| ==> 0 <= rem[i] < IntMax
  }

  /** The state when the loop is entered: the clock at 0, the work left as given. */
  function SrtfInitial(work: seq<int>, started0: seq<bool>, start0: seq<int>, finish0: seq<int>): (s: SrtfState)
    requires |started0| == |work| && |start0| == |work| && |finish0| == |work|
    ensures SrtfShaped(|work|, s) && s.clock == 0 && s.rem == work
    ensures s.started == started0 && s.start == start0 && s.finish == finish0
  {
    SrtfState(work, 0, started0, start0, finish0)
  }

  /** A time unit in which no arrived job has work left: the CPU idles. */
  predicate SrtfIdle(arr: seq<int>, s: SrtfState, s': SrtfState)
    requires SrtfShaped(|arr|, s)
  {
    PicksFirstMin(s.rem, ArrivedWithWork(arr, s.rem, s.clock), -1) && s' == s.(clock := s.clock + 1)
  }

  /** A time unit given to job `j`, the first arrived job with the least work
      left: its work drops by exactly one, it is marked started (recording the
      start time on its first unit), and if that was its last unit it is
      completed at the end of the unit. Nothing else changes. */
  predicate SrtfTick(arr: seq<int>, s: SrtfState, s': SrtfState, j: int): (b: bool)
    requires SrtfShaped(|arr|, s)
    ensures b ==> 0 <= j < |arr| && arr[j] <= s.clock && s.rem[j] > 0
  {
    && 0 <= j < |arr|
    && PicksFirstMin(s.rem, ArrivedWithWork(arr, s.rem, s.clock), j)
    && WorkUnit(s, j, s')
  }

  /** One unit of work for job `j`, case by case. */
  predicate WorkUnit(s: SrtfState, j: nat, s': SrtfState): (b: bool)
    requires j < |s.rem| && |s.started| == |s.rem| && |s.start| == |s.rem| && |s.finish| == |s.rem|
    ensures b ==> SrtfShaped(|s.rem|, s') && s'.started[j] && (s'.rem[j] == 0 <==> s.rem[j] == 1)
  {
    && s'.clock == s.clock + 1
    && s'.rem == s.rem[j := s.rem[j] - 1]
    && s'.started == s.started[j := true]
    && (s.started[j] ==> s'.start == s.start)
    && (!s.started[j] ==> s'.start == s.start[j := s.clock])
    && (s.rem[j] == 1 ==> s'.finish == s.finish[j := s.clock + 1])
    && (s.rem[j] != 1 ==> s'.finish == s.finish)
  }

  /** One turn of the loop: always exactly one time unit. */
  function SrtfStep(arr: seq<int>, s: SrtfState): (s': SrtfState)
    requires SrtfShaped(|arr|, s)
    ensures SrtfShaped(|arr|, s')
    ensures s'.clock == s.clock + 1
  {
    var idx := FirstMin(s.rem, ArrivedWithWork(arr, s.rem, s.clock));
    if idx == -1 then
      s.(clock := s.clock + 1)
    else
      var s1 := if !s.started[idx] then s.(started := s.started[idx := true], start := s.start[idx := s.clock]) else s;
      var left := s1.rem[idx] - 1;
      s1.(rem := s1.rem[idx := left], clock := s.clock + 1,
          finish := if left == 0 then s1.finish[idx := s.clock + 1] else s1.finish)
  }

  /** A time unit either idles or goes to the job the selection rule picks. */
  lemma SrtfStepCases(arr: seq<int>, s: SrtfState)
    requires SrtfShaped(|arr|, s)
    ensures var s' := SrtfStep(arr, s);
      SrtfIdle(arr, s, s') || exists j :: SrtfTick(arr, s, s', j)
  {
    var idx := FirstMin(s.rem, ArrivedWithWork(arr, s.rem, s.clock));
    FirstMinPicks(s.rem, ArrivedWithWork(arr, s.rem, s.clock));
    if idx != -1 {
      assert SrtfTick(arr, s, SrtfStep(arr, s), idx);
    }
  }

  /** Any index that satisfies the selection rule determines the unit. */
  lemma SrtfStepBy(arr: seq<int>, s: SrtfState, idx: int)
    requires SrtfShaped(|arr|, s)
    requires PicksFirstMin(s.rem, ArrivedWithWork(arr, s.rem, s.clock), idx)
    ensures SrtfStep(arr, s) ==
      if idx == -1 then s.(clock := s.clock + 1)
      else SrtfState(s.rem[idx := s.rem[idx] - 1], s.clock + 1, s.started[idx := true],
                     if s.started[idx] then s.start else s.start[idx := s.clock],
                     if s.rem[idx] == 1 then s.finish[idx := s.clock + 1] else s.finish)
  {
    FirstMinPicks(s.rem, ArrivedWithWork(arr, s.rem, s.clock));
    FirstMinUnique(s.rem, ArrivedWithWork(arr, s.rem, s.clock), idx, FirstMin(s.rem, ArrivedWithWork(arr, s.rem, s.clock)));
  }

  /** Each turn either removes one unit of outstanding work, or idles while
      some job has still to arrive: the loop's variant. */
  lemma SrtfStepProgress(arr: seq<int>, s: SrtfState)
    requires SrtfShaped(|arr|, s) && Workable(s.rem)
    requires CountZeros(s.rem) < |arr|
    ensures var s' := SrtfStep(arr, s);
      && Workable(s'.rem)
      && (Sum(s'.rem) == Sum(s.rem) - 1 || (s'.rem == s.rem && s.clock < MaxOf(arr)))
  {
    var s' := SrtfStep(arr, s);
    SrtfStepCases(arr, s);
    if SrtfIdle(arr, s, s') {
      IdleProgress(arr, s, s');
    } else {
      var j :| SrtfTick(arr, s, s', j);
      TickProgress(arr, s, s', j);
    }
  }

  lemma IdleProgress(arr: seq<int>, s: SrtfState, s': SrtfState)
    requires SrtfShaped(|arr|, s) && Workable(s.rem) && CountZeros(s.rem) < |arr|
    requires SrtfIdle(arr, s, s')
    ensures s.clock < MaxOf(arr)
  {
    CountZerosFull(s.rem);
    var i :| 0 <= i < |arr| && s.rem[i] != 0;
    var eligible := ArrivedWithWork(arr, s.rem, s.clock);
    assert !eligible[i];
    assert s.clock < arr[i] <= MaxOf(arr);
  }

  lemma TickProgress(arr: seq<int>, s: SrtfState, s': SrtfState, j: int)
    requires SrtfShaped(|arr|, s) && Workable(s.rem)
    requires SrtfTick(arr, s, s', j)
    ensures Workable(s'.rem) && Sum(s'.rem) == Sum(s.rem) - 1
  {
    assert ArrivedWithWork(arr, s.rem, s.clock)[j];
    SumUpdate(s.rem, j, s.rem[j] - 1);
  }

  /** The whole loop, `while (completed < n)`: it ends with no work left,
      and a job finished on entry keeps its completion time. */
  function SrtfRun(arr: seq<int>, s: SrtfState): (r: SrtfState)
    requires SrtfShaped(|arr|, s) && Workable(s.rem)
    ensures SrtfShaped(|arr|, r)
    decreases Sum(s.rem), MaxOf(arr) - s.clock
  {
    if CountZeros(s.rem) < |arr| then
      SumNonNegative(s.rem);
      SrtfStepProgress(arr, s);
      SrtfRun(arr, SrtfStep(arr, s))
    else
      s
  }

  /** The CPU does at most one unit of work per time unit: from any state,
      the rest of the run lasts at least as long as the work it does. */
  lemma {:induction false} SrtfRunBusy(arr: seq<int>, s: SrtfState)
    requires SrtfShaped(|arr|, s) && Workable(s.rem)
    ensures SrtfRun(arr, s).clock - s.clock >= Sum(s.rem) - Sum(SrtfRun(arr, s).rem)
    decreases Sum(s.rem), MaxOf(arr) - s.clock
  {
    if CountZeros(s.rem) < |arr| {
      SumNonNegative(s.rem);
      SrtfStepProgress(arr, s);
      SrtfRunBusy(arr, SrtfStep(arr, s));
    }
  }

  /** A time unit never touches the completion time of a job with no work left. */
  lemma SrtfStepKeeps(arr: seq<int>, s: SrtfState)
    requires SrtfShaped(|arr|, s)
    ensures var s' := SrtfStep(arr, s);
      forall i :: 0 <= i < |arr| && s.rem[i] == 0 ==> s'.rem[i] == 0 && s'.finish[i] == s.finish[i]
  {
    SrtfStepCases(arr, s);
    var s' := SrtfStep(arr, s);
    if !SrtfIdle(arr, s, s') {
      var j :| SrtfTick(arr, s, s', j);
      assert ArrivedWithWork(arr, s.rem, s.clock)[j];
    }
  }

  /** The run ends with no work left anywhere, and a job with no work left on
      entry keeps its completion time. */
  lemma {:induction false} SrtfRunCompletes(arr: seq<int>, s: SrtfState)
    requires SrtfShaped(|arr|, s) && Workable(s.rem)
    ensures var r := SrtfRun(arr, s);
      && (forall i :: 0 <= i < |arr| ==> r.rem[i] == 0)
      && (forall i :: 0 <= i < |arr| && s.rem[i] == 0 ==> r.finish[i] == s.finish[i])
    decreases Sum(s.rem), MaxOf(arr) - s.clock
  {
    if CountZeros(s.rem) < |arr| {
      SumNonNegative(s.rem);
      SrtfStepProgress(arr, s);
      SrtfStepKeeps(arr, s);
      SrtfRunCompletes(arr, SrtfStep(arr, s));
    } else {
      CountZerosFull(s.rem);
    }
  }

  /** One time unit as the loops take it, from the scan's answer `idx`: the
      run from the state it leads to ends where the run from the current
      state does, and the loop's variant goes down. */
  lemma SrtfTurn(arr: seq<int>, rem: seq<int>, clock: int, started: seq<bool>, start: seq<int>, finish: seq<int>, idx: int)
    requires SrtfShaped(|arr|, SrtfState(rem, clock, started, start, finish)) && Workable(rem)
    requires CountZeros(rem) < |arr|
    requires PicksFirstMin(rem, ArrivedWithWork(arr, rem, clock), idx)
    ensures idx == -1 ==> (clock < MaxOf(arr)
      && SrtfRun(arr, SrtfState(rem, clock + 1, started, start, finish)) == SrtfRun(arr, SrtfState(rem, clock, started, start, finish)))
    ensures idx != -1 ==> (&& 0 <= idx < |arr| && rem[idx] > 0
      && Workable(rem[idx := rem[idx] - 1]) && Sum(rem[idx := rem[idx] - 1]) == Sum(rem) - 1
      && CountZeros(rem[idx := rem[idx] - 1]) == CountZeros(rem) + (if rem[idx] == 1 then 1 else 0)
      && SrtfRun(arr, SrtfState(rem[idx := rem[idx] - 1], clock + 1, started[idx := true],
                                if started[idx] then start else start[idx := clock],
                                if rem[idx] == 1 then finish[idx := clock + 1] else finish))
         == SrtfRun(arr, SrtfState(rem, clock, started, start, finish)))
  {
    var s := SrtfState(rem, clock, started, start, finish);
    var eligible := ArrivedWithWork(arr, rem, clock);
    FirstMinPicks(rem, eligible);
    FirstMinUnique(rem, eligible, idx, FirstMin(rem, eligible));
    SumNonNegative(rem);
    SrtfStepProgress(arr, s);
    if idx == -1 {
      assert SrtfStep(arr, s) == SrtfState(rem, clock + 1, started, start, finish);
    } else {
      assert eligible[idx];
      CountZerosUpdate(rem, idx, rem[idx] - 1);
      SumUpdate(rem, idx, rem[idx] - 1);
      assert SrtfStep(arr, s) == SrtfState(rem[idx := rem[idx] - 1], clock + 1, started[idx := true],
                                           if started[idx] then start else start[idx := clock],
                                           if rem[idx] == 1 then finish[idx := clock + 1] else finish);
    }
  }

  /** The accounting that holds throughout a run, measured against the work
      `work` each job started with: a job untouched so far still has all of it;
      a started job started after it arrived and has had at most one unit per
      time unit since; a finished job completed before the clock and no earlier
      than its start time plus its work. */
  ghost predicate SrtfTimed(arr: seq<int>, work: seq<int>, s: SrtfState)
    requires |work| == |arr| && SrtfShaped(|arr|, s)
  {
    forall i :: 0 <= i < |arr| ==>
      && s.rem[i] <= work[i]
      && (!s.started[i] ==> s.rem[i] == work[i])
      && (s.started[i] ==> arr[i] <= s.start[i] && s.clock - s.start[i] >= work[i] - s.rem[i])
      && (s.rem[i] == 0 ==> s.started[i] && s.finish[i] <= s.clock && s.finish[i] - s.start[i] >= work[i])
  }

  lemma SrtfStepTimed(arr: seq<int>, work: seq<int>, s: SrtfState)
    requires |work| == |arr| && SrtfShaped(|arr|, s)
    requires SrtfTimed(arr, work, s)
    ensures SrtfTimed(arr, work, SrtfStep(arr, s))
  {
    var s' := SrtfStep(arr, s);
    SrtfStepCases(arr, s);
    if !SrtfIdle(arr, s, s') {
      var j :| SrtfTick(arr, s, s', j);
      assert ArrivedWithWork(arr, s.rem, s.clock)[j];
    }
  }

  lemma {:induction false} SrtfRunTimed(arr: seq<int>, work: seq<int>, s: SrtfState)
    requires |work| == |arr| && SrtfShaped(|arr|, s) && Workable(s.rem)
    requires SrtfTimed(arr, work, s)
    ensures SrtfTimed(arr, work, SrtfRun(arr, s))
    decreases Sum(s.rem), MaxOf(arr) - s.clock
  {
    if CountZeros(s.rem) < |arr| {
      SumNonNegative(s.rem);
      SrtfStepProgress(arr, s);
      SrtfStepTimed(arr, work, s);
      SrtfRunTimed(arr, work, SrtfStep(arr, s));
    }
  }

  /** What a complete SRTF run guarantees for jobs that each start with some
      work and none started: every job is finished, its first unit ran no
      earlier than its arrival, and it completed no earlier than its start time
      plus its work (so its waiting time is never negative). */
  lemma SrtfSchedule(arr: seq<int>, work: seq<int>, start0: seq<int>, finish0: seq<int>)
    requires |work| == |arr| && |start0| == |arr| && |finish0| == |arr|
    requires forall i :: 0 <= i < |work| ==> 0 < work[i] < IntMax
    ensures var r := SrtfRun(arr, SrtfInitial(work, Fill(|arr|, false), start0, finish0));
      forall i :: 0 <= i < |arr| ==>
        && r.rem[i] == 0 && r.started[i]
        && arr[i] <= r.start[i]
        && r.finish[i] - r.start[i] >= work[i]
        && r.finish[i] <= r.clock
  {
    var s := SrtfInitial(work, Fill(|arr|, false), start0, finish0);
    SrtfRunCompletes(arr, s);
    SrtfRunTimed(arr, work, s);
  }

  /** A complete SRTF run from time 0 lasts at least the total work of all
      the jobs, since at most one of them runs in any time unit. */
  lemma SrtfLastsWork(arr: seq<int>, work: seq<int>, start0: seq<int>, finish0: seq<int>)
    requires |work| == |arr| && |start0| == |arr| && |finish0| == |arr|
    requires forall i :: 0 <= i < |work| ==> 0 < work[i] < IntMax
    ensures SrtfRun(arr, SrtfInitial(work, Fill(|arr|, false), start0, finish0)).clock >= Sum(work)
  {
    var s := SrtfInitial(work, Fill(|arr|, false), start0, finish0);
    SrtfRunCompletes(arr, s);
    SrtfRunBusy(arr, s);
    SumZeros(SrtfRun(arr, s).rem);
  }

  /** One time unit on the loop's own variables: the scan over the work
      left `rem` at the time `clock`, then one unit of work off the job it found (marking it
      started, and completed if that was its last unit), or nothing when it
      found none. The ghost state `s` holds the rest of the loop state: the
      unit is one step of the specification from it, and the run from the
      state it leads to ends where the run from `s` does. */
  method SrtfUnit(arr: seq<int>, rem: seq<int>, clock: int, ghost s: SrtfState) returns (idx: int, rem': seq<int>, ghost s': SrtfState)
    requires SrtfShaped(|arr|, s) && rem == s.rem && clock == s.clock && Workable(rem)
    requires CountZeros(rem) < |arr|
    ensures PicksFirstMin(rem, ArrivedWithWork(arr, rem, clock), idx)
    ensures s' == SrtfStep(arr, s)
    ensures SrtfShaped(|arr|, s') && Workable(s'.rem) && rem' == s'.rem && s'.clock == s.clock + 1
    ensures idx == -1 ==> s' == s.(clock := s.clock + 1) && s.clock < MaxOf(arr)
    ensures idx != -1 ==> (&& 0 <= idx < |arr| && rem[idx] > 0 && WorkUnit(s, idx, s')
      && 0 <= Sum(rem') == Sum(rem) - 1
      && CountZeros(rem') == CountZeros(rem) + (if rem[idx] == 1 then 1 else 0))
    ensures SrtfRun(arr, s') == SrtfRun(arr, s)
  {
    idx := ScanShortestRemaining(arr, rem, clock);
    SrtfStepBy(arr, s, idx);
    SrtfTurn(arr, rem, s.clock, s.started, s.start, s.finish, idx);
    assert SrtfState(rem, s.clock, s.started, s.start, s.finish) == s;
    if idx != -1 {
      rem' := rem[idx := rem[idx] - 1];
      SumNonNegative(rem');
      s' := SrtfState(rem', s.clock + 1, s.started[idx := true],
                      if s.started[idx] then s.start else s.start[idx := s.clock],
                      if rem[idx] == 1 then s.finish[idx := s.clock + 1] else s.finish);
    } else {
      rem' := rem;
      s' := s.(clock := s.clock + 1);
    }
  }
}
