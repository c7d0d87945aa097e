/** First-come first-served (scheduler.cpp, `FCFSScheduler::schedule` and
    `TaskScheduler::scheduleFCFS`): after sorting by arrival, the jobs run
    one after the other, each starting when both the CPU is free and the job
    has arrived. Stated here over the sorted arrival and burst columns. */
module FcfsPolicy {
  import opened SeqMath
  import opened Sorting

  function Max(a: int, b: int): (m: int)
    ensures m >= a && m >= b && (m == a || m == b)
  {
    if a < b then b else a
  }

  /** The clock once the first `k` jobs have run, starting from 0. */
  function FcfsClock(arr: seq<int>, burst: seq<int>, k: nat): (c: int)
    requires |burst| == |arr| && k <= |arr|
    ensures k > 0 ==> c >= arr[k - 1] + burst[k - 1]
  {
    if k == 0 then 0 else Max(FcfsClock(arr, burst, k - 1), arr[k - 1]) + burst[k - 1]
  }

  /** When job `k` starts: the CPU is free and the job has arrived, and no later. */
  function FcfsStart(arr: seq<int>, burst: seq<int>, k: nat): (t: int)
    requires |burst| == |arr| && k < |arr|
    ensures t >= arr[k] && t >= FcfsClock(arr, burst, k)
    ensures t == arr[k] || t == FcfsClock(arr, burst, k)
    ensures FcfsClock(arr, burst, k + 1) == t + burst[k]
  {
    Max(FcfsClock(arr, burst, k), arr[k])
  }

  /** When job `k` completes: the clock once it has run. */
  function FcfsFinish(arr: seq<int>, burst: seq<int>, k: nat): (t: int)
    requires |burst| == |arr| && k < |arr|
    ensures t == FcfsStart(arr, burst, k) + burst[k]
  {
    FcfsClock(arr, burst, k + 1)
  }

  /** With non-negative bursts the clock never goes back. */
  lemma {:induction false} FcfsClockMonotone(arr: seq<int>, burst: seq<int>, i: nat, j: nat)
    requires |burst| == |arr| && i <= j <= |arr|
    requires forall k :: 0 <= k < |burst| ==> burst[k] >= 0
    ensures FcfsClock(arr, burst, i) <= FcfsClock(arr, burst, j)
    decreases j - i
  {
    if i < j {
      FcfsClockMonotone(arr, burst, i, j - 1);
    }
  }

  /** The timings FCFS gives each job: no waiting before arrival, one
      uninterrupted run, completions in vector order, and no two jobs on the
      CPU at once. */
  lemma FcfsTimings(arr: seq<int>, burst: seq<int>)
    requires |burst| == |arr|
    requires forall k :: 0 <= k < |burst| ==> burst[k] >= 0
    ensures forall k :: 0 <= k < |arr| ==> FcfsFinish(arr, burst, k) - arr[k] - burst[k] >= 0
    ensures forall i, j :: 0 <= i <= j < |arr| ==> FcfsFinish(arr, burst, i) <= FcfsFinish(arr, burst, j)
    ensures forall i, j :: 0 <= i < j < |arr| ==> FcfsFinish(arr, burst, i) <= FcfsStart(arr, burst, j)
  {
    forall i, j | 0 <= i <= j < |arr|
      ensures FcfsFinish(arr, burst, i) <= FcfsFinish(arr, burst, j)
    {
      FcfsClockMonotone(arr, burst, i + 1, j + 1);
    }
    forall i, j | 0 <= i < j < |arr|
      ensures FcfsFinish(arr, burst, i) <= FcfsStart(arr, burst, j)
    {
      FcfsClockMonotone(arr, burst, i + 1, j);
    }
  }

  /** When no two jobs share an arrival time, the sorted order is forced:
      two sorted rearrangements of the same jobs are the same sequence, so
      the FCFS result does not depend on the order the jobs were added in. */
  lemma {:induction false} SortedRearrangementUnique<T>(a: seq<T>, b: seq<T>, key: T -> int)
    requires SortedBy(a, key) && SortedBy(b, key)
    requires multiset(a) == multiset(b)
    requires forall i, j :: 0 <= i < j < |a| ==> key(a[i]) != key(a[j])
    ensures a == b
    decreases |a|
  {
    assert |a| == |multiset(a)| == |multiset(b)| == |b|;
    if |a| > 0 {
      SameHead(a, b, key);
      SameTail(a, b);
      assert SortedBy(a[1..], key) && SortedBy(b[1..], key);
      assert forall i, j :: 0 <= i < j < |a[1..]| ==> key(a[1..][i]) != key(a[1..][j]);
      SortedRearrangementUnique(a[1..], b[1..], key);
    }
  }

  lemma SameHead<T>(a: seq<T>, b: seq<T>, key: T -> int)
    requires |a| > 0 && |b| > 0
    requires SortedBy(a, key) && SortedBy(b, key)
    requires multiset(a) == multiset(b)
    requires forall i, j :: 0 <= i < j < |a| ==> key(a[i]) != key(a[j])
    ensures a[0] == b[0]
  {
    assert a[0] in multiset(b) && b[0] in multiset(a);
    var i :| 0 <= i < |b| && b[i] == a[0];
    var j :| 0 <= j < |a| && a[j] == b[0];
    assert key(b[0]) <= key(b[i]);
    assert key(a[0]) <= key(a[j]);
  }

  lemma SameTail<T>(a: seq<T>, b: seq<T>)
    requires |a| > 0 && |b| > 0 && a[0] == b[0]
    requires multiset(a) == multiset(b)
    ensures multiset(a[1..]) == multiset(b[1..])
  {
    assert a == [a[0]] + a[1..] && b == [b[0]] + b[1..];
    assert multiset(a[1..]) == multiset(a) - multiset{a[0]};
    assert multiset(b[1..]) == multiset(b) - multiset{a[0]};
  }
}
