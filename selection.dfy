/** The selection scans of scheduler.cpp. SJF, SRTF and Priority all walk the
    job vector once, keep a running minimum that starts at INT_MAX, and replace
    it only on a strictly smaller key: the lowest index among the eligible jobs
    with the smallest key wins, and -1 means that no job qualified. */
module Selection {
  import opened Jobs

  /** `idx` is what such a scan returns over `keys`, considering only the
      entries flagged in `eligible`. */
  predicate PicksFirstMin(keys: seq<int>, eligible: seq<bool>, idx: int): (b: bool)
    requires |keys| == |eligible|
    ensures b ==> -1 <= idx < |keys|
  {
    if idx < 0 then
      idx == -1 && forall i :: 0 <= i < |keys| && eligible[i] ==> keys[i] >= IntMax
    else
      && idx < |keys| && eligible[idx] && keys[idx] < IntMax
      && (forall i :: 0 <= i < |keys| && eligible[i] ==> keys[idx] <= keys[i])
      && (forall i :: 0 <= i < idx && eligible[i] ==> keys[idx] < keys[i])
  }

  /** The scan as a function, built up one entry at a time as the loop runs. */
  function FirstMin(keys: seq<int>, eligible: seq<bool>): (idx: int)
    requires |keys| == |eligible|
    ensures -1 <= idx < |keys|
  {
    if |keys| == 0 then -1
    else
      var last := |keys| - 1;
      var best := FirstMin(keys[..last], eligible[..last]);
      if eligible[last] && keys[last] < (if best == -1 then IntMax else keys[best]) then last else best
  }

  /** The function follows the selection rule. */
  lemma {:induction false} FirstMinPicks(keys: seq<int>, eligible: seq<bool>)
    requires |keys| == |eligible|
    ensures PicksFirstMin(keys, eligible, FirstMin(keys, eligible))
  {
    if |keys| > 0 {
      var last := |keys| - 1;
      FirstMinPicks(keys[..last], eligible[..last]);
    }
  }

  /** The selection rule leaves no choice: at most one index satisfies it. */
  lemma FirstMinUnique(keys: seq<int>, eligible: seq<bool>, a: int, b: int)
    requires |keys| == |eligible|
    requires PicksFirstMin(keys, eligible, a) && PicksFirstMin(keys, eligible, b)
    ensures a == b
  {
  }

  /** Eligibility for SJF and Priority: arrived and not yet completed. */
  function ArrivedWaiting(arrivals: seq<int>, completed: seq<bool>, clock: int): (e: seq<bool>)
    requires |completed| == |arrivals|
    ensures |e| == |arrivals|
    ensures forall i :: 0 <= i < |e| ==> (e[i] <==> !completed[i] && arrivals[i] <= clock)
  {
    seq(|arrivals|, i requires 0 <= i < |arrivals| => !completed[i] && arrivals[i] <= clock)
  }

  /** Eligibility for SRTF: arrived and still holding work. */
  function ArrivedWithWork(arrivals: seq<int>, remaining: seq<int>, clock: int): (e: seq<bool>)
    requires |remaining| == |arrivals|
    ensures |e| == |arrivals|
    ensures forall i :: 0 <= i < |e| ==> (e[i] <==> arrivals[i] <= clock && remaining[i] > 0)
  {
    seq(|arrivals|, i requires 0 <= i < |arrivals| => arrivals[i] <= clock && remaining[i] > 0)
  }

  /** The scan of SJF (by burst time) and of Priority (by priority value):
      the first uncompleted, arrived job with the smallest key. */
  method ScanArrivedWaiting(arrivals: seq<int>, keys: seq<int>, completed: seq<bool>, clock: int)
    returns (idx: int)
    requires |keys| == |arrivals| && |completed| == |arrivals|
    ensures PicksFirstMin(keys, ArrivedWaiting(arrivals, completed, clock), idx)
  {
    idx := -1;
    var minKey := IntMax;
    var i := 0;
    while i < |keys|
      invariant 0 <= i <= |keys| && -1 <= idx < i
      invariant minKey == if idx == -1 then IntMax else keys[idx]
      invariant idx >= 0 ==> !completed[idx] && arrivals[idx] <= clock && minKey < IntMax
      invariant forall k :: 0 <= k < i && !completed[k] && arrivals[k] <= clock ==> minKey <= keys[k]
      invariant forall k :: 0 <= k < idx && !completed[k] && arrivals[k] <= clock ==> minKey < keys[k]
    {
      if !completed[i] && arrivals[i] <= clock {
        if keys[i] < minKey {
          minKey := keys[i];
          idx := i;
        }
      }
      i := i + 1;
    }
  }

  /** The scan of SRTF: the first arrived job with work left and the least of it. */
  method ScanShortestRemaining(arrivals: seq<int>, remaining: seq<int>, clock: int)
    returns (idx: int)
    requires |remaining| == |arrivals|
    ensures PicksFirstMin(remaining, ArrivedWithWork(arrivals, remaining, clock), idx)
  {
    idx := -1;
    var minRemaining := IntMax;
    var i := 0;
    while i < |remaining|
      invariant 0 <= i <= |remaining| && -1 <= idx < i
      invariant minRemaining == if idx == -1 then IntMax else remaining[idx]
      invariant idx >= 0 ==> arrivals[idx] <= clock && remaining[idx] > 0 && minRemaining < IntMax
      invariant forall k :: 0 <= k < i && arrivals[k] <= clock && remaining[k] > 0 ==> minRemaining <= remaining[k]
      invariant forall k :: 0 <= k < idx && arrivals[k] <= clock && remaining[k] > 0 ==> minRemaining < remaining[k]
    {
      if arrivals[i] <= clock && remaining[i] > 0 && remaining[i] < minRemaining {
        minRemaining := remaining[i];
        idx := i;
      }
      i := i + 1;
    }
  }
}
