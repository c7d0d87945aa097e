/** The `std::sort` calls of scheduler.cpp order jobs (FCFS) or job indices
    (Round Robin) by arrival time. `std::sort` promises a permutation that is
    sorted by the key and nothing about the order of equal keys; that promise
    is all the schedulers' contracts rely on. */
module Sorting {
  import opened SeqMath

  predicate SortedBy<T>(s: seq<T>, key: T -> int) {
    forall i, j :: 0 <= i < j < |s| ==> key(s[i]) <= key(s[j])
  }

  /** Puts `x` in front of the first entry with a larger or equal key. */
  function InsertBy<T>(x: T, s: seq<T>, key: T -> int): (r: seq<T>)
    ensures |r| == |s| + 1 && (r[0] == x || (s != [] && r[0] == s[0]))
  {
    if s == [] || key(x) <= key(s[0]) then [x] + s else [s[0]] + InsertBy(x, s[1..], key)
  }

  /** Inserting into a sorted sequence keeps it sorted and adds exactly `x`. */
  lemma {:induction false} InsertBySorted<T>(x: T, s: seq<T>, key: T -> int)
    requires SortedBy(s, key)
    ensures SortedBy(InsertBy(x, s, key), key)
    ensures multiset(InsertBy(x, s, key)) == multiset(s) + multiset{x}
  {
    if s == [] || key(x) <= key(s[0]) {
      ConsSorted(x, s, key);
    } else {
      var rest := InsertBy(x, s[1..], key);
      assert s == [s[0]] + s[1..];
      InsertBySorted(x, s[1..], key);
      ConsSorted(s[0], rest, key);
    }
  }

  /** An element no larger than the head of a sorted sequence can go in front. */
  lemma ConsSorted<T>(a: T, s: seq<T>, key: T -> int)
    requires SortedBy(s, key) && (s != [] ==> key(a) <= key(s[0]))
    ensures SortedBy([a] + s, key)
  {
    var r := [a] + s;
    forall i, j | 0 <= i < j < |r| ensures key(r[i]) <= key(r[j]) {
      if i > 0 {
        assert r[i] == s[i - 1] && r[j] == s[j - 1];
      } else {
        assert r[j] == s[j - 1];
      }
    }
  }

  /** A sort with `std::sort`'s contract (an insertion sort underneath). */
  method SortBy<T>(s: seq<T>, key: T -> int) returns (r: seq<T>)
    ensures SortedBy(r, key)
    ensures multiset(r) == multiset(s)
  {
    r := [];
    for i := 0 to |s|
      invariant SortedBy(r, key)
      invariant multiset(r) == multiset(s[..i])
    {
      assert s[..i + 1] == s[..i] + [s[i]];
      InsertBySorted(s[i], r, key);
      r := InsertBy(s[i], r, key);
    }
    assert s[..|s|] == s;
  }

  /** Round Robin's `indices` vector after its sort: each job index once, by arrival. */
  predicate IsArrivalOrder(order: seq<nat>, arrivals: seq<int>) {
    && multiset(order) == multiset(Range(|arrivals|))
    && forall k, l :: 0 <= k < l < |order| && order[k] < |arrivals| && order[l] < |arrivals|
         ==> arrivals[order[k]] <= arrivals[order[l]]
  }

  /** What Round Robin's loop relies on: every index appears, exactly once, in range. */
  lemma ArrivalOrderFacts(order: seq<nat>, arrivals: seq<int>)
    requires IsArrivalOrder(order, arrivals)
    ensures |order| == |arrivals| && Distinct(order)
    ensures forall k :: 0 <= k < |order| ==> order[k] < |arrivals|
    ensures forall i :: 0 <= i < |arrivals| ==> i in order
  {
    PermutationOfRange(order, |arrivals|);
  }

  /** The index sort of Round Robin, as the source sets it up: 0..n-1 sorted by arrival. */
  method SortIndicesByArrival(arrivals: seq<int>) returns (order: seq<nat>)
    ensures IsArrivalOrder(order, arrivals)
  {
    var n := |arrivals|;
    var byArrival := (i: nat) => if i < n then arrivals[i] else 0;
    order := SortBy(Range(n), byArrival);
    PermutationOfRange(order, n);
    forall k, l | 0 <= k < l < |order| && order[k] < n && order[l] < n
      ensures arrivals[order[k]] <= arrivals[order[l]]
    {
      assert byArrival(order[k]) <= byArrival(order[l]);
    }
  }
}
