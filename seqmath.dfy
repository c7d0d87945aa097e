/** Counting and summing over the per-job vectors of a simulation: the
    completed counters, the total outstanding work and the latest arrival,
    which together bound how long a dispatch loop can run. */
module SeqMath {

  /** `n` copies of `v`, as `std::vector<T>(n, v)` builds them. */
  function Fill<T>(n: nat, v: T): (r: seq<T>)
    ensures |r| == n && forall i :: 0 <= i < n ==> r[i] == v
  {
    seq(n, _ => v)
  }

  function Min(a: int, b: int): (m: int)
    ensures m <= a && m <= b && (m == a || m == b)
  {
    if a < b then a else b
  }

  /** Number of set flags. */
  function CountTrue(bs: seq<bool>): (c: nat)
    ensures c <= |bs|
  {
    if bs == [] then 0 else (if bs[0] then 1 else 0) + CountTrue(bs[1..])
  }

  /** Number of entries equal to zero (jobs with no work left). */
  function CountZeros(xs: seq<int>): (c: nat)
    ensures c <= |xs|
  {
    if xs == [] then 0 else (if xs[0] == 0 then 1 else 0) + CountZeros(xs[1..])
  }

  function Sum(xs: seq<int>): int {
    if xs == [] then 0 else xs[0] + Sum(xs[1..])
  }

  /** The largest entry, or 0 for no entries. */
  function MaxOf(xs: seq<int>): (m: int)
    ensures forall i :: 0 <= i < |xs| ==> xs[i] <= m
  {
    if xs == [] then 0
    else
      var rest := MaxOf(xs[1..]);
      assert forall i :: 1 <= i < |xs| ==> xs[i] == xs[1..][i - 1];
      if xs[0] < rest then rest else xs[0]
  }

  /** The indices 0, 1, ..., n-1 in order. */
  function Range(n: nat): (r: seq<nat>)
    ensures |r| == n && forall i :: 0 <= i < n ==> r[i] == i
  {
    if n == 0 then [] else Range(n - 1) + [n - 1]
  }

  predicate Distinct<T(==)>(s: seq<T>) {
    forall i, j :: 0 <= i < j < |s| ==> s[i] != s[j]
  }

  /** Setting one unset flag raises the count by exactly one. */
  lemma {:induction false} CountTrueSet(bs: seq<bool>, i: nat)
    requires i < |bs| && !bs[i]
    ensures CountTrue(bs[i := true]) == CountTrue(bs) + 1
  {
    if i > 0 {
      assert bs[i := true][1..] == bs[1..][i - 1 := true];
      CountTrueSet(bs[1..], i - 1);
    } else {
      assert bs[i := true][1..] == bs[1..];
    }
  }

  /** The count reaches the length exactly when every flag is set. */
  lemma {:induction false} CountTrueFull(bs: seq<bool>)
    ensures CountTrue(bs) == |bs| <==> forall i :: 0 <= i < |bs| ==> bs[i]
  {
    if bs != [] {
      CountTrueFull(bs[1..]);
      assert forall i :: 1 <= i < |bs| ==> bs[i] == bs[1..][i - 1];
    }
  }

  /** Changing one entry changes the zero count only by that entry's status. */
  lemma {:induction false} CountZerosUpdate(xs: seq<int>, i: nat, v: int)
    requires i < |xs|
    ensures CountZeros(xs[i := v]) == CountZeros(xs) - (if xs[i] == 0 then 1 else 0) + (if v == 0 then 1 else 0)
  {
    if i > 0 {
      assert xs[i := v][1..] == xs[1..][i - 1 := v];
      CountZerosUpdate(xs[1..], i - 1, v);
    } else {
      assert xs[i := v][1..] == xs[1..];
    }
  }

  /** The zero count reaches the length exactly when every entry is zero. */
  lemma {:induction false} CountZerosFull(xs: seq<int>)
    ensures CountZeros(xs) == |xs| <==> forall i :: 0 <= i < |xs| ==> xs[i] == 0
  {
    if xs != [] {
      CountZerosFull(xs[1..]);
      assert forall i :: 1 <= i < |xs| ==> xs[i] == xs[1..][i - 1];
    }
  }

  lemma {:induction false} CountTrueNone(bs: seq<bool>)
    requires forall i :: 0 <= i < |bs| ==> !bs[i]
    ensures CountTrue(bs) == 0
  {
    if bs != [] {
      assert forall i :: 1 <= i < |bs| ==> bs[i] == bs[1..][i - 1];
      CountTrueNone(bs[1..]);
    }
  }

  lemma {:induction false} CountZerosNone(xs: seq<int>)
    requires forall i :: 0 <= i < |xs| ==> xs[i] != 0
    ensures CountZeros(xs) == 0
  {
    if xs != [] {
      assert forall i :: 1 <= i < |xs| ==> xs[i] == xs[1..][i - 1];
      CountZerosNone(xs[1..]);
    }
  }

  /** Changing one entry changes the sum by the difference. */
  lemma {:induction false} SumUpdate(xs: seq<int>, i: nat, v: int)
    requires i < |xs|
    ensures Sum(xs[i := v]) == Sum(xs) - xs[i] + v
  {
    if i > 0 {
      assert xs[i := v][1..] == xs[1..][i - 1 := v];
      SumUpdate(xs[1..], i - 1, v);
    } else {
      assert xs[i := v][1..] == xs[1..];
    }
  }

  lemma {:induction false} SumNonNegative(xs: seq<int>)
    requires forall i :: 0 <= i < |xs| ==> xs[i] >= 0
    ensures Sum(xs) >= 0
  {
    if xs != [] {
      assert forall i :: 1 <= i < |xs| ==> xs[i] == xs[1..][i - 1];
      SumNonNegative(xs[1..]);
    }
  }

  lemma {:induction false} SumZeros(xs: seq<int>)
    requires forall i :: 0 <= i < |xs| ==> xs[i] == 0
    ensures Sum(xs) == 0
  {
    if xs != [] {
      assert forall i :: 1 <= i < |xs| ==> xs[i] == xs[1..][i - 1];
      SumZeros(xs[1..]);
    }
  }

  /** A sequence with the same elements as 0, ..., n-1 holds each index exactly once. */
  lemma PermutationOfRange(s: seq<nat>, n: nat)
    requires multiset(s) == multiset(Range(n))
    ensures |s| == n && Distinct(s)
    ensures forall k :: 0 <= k < |s| ==> s[k] < n
    ensures forall i :: 0 <= i < n ==> i in s
  {
    assert |s| == |multiset(s)| == |multiset(Range(n))| == n;
    forall k | 0 <= k < |s| ensures s[k] < n {
      assert s[k] in multiset(Range(n));
    }
    forall i | 0 <= i < n ensures i in s {
      assert Range(n)[i] == i;
      assert i in multiset(Range(n));
    }
    forall i, j | 0 <= i < j < |s| ensures s[i] != s[j] {
      if s[i] == s[j] {
        TwoCopies(s, i, j);
        DistinctOnce(Range(n), s[i]);
        assert false;
      }
    }
  }

  lemma TwoCopies<T>(s: seq<T>, i: nat, j: nat)
    requires i < j < |s| && s[i] == s[j]
    ensures multiset(s)[s[i]] >= 2
  {
    var x := s[i];
    assert s == s[..i] + [x] + s[i + 1..j] + [x] + s[j + 1..];
  }

  /** An element occurs at most once in a sequence without repetitions. */
  lemma {:induction false} DistinctOnce<T>(s: seq<T>, x: T)
    requires Distinct(s)
    ensures multiset(s)[x] <= 1
  {
    if s != [] {
      var t := s[1..];
      assert s == [s[0]] + t;
      assert Distinct(t) by {
        forall i, j | 0 <= i < j < |t| ensures t[i] != t[j] {
          assert t[i] == s[i + 1] && t[j] == s[j + 1];
        }
      }
      DistinctOnce(t, x);
      if x == s[0] {
        assert x !in t by {
          forall k | 0 <= k < |t| ensures t[k] != x {
            assert t[k] == s[k + 1];
          }
        }
      }
    }
  }

}
