/** How many particles there are of each type, and the sums the type-count rebalancing relies on. */
module Histograms {
  import opened ArrayUtils

  /** Entry t is the number of occurrences of t in `kinds`, for t in [0, n). */
  function Histogram(kinds: seq<int>, n: nat): (h: seq<int>)
    ensures |h| == n
    ensures forall t :: 0 <= t < n ==> h[t] == multiset(kinds)[t] >= 0
  {
    seq(n, t => multiset(kinds)[t])
  }

  /** Every value of `kinds` lies in [0, n). */
  predicate InRange(kinds: seq<int>, n: int)
  {
    forall i :: 0 <= i < |kinds| ==> 0 <= kinds[i] < n
  }

  /** Adding `d` to one entry adds `d` to the sum. */
  lemma {:induction false} SumUpdate(s: seq<int>, i: int, d: int)
    requires 0 <= i < |s|
    ensures Sum(s[i := s[i] + d]) == Sum(s) + d
    decreases |s|
  {
    var n := |s|;
    var t := s[i := s[i] + d];
    assert t[..n - 1] == if i == n - 1 then s[..n - 1] else s[..n - 1][i := s[i] + d];
    if i < n - 1 {
      SumUpdate(s[..n - 1], i, d);
    }
  }

  /** With every value in range, the histogram adds up to the number of values. */
  lemma {:induction false} HistogramSum(kinds: seq<int>, n: nat)
    requires InRange(kinds, n)
    ensures Sum(Histogram(kinds, n)) == |kinds|
    decreases |kinds|
  {
    if kinds == [] {
      ZeroSum(n);
      assert Histogram(kinds, n) == seq(n, _ => 0);
    } else {
      var m := |kinds| - 1;
      var front, x := kinds[..m], kinds[m];
      assert kinds == front + [x];
      assert InRange(front, n);
      HistogramSum(front, n);
      var h := Histogram(front, n);
      assert Histogram(kinds, n) == h[x := h[x] + 1];
      SumUpdate(h, x, 1);
    }
  }

  lemma {:induction false} ZeroSum(n: nat)
    ensures Sum(seq(n, _ => 0)) == 0
  {
    if n > 0 {
      assert seq(n, _ => 0)[..n - 1] == seq(n - 1, _ => 0);
      ZeroSum(n - 1);
    }
  }

  /** Changing one value from `a` to `b` moves one count from entry a to entry b. */
  lemma HistogramChange(kinds: seq<int>, n: nat, i: int, b: int)
    requires 0 <= i < |kinds|
    ensures forall t :: 0 <= t < n ==>
      Histogram(kinds[i := b], n)[t] == Histogram(kinds, n)[t] - (if t == kinds[i] then 1 else 0) + (if t == b then 1 else 0)
  {
    assert multiset(kinds[i := b]) == multiset(kinds) - multiset{kinds[i]} + multiset{b};
  }

  /** Appending a value counts it once more. */
  lemma HistogramSnoc(kinds: seq<int>, n: nat, x: int)
    ensures forall t :: 0 <= t < n ==>
      Histogram(kinds + [x], n)[t] == Histogram(kinds, n)[t] + (if t == x then 1 else 0)
  {
    assert multiset(kinds + [x]) == multiset(kinds) + multiset{x};
  }

  /** Appending a value in range adds one to its entry and to no other. */
  lemma HistogramStep(kinds: seq<int>, n: nat, x: int)
    requires 0 <= x < n
    ensures Histogram(kinds + [x], n) == Histogram(kinds, n)[x := Histogram(kinds, n)[x] + 1]
  {
    HistogramSnoc(kinds, n, x);
  }

  /** Entries bounded above one by one and with the same sum are the same. */
  lemma {:induction false} BoundedWithEqualSum(a: seq<int>, b: seq<int>)
    requires |a| == |b| && Sum(a) == Sum(b)
    requires forall t :: 0 <= t < |a| ==> a[t] <= b[t]
    ensures a == b
    decreases |a|
  {
    if a != [] {
      var m := |a| - 1;
      SumBounded(a[..m], b[..m]);
      BoundedWithEqualSum(a[..m], b[..m]);
      assert a == a[..m] + [a[m]] && b == b[..m] + [b[m]];
    }
  }

  lemma {:induction false} SumBounded(a: seq<int>, b: seq<int>)
    requires |a| == |b| && forall t :: 0 <= t < |a| ==> a[t] <= b[t]
    ensures Sum(a) <= Sum(b)
    decreases |a|
  {
    if a != [] {
      SumBounded(a[..|a| - 1], b[..|b| - 1]);
    }
  }

  /**
   * With equal sums, an entry of `a` above its counterpart in `b` means
   * some entry of `a` is below its counterpart: the first-deficit search
   * then finds an index.
   */
  lemma {:induction false} SurplusMeansDeficit(a: seq<int>, b: seq<int>, t: int)
    requires |a| == |b| && Sum(a) == Sum(b) && 0 <= t < |a| && a[t] > b[t]
    ensures FirstIndexWithLess(a, b) >= 0
  {
    if FirstIndexWithLess(a, b) < 0 {
      var c := b[t := a[t]];
      SumUpdate(b, t, a[t] - b[t]);
      SumBounded(c, a);
      assert false;
    }
  }
}
