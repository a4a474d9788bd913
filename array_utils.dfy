/** Array helpers: swapping two entries and finding the first index where one array falls short of another. */
module ArrayUtils {

  /** `s` with the entries at `i` and `j` exchanged. */
  function Swapped<T>(s: seq<T>, i: int, j: int): (r: seq<T>)
    requires 0 <= i < |s| && 0 <= j < |s|
    ensures |r| == |s|
  {
    s[i := s[j]][j := s[i]]
  }

  /** Exchanging two entries keeps the multiset of entries. */
  lemma SwappedIsPermutation<T>(s: seq<T>, i: int, j: int)
    requires 0 <= i < |s| && 0 <= j < |s|
    ensures multiset(Swapped(s, i, j)) == multiset(s)
  {
    var t := s[i := s[j]];
    assert multiset(t) == multiset(s) - multiset{s[i]} + multiset{s[j]};
    assert multiset(t[j := s[i]]) == multiset(t) - multiset{t[j]} + multiset{s[i]};
  }

  /** Swapping an index with itself is the identity, and swapping twice undoes the swap. */
  lemma SwappedSelfAndTwice<T>(s: seq<T>, i: int, j: int)
    requires 0 <= i < |s| && 0 <= j < |s|
    ensures Swapped(s, i, i) == s
    ensures Swapped(Swapped(s, i, j), i, j) == s
  {
  }

  /** A prefix holds no element more often than the whole sequence. */
  lemma PrefixSubMultiset<T>(s: seq<T>, n: int)
    requires 0 <= n <= |s|
    ensures multiset(s[..n]) <= multiset(s)
  {
    assert s == s[..n] + s[n..];
    var kept, dropped := multiset(s[..n]), multiset(s[n..]);
    assert multiset(s) == kept + dropped;
  }

  /** `ArrayUtils.swap`: exchanges `a[i]` and `a[j]` and touches nothing else. */
  method Swap<T>(a: array<T>, i: int, j: int)
    requires 0 <= i < a.Length && 0 <= j < a.Length
    modifies a
    ensures a[..] == Swapped(old(a[..]), i, j)
    ensures a[i] == old(a[j]) && a[j] == old(a[i])
    ensures forall k :: 0 <= k < a.Length && k != i && k != j ==> a[k] == old(a[k])
    ensures multiset(a[..]) == multiset(old(a[..]))
  {
    ghost var before := a[..];
    var h := a[i];
    a[i] := a[j];
    a[j] := h;
    assert a[..] == Swapped(before, i, j);
    SwappedIsPermutation(before, i, j);
  }

  /** The first index where `a` is below `b`, or -1 when there is none. */
  function FirstIndexWithLess(a: seq<int>, b: seq<int>): (r: int)
    requires |a| == |b|
    ensures -1 <= r < |a|
    ensures r == -1 <==> forall k :: 0 <= k < |a| ==> a[k] >= b[k]
    ensures r >= 0 ==> a[r] < b[r] && forall k :: 0 <= k < r ==> a[k] >= b[k]
  {
    if |a| == 0 then -1
    else if a[0] < b[0] then 0
    else
      var r := FirstIndexWithLess(a[1..], b[1..]);
      if r == -1 then -1 else r + 1
  }

  /** The first-deficit index is determined by its defining properties. */
  lemma FirstIndexWithLessUnique(a: seq<int>, b: seq<int>, r: int)
    requires |a| == |b| && -1 <= r < |a|
    requires r == -1 <==> forall k :: 0 <= k < |a| ==> a[k] >= b[k]
    requires r >= 0 ==> a[r] < b[r] && forall k :: 0 <= k < r ==> a[k] >= b[k]
    ensures r == FirstIndexWithLess(a, b)
  {
  }

  /** `ArrayUtils.findFirstIndexWithLess`, a search loop over two arrays of equal length. */
  method FindFirstIndexWithLess(a: array<int>, b: array<int>) returns (r: int)
    requires a.Length == b.Length
    ensures -1 <= r < a.Length
    ensures r == -1 <==> forall k :: 0 <= k < a.Length ==> a[k] >= b[k]
    ensures r >= 0 ==> a[r] < b[r] && forall k :: 0 <= k < r ==> a[k] >= b[k]
  {
    var i := 0;
    while i < a.Length
      invariant 0 <= i <= a.Length
      invariant forall k :: 0 <= k < i ==> a[k] >= b[k]
    {
      if a[i] < b[i] {
        return i;
      }
      i := i + 1;
    }
    return -1;
  }

  function Sum(s: seq<int>): int
  {
    if s == [] then 0 else Sum(s[..|s| - 1]) + s[|s| - 1]
  }

  /** Extending a prefix by one entry adds that entry to its sum. */
  lemma SumPrefixStep(s: seq<int>, i: int)
    requires 0 <= i < |s|
    ensures Sum(s[..i + 1]) == Sum(s[..i]) + s[i]
  {
    assert s[..i + 1][..i] == s[..i];
  }

  /**
   * When the entries of `a` add up to less than those of `b`, some entry of
   * `a` is below the matching entry of `b`: the first-deficit search then
   * finds an index.
   */
  lemma {:induction false} DeficitExists(a: seq<int>, b: seq<int>)
    requires |a| == |b| && Sum(a) < Sum(b)
    ensures FirstIndexWithLess(a, b) >= 0
  {
    var n := |a|;
    if a[n - 1] >= b[n - 1] {
      DeficitExists(a[..n - 1], b[..n - 1]);
      var r := FirstIndexWithLess(a[..n - 1], b[..n - 1]);
      assert a[r] < b[r];
    }
  }
}
