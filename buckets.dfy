/**
 * The arithmetic behind sorting particles into containers: the elements of
 * a sequence with a given integer key (a bucket), and the buckets 0, 1, ...
 * laid end to end. The container sort in `Physics.makeContainers` produces
 * exactly the buckets laid end to end.
 */
module Buckets {
  import opened ArrayUtils

  /** The elements of `s` whose key is `c`, in their order in `s`. */
  ghost function Bucket<T>(s: seq<T>, key: T -> int, c: int): (r: seq<T>)
    ensures |r| <= |s|
  {
    if s == [] then []
    else Bucket(s[..|s| - 1], key, c) + (if key(s[|s| - 1]) == c then [s[|s| - 1]] else [])
  }

  /** The elements of `s` whose key lies in [0, c), in their order in `s`. */
  ghost function Below<T>(s: seq<T>, key: T -> int, c: int): (r: seq<T>)
  {
    if s == [] then []
    else Below(s[..|s| - 1], key, c) + (if 0 <= key(s[|s| - 1]) < c then [s[|s| - 1]] else [])
  }

  /** Buckets 0 .. c-1 laid end to end. */
  ghost function Laid<T>(s: seq<T>, key: T -> int, c: nat): seq<T>
  {
    if c == 0 then [] else Laid(s, key, c - 1) + Bucket(s, key, c - 1)
  }

  /** A bucket holds elements of `s` with its key only. */
  lemma {:induction false} BucketMembers<T>(s: seq<T>, key: T -> int, c: int, i: int)
    requires 0 <= i < |Bucket(s, key, c)|
    ensures Bucket(s, key, c)[i] in s && key(Bucket(s, key, c)[i]) == c
    decreases |s|
  {
    var t := s[..|s| - 1];
    if i < |Bucket(t, key, c)| {
      BucketMembers(t, key, c, i);
      assert Bucket(s, key, c)[i] == Bucket(t, key, c)[i];
      assert Bucket(t, key, c)[i] in t;
    }
  }

  /** The first c buckets hold elements of `s` whose keys lie in [0, c). */
  lemma {:induction false} LaidMembers<T>(s: seq<T>, key: T -> int, c: nat, i: int)
    requires 0 <= i < |Laid(s, key, c)|
    ensures Laid(s, key, c)[i] in s && 0 <= key(Laid(s, key, c)[i]) < c
  {
    var before := Laid(s, key, c - 1);
    if i < |before| {
      LaidMembers(s, key, c - 1, i);
    } else {
      BucketMembers(s, key, c - 1, i - |before|);
    }
  }

  /** Every key of `s` lies in [0, n). */
  ghost predicate KeysBelow<T>(s: seq<T>, key: T -> int, n: int)
  {
    forall i :: 0 <= i < |s| ==> 0 <= key(s[i]) < n
  }

  /** Extending `s` by one element extends its bucket by that element exactly when the key matches. */
  lemma {:induction false} BucketSnoc<T>(s: seq<T>, x: T, key: T -> int)
    ensures forall c :: Bucket(s + [x], key, c) == Bucket(s, key, c) + (if key(x) == c then [x] else [])
  {
    assert (s + [x])[..|s + [x]| - 1] == s;
  }

  /** The bucket of a prefix is a prefix of the bucket. */
  lemma {:induction false} BucketOfPrefix<T>(s: seq<T>, k: nat, key: T -> int, c: int)
    requires k <= |s|
    ensures |Bucket(s[..k], key, c)| <= |Bucket(s, key, c)|
    ensures Bucket(s[..k], key, c) == Bucket(s, key, c)[..|Bucket(s[..k], key, c)|]
    decreases |s|
  {
    if k < |s| {
      var t := s[..|s| - 1];
      assert s[..k] == t[..k];
      BucketOfPrefix(t, k, key, c);
    } else {
      assert s[..k] == s;
    }
  }

  /** Keys in [0, c + 1) are those in [0, c) and those equal to c. */
  lemma {:induction false} BelowStep<T>(s: seq<T>, key: T -> int, c: nat)
    ensures multiset(Below(s, key, c + 1)) == multiset(Below(s, key, c)) + multiset(Bucket(s, key, c))
    decreases |s|
  {
    if s != [] {
      BelowStep(s[..|s| - 1], key, c);
    }
  }

  /** With every key in [0, n), keeping the keys in [0, n) keeps everything. */
  lemma {:induction false} BelowAll<T>(s: seq<T>, key: T -> int, n: int)
    requires KeysBelow(s, key, n)
    ensures Below(s, key, n) == s
    decreases |s|
  {
    if s != [] {
      var t := s[..|s| - 1];
      assert KeysBelow(t, key, n) by {
        forall i | 0 <= i < |t| ensures 0 <= key(t[i]) < n {
          assert t[i] == s[i];
        }
      }
      BelowAll(t, key, n);
      assert t + [s[|s| - 1]] == s;
    }
  }

  /** The buckets below `c` together hold the elements whose key is below `c`. */
  lemma {:induction false} LaidHoldsBelow<T>(s: seq<T>, key: T -> int, c: nat)
    ensures multiset(Laid(s, key, c)) == multiset(Below(s, key, c))
  {
    if c == 0 {
      BelowNone(s, key);
    } else {
      var d := c - 1;
      LaidHoldsBelow(s, key, d);
      BelowStep(s, key, d);
      LaidStep(s, key, d);
      var L, B, W := multiset(Laid(s, key, d)), multiset(Bucket(s, key, d)), multiset(Below(s, key, d));
      assert multiset(Laid(s, key, d + 1)) == L + B;
      assert multiset(Below(s, key, d + 1)) == W + B;
      assert L == W;
    }
  }

  lemma {:induction false} LaidStep<T>(s: seq<T>, key: T -> int, c: nat)
    ensures multiset(Laid(s, key, c + 1)) == multiset(Laid(s, key, c)) + multiset(Bucket(s, key, c))
  {
  }

  /** One more bucket adds its size to the length of the layout. */
  lemma {:induction false} LaidLength<T>(s: seq<T>, key: T -> int, c: nat)
    ensures |Laid(s, key, c + 1)| == |Laid(s, key, c)| + |Bucket(s, key, c)|
  {
  }

  /** When entry d of `counts` is the size of bucket d, the sum of the first d counts is where bucket d starts. */
  lemma {:induction false} LaidSizes<T>(s: seq<T>, key: T -> int, counts: seq<int>, d: nat)
    requires d <= |counts|
    requires forall c :: 0 <= c < |counts| ==> counts[c] == |Bucket(s, key, c)|
    ensures Sum(counts[..d]) == |Laid(s, key, d)|
  {
    if d > 0 {
      var c := d - 1;
      LaidSizes(s, key, counts, c);
      SumPrefixStep(counts, c);
      LaidLength(s, key, c);
    }
  }

  lemma {:induction false} BelowNone<T>(s: seq<T>, key: T -> int)
    ensures Below(s, key, 0) == []
    decreases |s|
  {
    if s != [] {
      BelowNone(s[..|s| - 1], key);
    }
  }

  /** With every key in [0, n), the n buckets laid end to end are a permutation of `s`. */
  lemma {:induction false} LaidIsPermutation<T>(s: seq<T>, key: T -> int, n: nat)
    requires KeysBelow(s, key, n)
    ensures multiset(Laid(s, key, n)) == multiset(s)
    ensures |Laid(s, key, n)| == |s|
  {
    LaidHoldsBelow(s, key, n);
    BelowAll(s, key, n);
    assert |multiset(Laid(s, key, n))| == |multiset(s)|;
  }

  /** Laying out fewer buckets gives a prefix. */
  lemma {:induction false} LaidPrefix<T>(s: seq<T>, key: T -> int, c: nat, n: nat)
    requires c <= n
    ensures |Laid(s, key, c)| <= |Laid(s, key, n)|
    ensures Laid(s, key, n)[..|Laid(s, key, c)|] == Laid(s, key, c)
    decreases n
  {
    if c < n {
      LaidPrefix(s, key, c, n - 1);
    }
  }

  /** Past the first c buckets every key is at least c. */
  lemma {:induction false} LaidUpperKeys<T>(s: seq<T>, key: T -> int, c: nat, n: nat, i: int)
    requires c <= n && |Laid(s, key, c)| <= i < |Laid(s, key, n)|
    ensures key(Laid(s, key, n)[i]) >= c
    decreases n
  {
    if i < |Laid(s, key, n - 1)| {
      LaidUpperKeys(s, key, c, n - 1, i);
    } else {
      BucketMembers(s, key, n - 1, i - |Laid(s, key, n - 1)|);
    }
  }

  /** Within the first c buckets every key is below c. */
  lemma {:induction false} LaidLowerKeys<T>(s: seq<T>, key: T -> int, c: nat, n: nat, i: int)
    requires c <= n && 0 <= i < |Laid(s, key, c)|
    ensures i < |Laid(s, key, n)| && key(Laid(s, key, n)[i]) < c
  {
    LaidPrefix(s, key, c, n);
    assert Laid(s, key, n)[i] == Laid(s, key, c)[i];
    LaidMembers(s, key, c, i);
  }

  /** Laid out buckets are sorted by key. */
  lemma {:induction false} LaidSorted<T>(s: seq<T>, key: T -> int, n: nat, i: int, j: int)
    requires 0 <= i <= j < |Laid(s, key, n)|
    ensures key(Laid(s, key, n)[i]) <= key(Laid(s, key, n)[j])
  {
    LaidMembers(s, key, n, i);
    var c := key(Laid(s, key, n)[i]);
    if i < |Laid(s, key, c)| {
      LaidLowerKeys(s, key, c, n, i);
      assert false;
    }
    LaidUpperKeys(s, key, c, n, j);
  }

  /**
   * Position `i` of the layout holds a key-c element exactly when it lies
   * between the end of bucket c - 1 and the end of bucket c, and there it is
   * element `i - |Laid(c)|` of bucket c.
   */
  lemma {:induction false} BucketRange<T>(s: seq<T>, key: T -> int, n: nat, c: nat, i: int)
    requires c < n && 0 <= i < |Laid(s, key, n)|
    ensures key(Laid(s, key, n)[i]) == c <==> |Laid(s, key, c)| <= i < |Laid(s, key, c + 1)|
    ensures |Laid(s, key, c)| <= i < |Laid(s, key, c + 1)| ==>
      Laid(s, key, n)[i] == Bucket(s, key, c)[i - |Laid(s, key, c)|]
  {
    LaidPrefix(s, key, c, n);
    LaidPrefix(s, key, c + 1, n);
    if i < |Laid(s, key, c)| {
      LaidLowerKeys(s, key, c, n, i);
    } else if i < |Laid(s, key, c + 1)| {
      assert Laid(s, key, n)[i] == Laid(s, key, c + 1)[i] == Bucket(s, key, c)[i - |Laid(s, key, c)|];
      BucketMembers(s, key, c, i - |Laid(s, key, c)|);
    } else {
      LaidUpperKeys(s, key, c + 1, n, i);
    }
  }

  /** Bucket c of a one-longer prefix grows by the new element exactly when its key is c. */
  lemma {:induction false} BucketGrows<T>(s: seq<T>, key: T -> int, k: nat, c: int)
    requires k < |s|
    ensures Bucket(s[..k + 1], key, c) == Bucket(s[..k], key, c) + (if key(s[k]) == c then [s[k]] else [])
  {
    assert s[..k + 1] == s[..k] + [s[k]];
    BucketSnoc(s[..k], s[k], key);
  }

  /** Every bucket of a one-longer prefix, at once. */
  lemma BucketGrowsAll<T>(s: seq<T>, key: T -> int, k: nat)
    requires k < |s|
    ensures forall c :: Bucket(s[..k + 1], key, c) == Bucket(s[..k], key, c) + (if key(s[k]) == c then [s[k]] else [])
  {
    forall c ensures Bucket(s[..k + 1], key, c) == Bucket(s[..k], key, c) + (if key(s[k]) == c then [s[k]] else []) {
      BucketGrows(s, key, k, c);
    }
  }

  /** The part of bucket d already met in `s[..k]` ends inside bucket d's range. */
  lemma {:induction false} PartInRange<T>(s: seq<T>, key: T -> int, k: nat, d: nat)
    requires k <= |s|
    ensures |Laid(s, key, d)| + |Bucket(s[..k], key, d)| <= |Laid(s, key, d + 1)|
  {
    BucketOfPrefix(s, k, key, d);
  }

  /**
   * Bucket d of `s[..k]` sits in `buf` at the start of bucket d's range in
   * the layout of the whole of `s`.
   */
  ghost predicate Filled<T>(buf: seq<T>, s: seq<T>, key: T -> int, k: nat, d: nat)
    requires k <= |s|
  {
    var lo, b := |Laid(s, key, d)|, Bucket(s[..k], key, d);
    lo + |b| <= |buf| && buf[lo..lo + |b|] == b
  }

  /** The state of the scatter pass after its first k elements: every bucket is filled so far. */
  ghost predicate Scattered<T>(buf: seq<T>, s: seq<T>, key: T -> int, cells: nat, k: nat)
    requires k <= |s|
  {
    forall d: nat :: d < cells ==> Filled(buf, s, key, k, d)
  }

  /** Before the scatter pass nothing is filled, whatever the buffer holds. */
  lemma {:induction false} ScatterStart<T>(buf: seq<T>, s: seq<T>, key: T -> int, cells: nat)
    requires |s| == |buf| && KeysBelow(s, key, cells)
    ensures Scattered(buf, s, key, cells, 0)
  {
    forall d: nat | d < cells ensures Filled(buf, s, key, 0, d) {
      LaidPrefix(s, key, d, cells);
      LaidIsPermutation(s, key, cells);
      assert Bucket(s[..0], key, d) == [];
    }
  }

  /** The slot of element k lies in its bucket's range, past the slots of the earlier elements with its key. */
  lemma {:induction false} SlotInRange<T>(s: seq<T>, key: T -> int, cells: nat, k: nat)
    requires k < |s| && KeysBelow(s, key, cells)
    ensures 0 <= key(s[k]) < cells
    ensures |Laid(s, key, key(s[k]))| + |Bucket(s[..k], key, key(s[k]))| < |Laid(s, key, key(s[k]) + 1)| <= |s|
  {
    var c := key(s[k]);
    BucketGrows(s, key, k, c);
    PartInRange(s, key, k + 1, c);
    LaidPrefix(s, key, c + 1, cells);
    LaidIsPermutation(s, key, cells);
  }

  /** The slot of element k: the start of its bucket's range plus the number of earlier elements with its key. */
  ghost function Slot<T>(s: seq<T>, key: T -> int, k: nat): int
    requires k < |s| && 0 <= key(s[k])
  {
    |Laid(s, key, key(s[k]))| + |Bucket(s[..k], key, key(s[k]))|
  }

  /** One scatter step: element k goes to its slot, and every bucket stays filled. */
  lemma {:induction false} ScatterStep<T>(buf: seq<T>, s: seq<T>, key: T -> int, cells: nat, k: nat)
    requires k < |s| == |buf| && KeysBelow(s, key, cells)
    requires Scattered(buf, s, key, cells, k)
    ensures 0 <= key(s[k]) < cells
    ensures Slot(s, key, k) < |s|
    ensures Scattered(buf[Slot(s, key, k) := s[k]], s, key, cells, k + 1)
  {
    var i := Slot(s, key, k);
    SlotInRange(s, key, cells, k);
    FilledAll(buf, s, key, cells, k, i);
  }

  /** Every bucket across one scatter step. */
  lemma FilledAll<T>(buf: seq<T>, s: seq<T>, key: T -> int, cells: nat, k: nat, i: int)
    requires k < |s| == |buf| && KeysBelow(s, key, cells)
    requires Scattered(buf, s, key, cells, k)
    requires 0 <= key(s[k]) && i == Slot(s, key, k) && 0 <= i < |buf|
    ensures Scattered(buf[i := s[k]], s, key, cells, k + 1)
  {
    var nb, next := buf[i := s[k]], k + 1;
    forall d: nat | d < cells ensures Filled(nb, s, key, next, d) {
      FilledStep(buf, s, key, cells, k, d);
    }
  }

  /** One bucket across one scatter step. */
  lemma {:induction false} FilledStep<T>(buf: seq<T>, s: seq<T>, key: T -> int, cells: nat, k: nat, d: nat)
    requires k < |s| == |buf| && KeysBelow(s, key, cells) && d < cells
    requires Filled(buf, s, key, k, d)
    ensures 0 <= key(s[k]) < cells
    ensures 0 <= Slot(s, key, k) < |buf| && Filled(buf[Slot(s, key, k) := s[k]], s, key, k + 1, d)
  {
    SlotInRange(s, key, cells, k);
    BucketGrows(s, key, k, d);
    if d == key(s[k]) {
      FilledOwnBucket(buf, s, key, cells, k);
    } else {
      FilledOtherBucket(buf, s, key, cells, k, d);
    }
  }

  /** The bucket of element k grows by that element. */
  lemma {:induction false} FilledOwnBucket<T>(buf: seq<T>, s: seq<T>, key: T -> int, cells: nat, k: nat)
    requires k < |s| == |buf| && KeysBelow(s, key, cells)
    requires 0 <= key(s[k]) < cells
    requires |Laid(s, key, key(s[k]))| + |Bucket(s[..k], key, key(s[k]))| < |s|
    requires Filled(buf, s, key, k, key(s[k]))
    requires Bucket(s[..k + 1], key, key(s[k])) == Bucket(s[..k], key, key(s[k])) + [s[k]]
    ensures var i := |Laid(s, key, key(s[k]))| + |Bucket(s[..k], key, key(s[k]))|;
      Filled(buf[i := s[k]], s, key, k + 1, key(s[k]))
  {
    var c := key(s[k]);
    var lo, before := |Laid(s, key, c)|, Bucket(s[..k], key, c);
    var i := lo + |before|;
    var nb := buf[i := s[k]];
    assert nb[lo..i] == buf[lo..i];
    assert nb[lo..i + 1] == nb[lo..i] + [s[k]];
  }

  /** A bucket other than that of element k keeps its contents and its slots. */
  lemma {:induction false} FilledOtherBucket<T>(buf: seq<T>, s: seq<T>, key: T -> int, cells: nat, k: nat, d: nat)
    requires k < |s| == |buf| && KeysBelow(s, key, cells) && d < cells
    requires 0 <= key(s[k]) < cells && d != key(s[k])
    requires |Laid(s, key, key(s[k]))| + |Bucket(s[..k], key, key(s[k]))| < |Laid(s, key, key(s[k]) + 1)|
    requires Filled(buf, s, key, k, d)
    requires Bucket(s[..k + 1], key, d) == Bucket(s[..k], key, d)
    ensures var i := |Laid(s, key, key(s[k]))| + |Bucket(s[..k], key, key(s[k]))|;
      0 <= i < |buf| ==> Filled(buf[i := s[k]], s, key, k + 1, d)
  {
    var c := key(s[k]);
    var i := |Laid(s, key, c)| + |Bucket(s[..k], key, c)|;
    var lo := |Laid(s, key, d)|;
    var hi := lo + |Bucket(s[..k], key, d)|;
    SlotOutside(s, key, k, c, d);
    if 0 <= i < |buf| {
      UpdateOutside(buf, i, s[k], lo, hi);
    }
  }

  /** The next slot of bucket c lies outside the filled part of any other bucket d. */
  lemma {:induction false} SlotOutside<T>(s: seq<T>, key: T -> int, k: nat, c: nat, d: nat)
    requires k <= |s| && c != d
    requires |Laid(s, key, c)| + |Bucket(s[..k], key, c)| < |Laid(s, key, c + 1)|
    ensures var i, lo := |Laid(s, key, c)| + |Bucket(s[..k], key, c)|, |Laid(s, key, d)|;
      i < lo || lo + |Bucket(s[..k], key, d)| <= i
  {
    if d < c {
      EarlierBucketEnds(s, key, k, c, d);
    } else {
      LaidPrefix(s, key, c + 1, d);
    }
  }

  /** The filled part of an earlier bucket ends before bucket c begins. */
  lemma {:induction false} EarlierBucketEnds<T>(s: seq<T>, key: T -> int, k: nat, c: nat, d: nat)
    requires k <= |s| && d < c
    ensures |Laid(s, key, d)| + |Bucket(s[..k], key, d)| <= |Laid(s, key, c)|
  {
    PartInRange(s, key, k, d);
    LaidPrefix(s, key, d + 1, c);
  }

  /** Writing outside a slice leaves the slice as it was. */
  lemma UpdateOutside<T>(buf: seq<T>, i: int, x: T, lo: int, hi: int)
    requires 0 <= lo <= hi <= |buf| && 0 <= i < |buf| && (i < lo || hi <= i)
    ensures buf[i := x][lo..hi] == buf[lo..hi]
  {
    assert forall j :: lo <= j < hi ==> buf[i := x][j] == buf[j];
  }

  /** Filled buckets below c make up the first |Laid(c)| slots of the buffer. */
  lemma {:induction false} ScatterPrefix<T>(buf: seq<T>, s: seq<T>, key: T -> int, cells: nat, c: nat)
    requires |s| == |buf| && c <= cells
    requires Scattered(buf, s, key, cells, |s|)
    ensures |Laid(s, key, c)| <= |buf| && buf[..|Laid(s, key, c)|] == Laid(s, key, c)
  {
    if c > 0 {
      var d := c - 1;
      ScatterPrefix(buf, s, key, cells, d);
      assert Filled(buf, s, key, |s|, d);
      assert s[..|s|] == s;
      var lo, hi := |Laid(s, key, d)|, |Laid(s, key, c)|;
      assert buf[..hi] == buf[..lo] + buf[lo..hi];
    }
  }

  /** After the last element, the scatter buffer is the buckets laid end to end. */
  lemma {:induction false} ScatterDone<T>(buf: seq<T>, s: seq<T>, key: T -> int, cells: nat)
    requires |s| == |buf| && KeysBelow(s, key, cells)
    requires Scattered(buf, s, key, cells, |s|)
    ensures buf == Laid(s, key, cells)
  {
    LaidIsPermutation(s, key, cells);
    ScatterPrefix(buf, s, key, cells, cells);
    assert buf[..|buf|] == buf;
  }
}
