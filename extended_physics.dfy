/**
 * `ExtendedPhysics`: the type-count operations the application adds to
 * `Physics`. The subclass is modelled as methods taking the `Physics` object
 * they would run on. `getTypeCount` builds the type histogram;
 * `setTypeCount` rebalances the particles to a target histogram, changing
 * the array length when the target total differs; `setTypeCountEqual` asks
 * for ceil(n / k) particles per type, capped by the particles left.
 */
module TypeCounts {
  import opened Wrappers
  import opened Vectors
  import opened Range
  import opened Particles
  import opened ArrayUtils
  import opened Histograms
  import opened PhysicsEngine

  /** The types of the particles of `ps[..i + 1]` are those of `ps[..i]` followed by the type of `ps[i]`. */
  lemma KindsSnoc(ps: seq<Particle>, i: int)
    requires 0 <= i < |ps|
    ensures Kinds(ps[..i + 1]) == Kinds(ps[..i]) + [ps[i].kind]
  {
  }

  /**
   * `getTypeCount`: entry t counts the particles of type t, so the entries
   * add up to the particle count. A particle whose type lies outside
   * [0, size) makes the count fail, as the array index does in the source.
   */
  method GetTypeCount(ph: Physics) returns (counts: array<int>, r: Outcome<TypeCountError>)
    ensures fresh(counts)
    ensures r.Pass? <==> InRange(Kinds(ph.particles[..]), ph.settings.matrix.size)
    ensures r.Pass? ==> counts[..] == Histogram(Kinds(ph.particles[..]), ph.settings.matrix.size)
    ensures r.Pass? ==> Sum(counts[..]) == ph.particles.Length
    ensures r.Fail? ==> Stray(r.error, Kinds(ph.particles[..]), ph.settings.matrix.size)
  {
    counts, r := CountTypes(ph.particles, ph.settings.matrix.size, Kinds(ph.particles[..]));
  }

  /** The histogram of `getTypeCount` over the particle array `ps` and n types; it fails at the first type outside [0, n). */
  method CountTypes(ps: array<Particle>, n: nat, ghost kinds: seq<int>) returns (counts: array<int>, r: Outcome<TypeCountError>)
    requires kinds == Kinds(ps[..])
    ensures fresh(counts)
    ensures r.Pass? <==> InRange(kinds, n)
    ensures r.Pass? ==> counts[..] == Histogram(kinds, n) && Sum(counts[..]) == ps.Length
    ensures r.Fail? ==> Stray(r.error, kinds, n)
  {
    counts := new int[n](_ => 0);
    assert counts[..] == Histogram(kinds[..0], n);
    r := Tally(ps, counts, kinds);
    if r.Pass? {
      HistogramSum(kinds, n);
    }
  }

  /** The loop of `getTypeCount`: each particle's type is counted in `counts`, up to the first type outside the array's range. */
  method Tally(ps: array<Particle>, counts: array<int>, ghost kinds: seq<int>) returns (r: Outcome<TypeCountError>)
    requires kinds == Kinds(ps[..]) && counts[..] == Histogram(kinds[..0], counts.Length)
    modifies counts
    ensures r.Pass? ==> counts[..] == Histogram(kinds, counts.Length) && InRange(kinds, counts.Length)
    ensures r.Fail? ==> Stray(r.error, kinds, counts.Length) && !InRange(kinds, counts.Length)
  {
    var n := counts.Length;
    for i := 0 to ps.Length
      invariant counts[..] == Histogram(kinds[..i], n) && InRange(kinds[..i], n)
    {
      var t := ps[i].kind;
      if t < 0 || t >= n {
        StrayAt(kinds, i, n);
        return Fail(TypeOutOfRange(t, n));
      }
      CountStep(counts[..], kinds, i, n);
      counts[t] := counts[t] + 1;
    }
    assert kinds[..ps.Length] == kinds;
    r := Pass;
  }

  /** A type of `kinds` outside [0, n) is a stray, and `kinds` is then not in range. */
  lemma StrayAt(kinds: seq<int>, i: int, n: int)
    requires 0 <= i < |kinds| && !(0 <= kinds[i] < n)
    ensures Stray(TypeOutOfRange(kinds[i], n), kinds, n) && !InRange(kinds, n)
  {
  }

  /** One step of the histogram loop: counting `kinds[i]` turns the histogram of `kinds[..i]` into that of `kinds[..i + 1]`. */
  lemma CountStep(h: seq<int>, kinds: seq<int>, i: int, n: nat)
    requires 0 <= i < |kinds| && 0 <= kinds[i] < n && h == Histogram(kinds[..i], n) && InRange(kinds[..i], n)
    ensures h[kinds[i] := h[kinds[i]] + 1] == Histogram(kinds[..i + 1], n) && InRange(kinds[..i + 1], n)
  {
    assert kinds[..i + 1] == kinds[..i] + [kinds[i]];
    HistogramStep(kinds[..i], n, kinds[i]);
  }

  /** `Math.ceil(n / (double) k)` for a positive k: the least r with n <= r * k. */
  function CeilDiv(n: int, k: int): (r: int)
    requires k > 0
    ensures (r - 1) * k < n <= r * k
  {
    var q := (-n) / k;
    assert -n == q * k + (-n) % k;
    -q
  }

  /**
   * The target of `setTypeCountEqual` as written: ceil(n / k) particles for
   * each of the first k - 1 types and the rest, possibly negative, for the
   * last.
   */
  function IdealTypeCountAsWritten(n: nat, k: int): (r: seq<int>)
    requires k >= 2
    ensures |r| == k
  {
    var c := CeilDiv(n, k);
    seq(k, t => if t < k - 1 then c else n - (k - 1) * c)
  }

  /** The written target always adds up to n. */
  lemma AsWrittenSum(n: nat, k: int)
    requires k >= 2
    ensures Sum(IdealTypeCountAsWritten(n, k)) == n
  {
    var r := IdealTypeCountAsWritten(n, k);
    var c := CeilDiv(n, k);
    assert r[..k - 1] == seq(k - 1, _ => c);
    ConstantSum(k - 1, c);
  }

  lemma {:induction false} ConstantSum(m: nat, c: int)
    ensures Sum(seq(m, _ => c)) == m * c
  {
    if m > 0 {
      assert seq(m, _ => c)[..m - 1] == seq(m - 1, _ => c);
      ConstantSum(m - 1, c);
    }
  }

  /**
   * 10 particles over 7 types: ceil(10 / 7) = 2 for each of the first six
   * types leaves -2 for the last, a count no histogram can have.
   */
  lemma NegativeTargetExample(kinds: seq<int>)
    ensures IdealTypeCountAsWritten(10, 7)[6] == -2
    ensures Histogram(kinds, 7) != IdealTypeCountAsWritten(10, 7)
  {
    assert CeilDiv(10, 7) == 2;
    assert Histogram(kinds, 7)[6] >= 0;
  }

  /** Type t's share when types are filled in order with up to c particles each. */
  function Share(n: int, c: int, t: int): int
  {
    var rest := n - t * c;
    if rest <= 0 then 0 else if rest < c then rest else c
  }

  /**
   * The target `setTypeCountEqual` evidently means: the types are filled in
   * order with ceil(n / k) particles each until the n particles run out, so
   * no type gets a negative count.
   */
  function IdealTypeCount(n: nat, k: int): (r: seq<int>)
    requires k >= 2
    ensures |r| == k
  {
    var c := CeilDiv(n, k);
    seq(k, t => Share(n, c, t))
  }

  /**
   * The corrected target has no negative entry, adds up to n, and is the
   * written one whenever the written last entry is not negative.
   */
  lemma IdealTypeCountProperties(n: nat, k: int)
    requires k >= 2
    ensures forall t :: 0 <= t < k ==> 0 <= IdealTypeCount(n, k)[t] <= CeilDiv(n, k)
    ensures Sum(IdealTypeCount(n, k)) == n
    ensures IdealTypeCountAsWritten(n, k)[k - 1] >= 0 ==> IdealTypeCount(n, k) == IdealTypeCountAsWritten(n, k)
  {
    var c := CeilDiv(n, k);
    SharesSum(n, c, k);
    MulMonotoneRight(k, c);
    if IdealTypeCountAsWritten(n, k)[k - 1] >= 0 {
      forall t | 0 <= t < k - 1
        ensures Share(n, c, t) == c
      {
        MulBelow(t, k - 1, c);
      }
    }
  }

  lemma MulMonotoneRight(k: int, c: int)
    requires k >= 1 && c >= 0
    ensures c <= k * c
  {
    assert k * c == c + (k - 1) * c;
  }

  /** t * c <= (k - 1) * c - c for t < k - 1 and c >= 0. */
  lemma MulBelow(t: int, m: int, c: int)
    requires 0 <= t < m && c >= 0
    ensures t * c + c <= m * c
  {
    assert m * c == t * c + c + (m - t - 1) * c;
    assert (m - t - 1) * c >= 0;
  }

  lemma MulSucc(k: int, c: int)
    ensures (k + 1) * c == k * c + c
  {
  }

  /** The shares of the first m types add up to min(n, m * c). */
  lemma {:induction false} SharesSum(n: nat, c: nat, m: nat)
    ensures Sum(seq(m, t => Share(n, c, t))) == if n <= m * c then n else m * c
  {
    if m > 0 {
      assert seq(m, t => Share(n, c, t))[..m - 1] == seq(m - 1, t => Share(n, c, t));
      SharesSum(n, c, m - 1);
      MulSucc(m - 1, c);
    }
  }

  /**
   * `setTypeCountEqual`: with at least two types, the particles are
   * brought to the ceil-capped split `IdealTypeCount` of their own number
   * (for 10 particles and 7 types: 2, 2, 2, 2, 2, 0, 0), so the particle
   * count stays and no type gets more than ceil(n / k).
   * With fewer than two types nothing changes. The target adds up to the
   * particle count, so `setTypeCount` takes its branch for an unchanged
   * total, which fails on a particle type outside [0, size) after the
   * shuffle.
   */
  method SetTypeCountEqual(ph: Physics) returns (r: Outcome<TypeCountError>)
    requires ph.Valid()
    modifies ph, ph.particles, set p | p in ph.particles[..]
    ensures ph.Valid() && ph.LayoutKept()
    ensures ph.settings.matrix.size < 2 ==> r == Pass && ph.particles == old(ph.particles) && ph.particles[..] == old(ph.particles[..])
    ensures r.Fail? <==> ph.settings.matrix.size >= 2 && !old(TypesBelow(ph.particles[..], ph.settings.matrix.size))
    ensures r.Fail? ==>
      ShuffledOnly(ph) && unchanged(set p | p in old(ph.particles[..]))
      && Stray(r.error, Kinds(ph.particles[..]), ph.settings.matrix.size)
    ensures r.Pass? && ph.settings.matrix.size >= 2 ==>
      ph.particles.Length == old(ph.particles.Length)
      && Histogram(Kinds(ph.particles[..]), ph.settings.matrix.size) == IdealTypeCount(old(ph.particles.Length), ph.settings.matrix.size)
  {
    var nTypes := ph.settings.matrix.size;
    if nTypes < 2 {
      return Pass;
    }
    var ideal := IdealTypeCountArray(ph.particles.Length, nTypes);
    IdealTypeCountProperties(ph.particles.Length, nTypes);
    r := SetTypeCount(ph, ideal);
  }

  /** The array `setTypeCountEqual` fills, with the corrected last entries. */
  method IdealTypeCountArray(n: nat, k: int) returns (a: array<int>)
    requires k >= 2
    ensures fresh(a) && a[..] == IdealTypeCount(n, k)
  {
    var c := CeilDiv(n, k);
    a := new int[k];
    for t := 0 to k
      invariant a[..t] == IdealTypeCount(n, k)[..t]
    {
      a[t] := Share(n, c, t);
    }
  }

  /** Every particle of `ps` has a type in [0, n). */
  predicate TypesBelow(ps: seq<Particle>, n: int)
    reads set p | p in ps
  {
    forall k :: 0 <= k < |ps| ==> 0 <= ps[k].kind < n
  }

  /**
   * The partition loop of `setTypeCount`: a particle whose type is still
   * short of its target stays in front and is counted; any other is swapped
   * to the back. The array ends up a permutation of itself whose first
   * `kept` particles stay within the targets. A particle the loop reaches
   * with a type outside [0, size) stops it with a failure, the array
   * partly partitioned.
   */
  method KeepWanted(ps: array<Particle>, typeCount: array<int>) returns (kept: nat, actual: array<int>, ghost ks: seq<int>, r: Outcome<TypeCountError>)
    requires forall t :: 0 <= t < typeCount.Length ==> typeCount[t] >= 0
    modifies ps
    ensures fresh(actual) && actual.Length == typeCount.Length
    ensures multiset(ps[..]) == multiset(old(ps[..]))
    ensures r.Fail? ==> Stray(r.error, Kinds(ps[..]), typeCount.Length)
    ensures TypesBelow(ps[..], typeCount.Length) ==> r.Pass?
    ensures kept <= ps.Length
    ensures |ks| == kept && (forall k :: 0 <= k < kept ==> ks[k] == ps[k].kind) && InRange(ks, typeCount.Length)
    ensures actual[..] == Histogram(ks, typeCount.Length) && Sum(actual[..]) == kept
    ensures forall t :: 0 <= t < typeCount.Length ==> actual[t] <= typeCount[t]
  {
    actual := new int[typeCount.Length](_ => 0);
    kept, ks, r := Partition(ps, typeCount, actual);
    HistogramSum(ks, typeCount.Length);
  }

  /** The loop of `KeepWanted`, with `ks` the types of the kept particles. */
  method Partition(ps: array<Particle>, typeCount: array<int>, actual: array<int>) returns (i: nat, ghost ks: seq<int>, r: Outcome<TypeCountError>)
    requires actual.Length == typeCount.Length && actual != typeCount
    requires forall t :: 0 <= t < typeCount.Length ==> actual[t] == 0 <= typeCount[t]
    modifies ps, actual
    ensures i <= ps.Length && multiset(ps[..]) == multiset(old(ps[..]))
    ensures r.Fail? ==> Stray(r.error, Kinds(ps[..]), typeCount.Length)
    ensures TypesBelow(ps[..], typeCount.Length) ==> r.Pass?
    ensures |ks| == i && (forall k :: 0 <= k < i ==> ks[k] == ps[k].kind) && InRange(ks, typeCount.Length)
    ensures actual[..] == Histogram(ks, typeCount.Length)
    ensures forall t :: 0 <= t < typeCount.Length ==> actual[t] <= typeCount[t]
  {
    var nTypes := typeCount.Length;
    ks := [];
    assert actual[..] == Histogram(ks, nTypes);
    i := 0;
    var j := ps.Length - 1;
    while i < j
      invariant 0 <= i <= j + 1 <= ps.Length
      invariant multiset(ps[..]) == multiset(old(ps[..]))
      invariant |ks| == i && (forall k :: 0 <= k < i ==> ks[k] == ps[k].kind) && InRange(ks, nTypes)
      invariant actual[..] == Histogram(ks, nTypes)
      invariant forall t :: 0 <= t < nTypes ==> actual[t] <= typeCount[t]
      decreases j - i
    {
      var t := ps[i].kind;
      if t < 0 || t >= nTypes {
        assert Kinds(ps[..])[i] == t;
        return i, ks, Fail(TypeOutOfRange(t, nTypes));
      }
      if actual[t] < typeCount[t] {
        HistogramStep(ks, nTypes, t);
        ks := ks + [t];
        actual[t] := actual[t] + 1;
        i := i + 1;
      } else {
        Swap(ps, i, j);
        j := j - 1;
      }
    }
    r := Pass;
  }

  /**
   * The array of `setTypeCount` for a new total: the first min(newCount,
   * ps.Length) particles of `ps`, then new particles.
   */
  method CopyAndFill(ps: array<Particle>, newCount: nat) returns (b: array<Particle>)
    requires Distinct(ps[..])
    ensures fresh(b) && b.Length == newCount && Distinct(b[..])
    ensures forall k :: 0 <= k < newCount && k < ps.Length ==> b[k] == ps[k]
    ensures forall k :: ps.Length <= k < newCount ==> fresh(b[k])
  {
    var filler := new Particle();
    b := new Particle[newCount](_ => filler);
    var copyLength := if newCount < ps.Length then newCount else ps.Length;
    var k := 0;
    while k < copyLength
      invariant 0 <= k <= copyLength
      invariant b[..k] == ps[..k]
    {
      b[k] := ps[k];
      k := k + 1;
    }
    assert Distinct(b[..k]);
    while k < newCount
      invariant copyLength <= k <= newCount
      invariant b[..copyLength] == ps[..copyLength]
      invariant forall m :: copyLength <= m < k ==> fresh(b[m])
      invariant Distinct(b[..k])
    {
      b[k] := new Particle();
      k := k + 1;
    }
    assert b[..k] == b[..];
  }

  /**
   * The last loop of `setTypeCount` for a new total: each particle from
   * index `from` on takes the first type still short of its target and a
   * new position. The kept particles before `from` are untouched.
   */
  method AssignDeficitTypes(ph: Physics, b: array<Particle>, from: nat, actual: array<int>, typeCount: array<int>, ghost kept: seq<int>)
    requires from <= b.Length && Distinct(b[..])
    requires actual.Length == typeCount.Length && actual != typeCount
    requires |kept| == from && InRange(kept, typeCount.Length) && forall k :: 0 <= k < from ==> kept[k] == b[k].kind
    requires actual[..] == Histogram(kept, typeCount.Length)
    requires forall t :: 0 <= t < typeCount.Length ==> actual[t] <= typeCount[t]
    requires Sum(typeCount[..]) == b.Length
    modifies actual, set p | p in b[..]
    ensures actual[..] == typeCount[..]
    ensures forall k :: 0 <= k < from ==> b[k].State() == old(b[k].State())
    ensures forall k :: from <= k < b.Length ==> Placed(ph.settings.wrap, b[k])
    ensures Histogram(Kinds(b[..]), typeCount.Length) == typeCount[..]
    ensures TypesBelow(b[..], typeCount.Length)
  {
    var nTypes := typeCount.Length;
    ghost var ks := kept;
    ghost var wrap := ph.settings.wrap;
    ghost var olds := States(b[..]);
    var i := from;
    while i < b.Length
      invariant from <= i <= b.Length
      invariant |ks| == i && forall k :: 0 <= k < i ==> ks[k] == b[k].kind
      invariant actual[..] == Histogram(ks, nTypes) && InRange(ks, nTypes)
      invariant forall t :: 0 <= t < nTypes ==> actual[t] <= typeCount[t]
      invariant forall k :: 0 <= k < from ==> b[k].State() == olds[k]
      invariant forall k :: from <= k < i ==> Placed(wrap, b[k])
    {
      ks := AssignStep(ph, wrap, b, from, i, actual, typeCount, ks, olds);
      i := i + 1;
    }
    HistogramSum(ks, nTypes);
    BoundedWithEqualSum(actual[..], typeCount[..]);
    assert ks == Kinds(b[..]);
    KindsInRange(b[..], nTypes);
  }

  method AssignStep(ph: Physics, ghost wrap: bool, b: array<Particle>, from: nat, i: nat, actual: array<int>, typeCount: array<int>, ghost ks: seq<int>, ghost olds: seq<ParticleState>)
      returns (ghost ks': seq<int>)
    requires wrap == ph.settings.wrap
    requires from <= i < b.Length == |olds| && Distinct(b[..])
    requires actual.Length == typeCount.Length && actual != typeCount
    requires |ks| == i && forall k :: 0 <= k < i ==> ks[k] == b[k].kind
    requires actual[..] == Histogram(ks, typeCount.Length) && InRange(ks, typeCount.Length)
    requires forall t :: 0 <= t < typeCount.Length ==> actual[t] <= typeCount[t]
    requires Sum(typeCount[..]) == b.Length
    requires forall k :: 0 <= k < from ==> b[k].State() == olds[k]
    requires forall k :: from <= k < i ==> Placed(wrap, b[k])
    modifies actual, b[i]
    ensures |ks'| == i + 1 && forall k :: 0 <= k < i + 1 ==> ks'[k] == b[k].kind
    ensures actual[..] == Histogram(ks', typeCount.Length) && InRange(ks', typeCount.Length)
    ensures forall t :: 0 <= t < typeCount.Length ==> actual[t] <= typeCount[t]
    ensures forall k :: 0 <= k < from ==> b[k].State() == olds[k]
    ensures forall k :: from <= k < i + 1 ==> Placed(wrap, b[k])
  {
    assert forall k :: 0 <= k < b.Length && k != i ==> b[k] != b[i];
    HistogramSum(ks, typeCount.Length);
    var t := AssignDeficitType(ph, wrap, b[i], actual, typeCount);
    HistogramStep(ks, typeCount.Length, t);
    ks' := ks + [t];
  }

  /**
   * One step of that loop: `p` takes the first type short of its target and
   * a new position, and that type's count goes up by one.
   */
  method AssignDeficitType(ph: Physics, ghost wrap: bool, p: Particle, actual: array<int>, typeCount: array<int>) returns (t: int)
    requires wrap == ph.settings.wrap
    requires actual.Length == typeCount.Length && actual != typeCount
    requires Sum(actual[..]) < Sum(typeCount[..])
    modifies p, actual
    ensures 0 <= t < actual.Length && old(actual[t]) < typeCount[t]
    ensures forall u :: 0 <= u < t ==> old(actual[u]) >= typeCount[u]
    ensures actual[..] == old(actual[..])[t := old(actual[t]) + 1]
    ensures p.kind == t && Placed(wrap, p)
  {
    DeficitExists(actual[..], typeCount[..]);
    t := FindFirstIndexWithLess(actual, typeCount);
    p.kind := t;
    ph.SetPosition(p);
    actual[t] := actual[t] + 1;
  }

  /** Where `setPosition` leaves a particle: in bounds and at rest. */
  predicate Placed(wrap: bool, p: Particle)
    reads p
  {
    InBounds(wrap, p.position) && p.velocity == Zero3
  }

  /**
   * The loop of `setTypeCount` for an unchanged total: a particle whose type
   * has more particles than its target takes the first type short of its
   * target. Positions and velocities stay, and only particles of a type
   * that started above its target change type, to one that started below.
   */
  method RebalanceInPlace(ps: seq<Particle>, actual: array<int>, typeCount: array<int>)
    requires Distinct(ps) && actual.Length == typeCount.Length && actual != typeCount
    requires TypesBelow(ps, typeCount.Length) && actual[..] == Histogram(Kinds(ps), typeCount.Length)
    requires Sum(typeCount[..]) == |ps| && forall t :: 0 <= t < typeCount.Length ==> typeCount[t] >= 0
    modifies actual, set p | p in ps
    ensures Histogram(Kinds(ps), typeCount.Length) == typeCount[..] && TypesBelow(ps, typeCount.Length)
    ensures forall k :: 0 <= k < |ps| ==>
      ps[k].position == old(ps[k].position) && ps[k].velocity == old(ps[k].velocity)
    ensures forall k :: 0 <= k < |ps| && ps[k].kind != old(ps[k].kind) ==>
      old(actual[..])[ps[k].kind] < typeCount[ps[k].kind] && old(actual[..])[old(ps[k].kind)] > typeCount[old(ps[k].kind)]
  {
    ghost var start, before := Kinds(ps), actual[..];
    KindsInRange(ps, typeCount.Length);
    ghost var ks := RebalanceLoop(ps, actual, typeCount, start, before);
    RunFinish(start, before, typeCount[..], ks, actual[..]);
    KindsAre(ps, ks);
    forall k | 0 <= k < |ps| && ps[k].kind != old(ps[k].kind)
      ensures old(actual[..])[ps[k].kind] < typeCount[ps[k].kind] && old(actual[..])[old(ps[k].kind)] > typeCount[old(ps[k].kind)]
    {
      assert ks[k] == ps[k].kind && start[k] == old(ps[k].kind) && ks[k] != start[k];
    }
  }

  /**
   * The loop of `RebalanceInPlace`, on the ghost types `ks` it keeps beside
   * the particles: the run of `RunTo` from the types `start` and the counts
   * `before` to the end.
   */
  method RebalanceLoop(ps: seq<Particle>, actual: array<int>, typeCount: array<int>, ghost start: seq<int>, ghost before: seq<int>)
      returns (ghost ks: seq<int>)
    requires Distinct(ps) && actual.Length == typeCount.Length && actual != typeCount
    requires start == Kinds(ps) && before == actual[..]
    requires InRange(start, typeCount.Length) && before == Histogram(start, typeCount.Length)
    requires Sum(typeCount[..]) == |ps| && forall t :: 0 <= t < typeCount.Length ==> typeCount[t] >= 0
    modifies actual, set p | p in ps
    ensures |ks| == |ps| && forall k :: 0 <= k < |ps| ==> ks[k] == ps[k].kind
    ensures forall k :: 0 <= k < |ps| ==>
      ps[k].position == old(ps[k].position) && ps[k].velocity == old(ps[k].velocity)
    ensures (ks, actual[..]) == RunTo(start, before, typeCount[..], |ps|)
  {
    var n := |ps|;
    ghost var target := typeCount[..];
    ks := start;
    for i := 0 to n
      invariant |ks| == n && forall k :: 0 <= k < n ==> ks[k] == ps[k].kind
      invariant forall k :: 0 <= k < n ==> ps[k].position == old(ps[k].position) && ps[k].velocity == old(ps[k].velocity)
      invariant typeCount[..] == target && (ks, actual[..]) == RunTo(start, before, target, i)
    {
      ks := RebalanceBody(ps, i, actual, typeCount, ks, start, before, target);
    }
  }

  /** One round of the loop of `RebalanceLoop`: the particles and counts follow `RunTo` from i to i + 1. */
  method RebalanceBody(ps: seq<Particle>, i: nat, actual: array<int>, typeCount: array<int>,
                       ghost ks: seq<int>, ghost start: seq<int>, ghost before: seq<int>, ghost target: seq<int>)
      returns (ghost ks': seq<int>)
    requires i < |ps| && Distinct(ps) && actual != typeCount && actual.Length == typeCount.Length
    requires |ks| == |ps| && forall k :: 0 <= k < |ps| ==> ks[k] == ps[k].kind
    requires |start| == |ps| && InRange(start, |target|) && before == Histogram(start, |target|)
    requires typeCount[..] == target && Sum(target) == |start|
    requires (ks, actual[..]) == RunTo(start, before, target, i)
    modifies actual, ps[i]
    ensures |ks'| == |ps| && forall k :: 0 <= k < |ps| ==> ks'[k] == ps[k].kind
    ensures forall k :: 0 <= k < |ps| ==> ps[k].position == old(ps[k].position) && ps[k].velocity == old(ps[k].velocity)
    ensures (ks', actual[..]) == RunTo(start, before, target, i + 1)
  {
    RunInvariant(start, before, target, i, ks, actual[..]);
    if actual[ks[i]] > typeCount[ks[i]] {
      DeficitWhileSurplus(ks, actual[..], target, i);
    }
    ks' := RebalanceStep(ps, i, actual, typeCount, ks);
  }

  /**
   * What the whole run leaves: every count at its target, and every change
   * of type a move from a type above its target to one below it.
   */
  lemma RunFinish(start: seq<int>, before: seq<int>, target: seq<int>, ks: seq<int>, h: seq<int>)
    requires |before| == |target| && InRange(start, |target|)
    requires before == Histogram(start, |target|) && Sum(target) == |start|
    requires forall t :: 0 <= t < |target| ==> target[t] >= 0
    requires (ks, h) == RunTo(start, before, target, |start|)
    ensures Histogram(ks, |target|) == target && InRange(ks, |target|) && |ks| == |start|
    ensures MovedWell(ks, start, before, target, |ks|)
  {
    RunInvariant(start, before, target, |start|, ks, h);
    RebalancingDone(ks, h, target, start, before);
  }

  /** The types read off the particles are the ghost types the loop kept. */
  lemma KindsAre(ps: seq<Particle>, ks: seq<int>)
    requires |ks| == |ps| && forall k :: 0 <= k < |ps| ==> ks[k] == ps[k].kind
    ensures Kinds(ps) == ks
  {
  }

  /** The types counted by `h` are those of `ks`, all in range. */
  ghost predicate Counted(ks: seq<int>, h: seq<int>, target: seq<int>)
  {
    |h| == |target| && InRange(ks, |target|) && h == Histogram(ks, |target|)
  }

  /** Every particle met so far has a type within its target. */
  ghost predicate Settled(ks: seq<int>, h: seq<int>, target: seq<int>, i: nat)
    requires Counted(ks, h, target) && i <= |ks|
  {
    forall k :: 0 <= k < i ==> h[ks[k]] <= target[ks[k]]
  }

  /** The particles not met yet keep their type. */
  ghost predicate Untouched(ks: seq<int>, start: seq<int>, i: nat)
  {
    |ks| == |start| && i <= |ks| && forall k :: i <= k < |ks| ==> ks[k] == start[k]
  }

  /** A particle that changed type went from a type above its target to one below it. */
  ghost predicate MovedWell(ks: seq<int>, start: seq<int>, before: seq<int>, target: seq<int>, i: nat)
    requires |ks| == |start| && i <= |ks| && |before| == |target|
    requires InRange(ks, |target|) && InRange(start, |target|)
  {
    forall k :: 0 <= k < i && ks[k] != start[k] ==>
      before[ks[k]] < target[ks[k]] && before[start[k]] > target[start[k]]
  }

  /** No count has moved away from its target since the loop began. */
  ghost predicate Approaching(h: seq<int>, target: seq<int>, before: seq<int>)
    requires |h| == |target| == |before|
  {
    (forall t :: 0 <= t < |h| && h[t] > target[t] ==> h[t] <= before[t])
    && (forall t :: 0 <= t < |h| && h[t] < target[t] ==> h[t] >= before[t])
  }

  /**
   * The state of the rebalancing loop before particle i, on the types alone:
   * `ks` are the current types and `start` those on entry, `h` counts `ks`,
   * and the four facts above hold.
   */
  ghost predicate Rebalancing(ks: seq<int>, h: seq<int>, target: seq<int>, i: nat, start: seq<int>, before: seq<int>)
  {
    Counted(ks, h, target) && Untouched(ks, start, i) && |before| == |target| && InRange(start, |target|)
    && Settled(ks, h, target, i) && MovedWell(ks, start, before, target, i) && Approaching(h, target, before)
  }

  /** On entry nothing is met and nothing has moved. */
  lemma RebalancingStart(start: seq<int>, before: seq<int>, target: seq<int>)
    requires InRange(start, |target|) && before == Histogram(start, |target|)
    ensures Rebalancing(start, before, target, 0, start, before)
  {
  }

  /**
   * After the last particle every count is within its target, and since the
   * targets add up to the number of particles, every count is its target.
   */
  lemma RebalancingDone(ks: seq<int>, h: seq<int>, target: seq<int>, start: seq<int>, before: seq<int>)
    requires Rebalancing(ks, h, target, |ks|, start, before)
    requires Sum(target) == |ks| && forall t :: 0 <= t < |target| ==> target[t] >= 0
    ensures Histogram(ks, |target|) == target && InRange(ks, |target|)
  {
    NoSurplusLeft(h, target, ks);
    HistogramSum(ks, |target|);
    BoundedWithEqualSum(h, target);
  }

  /** A particle whose type is within its target keeps it. */
  lemma KeepStep(ks: seq<int>, h: seq<int>, target: seq<int>, i: nat, start: seq<int>, before: seq<int>)
    requires Rebalancing(ks, h, target, i, start, before) && i < |ks| && h[ks[i]] <= target[ks[i]]
    ensures Rebalancing(ks, h, target, i + 1, start, before)
  {
  }

  /**
   * While a type is above its target, some type is below it: the targets add
   * up to the number of particles.
   */
  lemma DeficitWhileSurplus(ks: seq<int>, h: seq<int>, target: seq<int>, i: nat)
    requires Counted(ks, h, target) && i < |ks| && h[ks[i]] > target[ks[i]]
    requires Sum(target) == |ks|
    ensures 0 <= FirstIndexWithLess(h, target) < |h|
  {
    HistogramSum(ks, |target|);
    SurplusMeansDeficit(h, target, ks[i]);
  }

  /** `findFirstIndexWithLess` on the counts and the targets. */
  method FirstDeficit(actual: array<int>, typeCount: array<int>) returns (u: int)
    requires actual.Length == typeCount.Length
    ensures u == FirstIndexWithLess(actual[..], typeCount[..])
  {
    u := FindFirstIndexWithLess(actual, typeCount);
    FirstIndexWithLessUnique(actual[..], typeCount[..], u);
  }

  /**
   * A particle of a type above its target moving to a type below its target
   * moves one count from the old type to the new, and the loop state holds
   * for the next particle.
   */
  lemma MoveStep(ks: seq<int>, h: seq<int>, target: seq<int>, i: nat, start: seq<int>, before: seq<int>, u: int)
    requires Rebalancing(ks, h, target, i, start, before) && i < |ks| && h[ks[i]] > target[ks[i]]
    requires 0 <= u < |h| && h[u] < target[u]
    ensures ks[i] != u
    ensures Rebalancing(ks[i := u], h[ks[i] := h[ks[i]] - 1][u := h[u] + 1], target, i + 1, start, before)
  {
    var t := ks[i];
    var ks', h' := ks[i := u], h[t := h[t] - 1][u := h[u] + 1];
    MoveCounted(ks, h, target, i, u);
    MoveSettled(ks, h, target, i, u);
    MoveMovedWell(ks, h, target, i, start, before, u);
    MoveApproaching(h, target, before, t, u);
    assert Untouched(ks', start, i + 1);
  }

  lemma MoveCounted(ks: seq<int>, h: seq<int>, target: seq<int>, i: nat, u: int)
    requires Counted(ks, h, target) && i < |ks| && 0 <= u < |h| && ks[i] != u
    ensures Counted(ks[i := u], h[ks[i] := h[ks[i]] - 1][u := h[u] + 1], target)
  {
    var n := |target|;
    var t := ks[i];
    var ks', h' := ks[i := u], h[t := h[t] - 1][u := h[u] + 1];
    HistogramChange(ks, n, i, u);
    assert forall s :: 0 <= s < n ==> h'[s] == Histogram(ks', n)[s];
    assert h' == Histogram(ks', n);
  }

  lemma MoveSettled(ks: seq<int>, h: seq<int>, target: seq<int>, i: nat, u: int)
    requires Counted(ks, h, target) && i < |ks| && Settled(ks, h, target, i)
    requires 0 <= u < |h| && h[u] < target[u] && h[ks[i]] > target[ks[i]]
    requires Counted(ks[i := u], h[ks[i] := h[ks[i]] - 1][u := h[u] + 1], target)
    ensures Settled(ks[i := u], h[ks[i] := h[ks[i]] - 1][u := h[u] + 1], target, i + 1)
  {
    var t := ks[i];
    var ks', h' := ks[i := u], h[t := h[t] - 1][u := h[u] + 1];
    forall k | 0 <= k < i + 1 ensures h'[ks'[k]] <= target[ks'[k]] {
      if k < i {
        assert ks'[k] == ks[k];
        assert h[ks[k]] <= target[ks[k]];
      }
    }
  }

  lemma MoveMovedWell(ks: seq<int>, h: seq<int>, target: seq<int>, i: nat, start: seq<int>, before: seq<int>, u: int)
    requires Rebalancing(ks, h, target, i, start, before) && i < |ks| && h[ks[i]] > target[ks[i]]
    requires 0 <= u < |h| && h[u] < target[u]
    ensures MovedWell(ks[i := u], start, before, target, i + 1)
  {
    var ks' := ks[i := u];
    forall k | 0 <= k < i + 1 && ks'[k] != start[k]
      ensures before[ks'[k]] < target[ks'[k]] && before[start[k]] > target[start[k]]
    {
      if k < i {
        assert ks'[k] == ks[k];
      } else {
        assert ks'[k] == u && start[k] == ks[i];
      }
    }
  }

  lemma MoveApproaching(h: seq<int>, target: seq<int>, before: seq<int>, t: int, u: int)
    requires |h| == |target| == |before| && Approaching(h, target, before)
    requires 0 <= t < |h| && 0 <= u < |h| && h[t] > target[t] && h[u] < target[u]
    ensures Approaching(h[t := h[t] - 1][u := h[u] + 1], target, before)
  {
  }

  /**
   * What the loop body does to the types and the counts at particle i: a
   * particle of a type above its target takes the first type below its
   * target, and one count moves from the old type to the new.
   */
  ghost function Advance(ks: seq<int>, h: seq<int>, target: seq<int>, i: nat): (r: (seq<int>, seq<int>))
    requires i < |ks| && |h| == |target| && 0 <= ks[i] < |h|
    ensures |r.0| == |ks| && |r.1| == |h| && (InRange(ks, |h|) ==> InRange(r.0, |h|))
  {
    var t := ks[i];
    var u := FirstIndexWithLess(h, target);
    if h[t] > target[t] && u >= 0 then (ks[i := u], h[t := h[t] - 1][u := h[u] + 1]) else (ks, h)
  }

  /** The types and the counts after the loop has met particles 0 to i - 1. */
  ghost function RunTo(start: seq<int>, before: seq<int>, target: seq<int>, i: nat): (r: (seq<int>, seq<int>))
    requires i <= |start| && |before| == |target| && InRange(start, |target|)
    ensures |r.0| == |start| && |r.1| == |target| && InRange(r.0, |target|)
  {
    if i == 0 then (start, before)
    else
      var prev := RunTo(start, before, target, i - 1);
      Advance(prev.0, prev.1, target, i - 1)
  }

  /** The loop state holds at every point of the run. */
  lemma {:induction false} RunInvariant(start: seq<int>, before: seq<int>, target: seq<int>, i: nat, ks: seq<int>, h: seq<int>)
    requires i <= |start| && |before| == |target| && InRange(start, |target|)
    requires before == Histogram(start, |target|) && Sum(target) == |start|
    requires (ks, h) == RunTo(start, before, target, i)
    ensures Rebalancing(ks, h, target, i, start, before)
  {
    if i == 0 {
      RebalancingStart(start, before, target);
    } else {
      var j := i - 1;
      var (ks0, h0) := RunTo(start, before, target, j);
      assert (ks, h) == Advance(ks0, h0, target, j);
      RunInvariant(start, before, target, j, ks0, h0);
      StepPreserves(ks0, h0, target, j, start, before, ks, h);
    }
  }

  /** The loop state survives one step. */
  lemma StepPreserves(ks: seq<int>, h: seq<int>, target: seq<int>, i: nat, start: seq<int>, before: seq<int>, ks': seq<int>, h': seq<int>)
    requires Rebalancing(ks, h, target, i, start, before) && i < |ks| && Sum(target) == |ks|
    requires (ks', h') == Advance(ks, h, target, i)
    ensures Rebalancing(ks', h', target, i + 1, start, before)
  {
    if h[ks[i]] > target[ks[i]] {
      DeficitWhileSurplus(ks, h, target, i);
      MoveStep(ks, h, target, i, start, before, FirstIndexWithLess(h, target));
    } else {
      KeepStep(ks, h, target, i, start, before);
    }
  }

  /** The loop body of `RebalanceInPlace` for particle i; positions and velocities stay. */
  method RebalanceStep(ps: seq<Particle>, i: nat, actual: array<int>, typeCount: array<int>, ghost ks: seq<int>)
      returns (ghost ks': seq<int>)
    requires i < |ps| && Distinct(ps) && actual != typeCount && actual.Length == typeCount.Length
    requires |ks| == |ps| && forall k :: 0 <= k < |ps| ==> ks[k] == ps[k].kind
    requires 0 <= ks[i] < actual.Length
    requires actual[ks[i]] > typeCount[ks[i]] ==> 0 <= FirstIndexWithLess(actual[..], typeCount[..])
    modifies actual, ps[i]
    ensures (ks', actual[..]) == Advance(ks, old(actual[..]), typeCount[..], i)
    ensures |ks'| == |ps| && forall k :: 0 <= k < |ps| ==> ks'[k] == ps[k].kind
    ensures forall k :: 0 <= k < |ps| ==> ps[k].position == old(ps[k].position) && ps[k].velocity == old(ps[k].velocity)
  {
    var p := ps[i];
    var t := p.kind;
    if actual[t] > typeCount[t] {
      var u := FirstDeficit(actual, typeCount);
      MoveCount(actual, t, u);
      p.kind := u;
      ks' := ks[i := u];
      DistinctOthers(ps, i);
    } else {
      ks' := ks;
    }
  }

  /** One particle changes from type t to type u: one count moves from entry t to entry u. */
  method MoveCount(actual: array<int>, t: int, u: int)
    requires 0 <= t < actual.Length && 0 <= u < actual.Length && t != u
    modifies actual
    ensures actual[..] == old(actual[..])[t := old(actual[t]) - 1][u := old(actual[u]) + 1]
  {
    actual[t] := actual[t] - 1;
    actual[u] := actual[u] + 1;
  }

  /** In a sequence without repetitions, the object at i is at no other index. */
  lemma DistinctOthers(ps: seq<Particle>, i: int)
    requires Distinct(ps) && 0 <= i < |ps|
    ensures forall k :: 0 <= k < |ps| && k != i ==> ps[k] != ps[i]
  {
  }

  /**
   * Once every particle's type is within its target, no entry of the
   * histogram is above its target: a type without particles counts 0.
   */
  lemma NoSurplusLeft(h: seq<int>, target: seq<int>, ks: seq<int>)
    requires |h| == |target| && h == Histogram(ks, |target|) && InRange(ks, |target|)
    requires forall t :: 0 <= t < |target| ==> target[t] >= 0
    requires forall k :: 0 <= k < |ks| ==> h[ks[k]] <= target[ks[k]]
    ensures forall t :: 0 <= t < |target| ==> h[t] <= target[t]
  {
    forall t | 0 <= t < |target|
      ensures h[t] <= target[t]
    {
      if h[t] > 0 {
        assert t in multiset(ks);
        var k :| 0 <= k < |ks| && ks[k] == t;
        assert h[ks[k]] <= target[ks[k]];
      }
    }
  }

  /**
   * Why `setTypeCount` or `getTypeCount` fails: a target array whose length
   * is not the matrix size, or a particle type outside [0, size), which the
   * source uses as an array index.
   */
  datatype TypeCountError = LengthMismatch(got: int, size: int) | TypeOutOfRange(kind: int, size: int)

  /** `e` reports a type of `kinds` that lies outside [0, n). */
  predicate Stray(e: TypeCountError, kinds: seq<int>, n: int)
  {
    e.TypeOutOfRange? && e.size == n && e.kind in kinds && !(0 <= e.kind < n)
  }

  /** Rearranging particles keeps every type in range. */
  lemma TypesBelowPermutation(ps: seq<Particle>, qs: seq<Particle>, n: int)
    requires multiset(ps) == multiset(qs) && TypesBelow(ps, n)
    ensures TypesBelow(qs, n)
  {
    forall k | 0 <= k < |qs|
      ensures 0 <= qs[k].kind < n
    {
      assert qs[k] in multiset(ps);
      var j :| 0 <= j < |ps| && ps[j] == qs[k];
    }
  }

  /** The types of particles whose types are all below n lie in [0, n). */
  lemma KindsInRange(ps: seq<Particle>, n: int)
    ensures TypesBelow(ps, n) <==> InRange(Kinds(ps), n)
  {
  }

  /** What a failed `setTypeCount` leaves behind: the same particle array, rearranged. */
  twostate predicate ShuffledOnly(ph: Physics)
    reads ph, ph.particles
  {
    ph.particles == old(ph.particles) && multiset(ph.particles[..]) == multiset(old(ph.particles[..]))
  }

  /**
   * `setTypeCount`: with fewer than two types nothing happens, and a target
   * array whose length is not the number of types is rejected before
   * anything changes. Otherwise the particle array is shuffled and then
   * brought to the target histogram: in place when the target total is the
   * particle count, and into a new array of the target total otherwise.
   * A particle type outside [0, size) makes it fail after the shuffle: in
   * the branch for an unchanged total always, in the other branch when the
   * partition loop reaches that particle.
   */
  method SetTypeCount(ph: Physics, typeCount: array<int>) returns (r: Outcome<TypeCountError>)
    requires ph.Valid()
    requires forall t :: 0 <= t < typeCount.Length ==> typeCount[t] >= 0
    modifies ph, ph.particles, set p | p in ph.particles[..]
    ensures ph.Valid() && ph.LayoutKept()
    ensures ph.settings.matrix.size < 2 ==> r == Pass
    ensures (r.Fail? && r.error.LengthMismatch?) <==> ph.settings.matrix.size >= 2 && typeCount.Length != ph.settings.matrix.size
    ensures r.Fail? && r.error.LengthMismatch? ==> r.error == LengthMismatch(typeCount.Length, ph.settings.matrix.size)
    ensures (r.Fail? && r.error.LengthMismatch?) || ph.settings.matrix.size < 2 ==>
      ph.particles == old(ph.particles) && ph.particles[..] == old(ph.particles[..])
      && forall k :: 0 <= k < ph.particles.Length ==> ph.particles[k].State() == old(ph.particles[k].State())
    ensures r.Fail? && r.error.TypeOutOfRange? ==>
      ShuffledOnly(ph) && unchanged(set p | p in old(ph.particles[..]))
      && Stray(r.error, Kinds(ph.particles[..]), ph.settings.matrix.size)
    ensures ph.settings.matrix.size >= 2 && typeCount.Length == ph.settings.matrix.size ==>
      (old(TypesBelow(ph.particles[..], ph.settings.matrix.size)) ==> r.Pass?)
      && (Sum(typeCount[..]) == old(ph.particles.Length) && !old(TypesBelow(ph.particles[..], ph.settings.matrix.size)) ==> r.Fail?)
    ensures r.Pass? && ph.settings.matrix.size >= 2 ==>
      typeCount.Length == ph.settings.matrix.size && ph.particles.Length == Sum(typeCount[..])
      && Histogram(Kinds(ph.particles[..]), typeCount.Length) == typeCount[..]
      && TypesBelow(ph.particles[..], typeCount.Length)
  {
    var nTypes := ph.settings.matrix.size;
    if nTypes < 2 {
      return Pass;
    }
    if typeCount.Length != nTypes {
      return Fail(LengthMismatch(typeCount.Length, nTypes));
    }
    r := Retype(ph, typeCount);
  }

  /** `setTypeCount` once the type count has passed its checks: the shuffle, then the rebalancing. */
  method Retype(ph: Physics, typeCount: array<int>) returns (r: Outcome<TypeCountError>)
    requires ph.Valid() && typeCount.Length == ph.settings.matrix.size
    requires forall t :: 0 <= t < typeCount.Length ==> typeCount[t] >= 0
    modifies ph, ph.particles, set p | p in ph.particles[..]
    ensures ph.Valid() && ph.LayoutKept()
    ensures r.Fail? ==>
      ShuffledOnly(ph) && unchanged(set p | p in old(ph.particles[..]))
      && Stray(r.error, Kinds(ph.particles[..]), typeCount.Length)
    ensures old(TypesBelow(ph.particles[..], typeCount.Length)) ==> r.Pass?
    ensures Sum(typeCount[..]) == old(ph.particles.Length) && !old(TypesBelow(ph.particles[..], typeCount.Length)) ==> r.Fail?
    ensures r.Pass? ==>
      ph.particles.Length == Sum(typeCount[..])
      && Histogram(Kinds(ph.particles[..]), typeCount.Length) == typeCount[..]
      && TypesBelow(ph.particles[..], typeCount.Length)
  {
    ShuffleParticles(ph);
    r := Rebalance(ph, typeCount);
  }

  /** The part of `setTypeCount` after the shuffle: the branch for an unchanged total or the one for a new total. */
  method Rebalance(ph: Physics, typeCount: array<int>) returns (r: Outcome<TypeCountError>)
    requires ph.Valid() && typeCount.Length == ph.settings.matrix.size
    requires forall t :: 0 <= t < typeCount.Length ==> typeCount[t] >= 0
    modifies ph, ph.particles, set p | p in ph.particles[..]
    ensures ph.Valid() && ph.LayoutKept()
    ensures r.Fail? ==>
      ShuffledOnly(ph) && unchanged(set p | p in old(ph.particles[..]))
      && Stray(r.error, Kinds(ph.particles[..]), typeCount.Length)
    ensures old(TypesBelow(ph.particles[..], typeCount.Length)) ==> r.Pass?
    ensures Sum(typeCount[..]) == old(ph.particles.Length) && !old(TypesBelow(ph.particles[..], typeCount.Length)) ==> r.Fail?
    ensures r.Pass? ==>
      ph.particles.Length == Sum(typeCount[..])
      && Histogram(Kinds(ph.particles[..]), typeCount.Length) == typeCount[..]
      && TypesBelow(ph.particles[..], typeCount.Length)
  {
    var nTypes := typeCount.Length;
    var newCount := Sum(typeCount[..]);
    ZeroSum(nTypes);
    SumBounded(seq(nTypes, _ => 0), typeCount[..]);
    if newCount != ph.particles.Length {
      var kept;
      r, kept := SetTypeCountNewTotal(ph, typeCount, newCount);
    } else {
      r := SetTypeCountSameTotal(ph, typeCount);
    }
  }

  /** `shuffleParticles`: the particle array becomes a permutation of itself. */
  method ShuffleParticles(ph: Physics)
    requires ph.Valid()
    modifies ph.particles
    ensures ph.Valid()
    ensures multiset(ph.particles[..]) == multiset(old(ph.particles[..]))
    ensures forall p :: p in ph.particles[..] ==> p in old(ph.particles[..])
    ensures TypesBelow(ph.particles[..], ph.settings.matrix.size) <==> old(TypesBelow(ph.particles[..], ph.settings.matrix.size))
  {
    var n := ph.settings.matrix.size;
    Shuffle(ph.particles);
    forall p | p in ph.particles[..]
      ensures p in old(ph.particles[..])
    {
      assert p in multiset(ph.particles[..]);
    }
    PermutationDistinct(old(ph.particles[..]), ph.particles[..]);
    if TypesBelow(old(ph.particles[..]), n) {
      TypesBelowPermutation(old(ph.particles[..]), ph.particles[..], n);
    }
    if TypesBelow(ph.particles[..], n) {
      TypesBelowPermutation(ph.particles[..], old(ph.particles[..]), n);
    }
  }

  /**
   * The branch of `setTypeCount` for a target total equal to the particle
   * count: `getTypeCount` counts the types, failing on a type outside
   * [0, size) before any particle changes, and the histogram is then
   * rebalanced in place.
   */
  method SetTypeCountSameTotal(ph: Physics, typeCount: array<int>) returns (r: Outcome<TypeCountError>)
    requires ph.Valid()
    requires typeCount.Length == ph.settings.matrix.size && Sum(typeCount[..]) == ph.particles.Length
    requires forall t :: 0 <= t < typeCount.Length ==> typeCount[t] >= 0
    modifies set p | p in ph.particles[..]
    ensures ph.Valid()
    ensures r.Pass? <==> old(TypesBelow(ph.particles[..], typeCount.Length))
    ensures r.Fail? ==> unchanged(set p | p in ph.particles[..]) && Stray(r.error, Kinds(ph.particles[..]), typeCount.Length)
    ensures r.Pass? ==> Histogram(Kinds(ph.particles[..]), typeCount.Length) == typeCount[..] && TypesBelow(ph.particles[..], typeCount.Length)
  {
    KindsInRange(ph.particles[..], typeCount.Length);
    var actual;
    actual, r := GetTypeCount(ph);
    if r.Pass? {
      RebalanceCounted(ph, actual, typeCount);
    }
  }

  /**
   * The loop of the branch for an unchanged total, given the histogram
   * `actual` from `getTypeCount`: the types are rebalanced in place, every
   * particle keeps its position and velocity, and the array keeps its
   * particles.
   */
  method RebalanceCounted(ph: Physics, actual: array<int>, typeCount: array<int>)
    requires ph.Valid() && InRange(Kinds(ph.particles[..]), typeCount.Length)
    requires actual.Length == typeCount.Length && actual != typeCount && actual[..] == Histogram(Kinds(ph.particles[..]), typeCount.Length)
    requires Sum(typeCount[..]) == ph.particles.Length && forall t :: 0 <= t < typeCount.Length ==> typeCount[t] >= 0
    modifies actual, set p | p in ph.particles[..]
    ensures ph.Valid()
    ensures Histogram(Kinds(ph.particles[..]), typeCount.Length) == typeCount[..] && TypesBelow(ph.particles[..], typeCount.Length)
    ensures forall k :: 0 <= k < ph.particles.Length ==>
      ph.particles[k].position == old(ph.particles[k].position) && ph.particles[k].velocity == old(ph.particles[k].velocity)
  {
    KindsInRange(ph.particles[..], typeCount.Length);
    RebalanceInPlace(ph.particles[..], actual, typeCount);
  }

  /**
   * The branch of `setTypeCount` for a new total n: the partition keeps the
   * first `kept` particles, whose types fit the targets, and they stay as
   * they were; the new array holds the first min(n, old length) particles
   * of the partitioned array and then new particles; every particle from
   * index `kept` on takes the first type short of its target and a new
   * position. When the partition meets a type outside [0, size) it fails,
   * and the particle array stays in place, partly rearranged.
   */
  method SetTypeCountNewTotal(ph: Physics, typeCount: array<int>, n: nat) returns (r: Outcome<TypeCountError>, kept: nat)
    requires ph.Valid()
    requires typeCount.Length == ph.settings.matrix.size && Sum(typeCount[..]) == n
    requires forall t :: 0 <= t < typeCount.Length ==> typeCount[t] >= 0
    modifies ph, ph.particles, set p | p in ph.particles[..]
    ensures ph.Valid() && ph.LayoutKept()
    ensures r.Fail? ==>
      ShuffledOnly(ph) && unchanged(set p | p in old(ph.particles[..]))
      && Stray(r.error, Kinds(ph.particles[..]), typeCount.Length)
    ensures old(TypesBelow(ph.particles[..], typeCount.Length)) ==> r.Pass?
    ensures r.Pass? ==>
      ph.particles.Length == n && kept <= n
      && Histogram(Kinds(ph.particles[..]), typeCount.Length) == typeCount[..]
      && TypesBelow(ph.particles[..], typeCount.Length)
    ensures r.Pass? ==> forall k :: 0 <= k < n && k < old(ph.particles.Length) ==> ph.particles[k] in old(ph.particles[..])
    ensures r.Pass? ==> forall k :: old(ph.particles.Length) <= k < n ==> fresh(ph.particles[k])
    ensures r.Pass? ==> forall k :: kept <= k < n ==> Placed(ph.settings.wrap, ph.particles[k])
  {
    ghost var before := ph.particles[..];
    var actual;
    ghost var ks;
    kept, actual, ks, r := KeepWanted(ph.particles, typeCount);
    PermutationDistinct(before, ph.particles[..]);
    if TypesBelow(before, typeCount.Length) {
      TypesBelowPermutation(before, ph.particles[..], typeCount.Length);
    }
    if r.Pass? {
      forall p | p in ph.particles[..]
        ensures p in before
      {
        assert p in multiset(ph.particles[..]);
      }
      var b := ReplaceRebuilt(ph, typeCount, n, kept, actual, ks, before);
    }
  }

  /** The branch for a new total after a partition that passed: the particle array becomes the rebuilt one, `b`. */
  method ReplaceRebuilt(ph: Physics, typeCount: array<int>, n: nat, kept: nat, actual: array<int>, ghost ks: seq<int>, ghost before: seq<Particle>)
      returns (b: array<Particle>)
    requires ph.Valid() && multiset(ph.particles[..]) == multiset(before)
    requires typeCount.Length == ph.settings.matrix.size && Sum(typeCount[..]) == n && kept <= ph.particles.Length
    requires actual.Length == typeCount.Length && actual != typeCount
    requires |ks| == kept && (forall k :: 0 <= k < kept ==> ks[k] == ph.particles[k].kind) && InRange(ks, typeCount.Length)
    requires actual[..] == Histogram(ks, typeCount.Length) && Sum(actual[..]) == kept
    requires forall t :: 0 <= t < typeCount.Length ==> actual[t] <= typeCount[t]
    modifies ph, actual, set p | p in ph.particles[..]
    ensures ph.Valid() && ph.LayoutKept() && ph.particles == b && b.Length == n && kept <= n
    ensures Histogram(Kinds(b[..]), typeCount.Length) == typeCount[..] && TypesBelow(b[..], typeCount.Length)
    ensures forall k :: 0 <= k < n && k < old(ph.particles.Length) ==> b[k] in before
    ensures forall k :: old(ph.particles.Length) <= k < n ==> fresh(b[k])
    ensures forall k :: kept <= k < n ==> Placed(ph.settings.wrap, b[k])
  {
    b := RebuiltFrom(ph, ph.particles, typeCount, n, kept, actual, ks, before);
    ph.ReplaceParticles(b);
  }

  /** `Rebuilt`, with the kept prefix traced back to the particles before the partition. */
  method RebuiltFrom(ph: Physics, ps: array<Particle>, typeCount: array<int>, n: nat, kept: nat, actual: array<int>, ghost ks: seq<int>, ghost before: seq<Particle>)
      returns (b: array<Particle>)
    requires Distinct(ps[..]) && multiset(ps[..]) == multiset(before) && Sum(typeCount[..]) == n && kept <= ps.Length
    requires actual.Length == typeCount.Length && actual != typeCount
    requires |ks| == kept && (forall k :: 0 <= k < kept ==> ks[k] == ps[k].kind) && InRange(ks, typeCount.Length)
    requires actual[..] == Histogram(ks, typeCount.Length) && Sum(actual[..]) == kept
    requires forall t :: 0 <= t < typeCount.Length ==> actual[t] <= typeCount[t]
    modifies actual, set p | p in ps[..]
    ensures fresh(b) && b.Length == n && Distinct(b[..]) && kept <= n
    ensures Histogram(Kinds(b[..]), typeCount.Length) == typeCount[..] && TypesBelow(b[..], typeCount.Length)
    ensures forall k :: 0 <= k < n && k < ps.Length ==> b[k] in before
    ensures forall k :: ps.Length <= k < n ==> fresh(b[k])
    ensures forall k :: kept <= k < n ==> Placed(ph.settings.wrap, b[k])
  {
    b := Rebuilt(ph, ps, typeCount, n, kept, actual, ks);
    PrefixFrom(b[..], ps[..], before);
  }

  /** A sequence that starts like a permutation of `before` takes its first entries from `before`. */
  lemma PrefixFrom(b: seq<Particle>, ps: seq<Particle>, before: seq<Particle>)
    requires multiset(ps) == multiset(before)
    requires forall k :: 0 <= k < |b| && k < |ps| ==> b[k] == ps[k]
    ensures forall k :: 0 <= k < |b| && k < |ps| ==> b[k] in before
  {
    forall k | 0 <= k < |b| && k < |ps|
      ensures b[k] in before
    {
      assert ps[k] in multiset(ps);
    }
  }

  /**
   * The rest of the branch for a new total once the partition has passed:
   * the first min(n, ps.Length) particles of `ps` are copied into a new
   * array of length n, which new particles fill up, and every particle from
   * index `kept` on takes the first type short of its target and a new
   * position.
   */
  method Rebuilt(ph: Physics, ps: array<Particle>, typeCount: array<int>, n: nat, kept: nat, actual: array<int>, ghost ks: seq<int>)
      returns (b: array<Particle>)
    requires Distinct(ps[..]) && Sum(typeCount[..]) == n && kept <= ps.Length
    requires actual.Length == typeCount.Length && actual != typeCount
    requires |ks| == kept && (forall k :: 0 <= k < kept ==> ks[k] == ps[k].kind) && InRange(ks, typeCount.Length)
    requires actual[..] == Histogram(ks, typeCount.Length) && Sum(actual[..]) == kept
    requires forall t :: 0 <= t < typeCount.Length ==> actual[t] <= typeCount[t]
    modifies actual, set p | p in ps[..]
    ensures fresh(b) && b.Length == n && Distinct(b[..]) && kept <= n
    ensures Histogram(Kinds(b[..]), typeCount.Length) == typeCount[..] && TypesBelow(b[..], typeCount.Length)
    ensures forall k :: 0 <= k < n && k < ps.Length ==> b[k] == ps[k]
    ensures forall k :: ps.Length <= k < n ==> fresh(b[k])
    ensures forall k :: kept <= k < n ==> Placed(ph.settings.wrap, b[k])
  {
    SumBounded(actual[..], typeCount[..]);
    b := CopyAndFill(ps, n);
    assert b[..kept] == ps[..kept];
    AssignDeficitTypes(ph, b, kept, actual, typeCount, ks);
  }
}
