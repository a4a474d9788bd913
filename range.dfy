/**
 * `Range`: keeping particle coordinates inside the unit square, either by
 * wrapping them around (periodic world) or by clamping them (bounded world),
 * and folding a connection vector onto the shortest periodic image.
 * The vector operations overwrite the given `Vector3d` in place and set its
 * `z` to 0, as the source does; the functions beside them give the value
 * the vector is left with.
 */
module Range {
  import opened Vectors

  /** The fractional part of `v`: the unique point of [0, 1) that differs from `v` by a whole number. */
  function Wrapped(v: real): (r: real)
    ensures 0.0 <= r < 1.0
    ensures (v - r).Floor as real == v - r
  {
    v - v.Floor as real
  }

  /** Wrapping leaves points of [0, 1) alone and is idempotent. */
  lemma WrappedFixesUnitInterval(v: real)
    ensures 0.0 <= v < 1.0 ==> Wrapped(v) == v
    ensures Wrapped(Wrapped(v)) == Wrapped(v)
  {
  }

  /** Shifting by a whole number does not change the wrapped value. */
  lemma WrappedPeriodic(v: real, k: int)
    ensures Wrapped(v + k as real) == Wrapped(v)
  {
    assert (v + k as real).Floor == v.Floor + k;
  }

  /**
   * `Range.wrap(double)`: repeatedly adds 1 while negative, or subtracts 1
   * while at least 1; the result is the fractional part of the input.
   */
  method WrapScalar(v: real) returns (r: real)
    ensures r == Wrapped(v)
    ensures 0.0 <= r < 1.0
  {
    r := v;
    ghost var k: int := 0;
    if r < 0.0 {
      r, k := r + 1.0, 1;
      while r < 0.0
        invariant r < 1.0
        invariant r == v + k as real
        decreases -v.Floor - k
      {
        r, k := r + 1.0, k + 1;
      }
    } else {
      while r >= 1.0
        invariant r >= 0.0
        invariant r == v + k as real
        decreases v.Floor + k
      {
        r, k := r - 1.0, k - 1;
      }
    }
    WrappedPeriodic(v, k);
    WrappedFixesUnitInterval(r);
  }

  /** `Range.wrap(Vector3d)`: the vector's planar coordinates are wrapped into [0, 1) in place, its `z` set to 0. */
  method Wrap(v: Vector3d)
    modifies v
    ensures v.Value() == WrappedVector(old(v.Value()))
    ensures InUnitSquare(v.Value())
  {
    v.x := WrapScalar(v.x);
    v.y := WrapScalar(v.y);
    v.z := 0.0;
  }

  /** The value `wrap` leaves in a vector: both planar coordinates wrapped, `z` = 0; the unit square is kept. */
  function WrappedVector(p: Vec3): (r: Vec3)
    ensures InUnitSquare(r)
    ensures InUnitSquare(p) <==> r == p
  {
    WrappedFixesUnitInterval(p.x);
    WrappedFixesUnitInterval(p.y);
    Vec3(Wrapped(p.x), Wrapped(p.y), 0.0)
  }

  /** The half-open unit square [0, 1) x [0, 1) with `z` = 0, where wrapped positions live. */
  predicate InUnitSquare(p: Vec3)
  {
    0.0 <= p.x < 1.0 && 0.0 <= p.y < 1.0 && p.z == 0.0
  }

  /** `Range.wrapConnection(double)`: a single shift by one into [-0.5, 0.5) for inputs in (-1, 1). */
  function WrapConnectionScalar(v: real): (r: real)
    ensures -1.0 < v < 1.0 ==> -0.5 <= r < 0.5
    ensures -0.5 <= v < 0.5 ==> r == v
    ensures r == v || r == v + 1.0 || r == v - 1.0
  {
    if v < -0.5 then v + 1.0
    else if v >= 0.5 then v - 1.0
    else v
  }

  /**
   * Between two points of [0, 1) the folded difference is the shortest
   * periodic displacement: it is congruent to the plain difference modulo 1
   * and lies in [-0.5, 0.5).
   */
  lemma WrapConnectionShortest(a: real, b: real)
    requires 0.0 <= a < 1.0 && 0.0 <= b < 1.0
    ensures -0.5 <= WrapConnectionScalar(b - a) < 0.5
    ensures Wrapped(WrapConnectionScalar(b - a)) == Wrapped(b - a)
  {
    var d := b - a;
    if d < -0.5 {
      WrappedPeriodic(d, 1);
    } else if d >= 0.5 {
      WrappedPeriodic(d, -1);
    }
  }

  /** `Range.wrapConnection(Vector3d)`: both planar components folded in place, `z` set to 0. */
  method WrapConnection(v: Vector3d)
    modifies v
    ensures v.Value() == FoldedConnection(old(v.Value()))
  {
    v.x := WrapConnectionScalar(v.x);
    v.y := WrapConnectionScalar(v.y);
    v.z := 0.0;
  }

  /** The value `wrapConnection` leaves in a vector. */
  function FoldedConnection(d: Vec3): (r: Vec3)
    ensures -1.0 < d.x < 1.0 && -1.0 < d.y < 1.0 ==>
      -0.5 <= r.x < 0.5 && -0.5 <= r.y < 0.5
    ensures r.z == 0.0
  {
    Vec3(WrapConnectionScalar(d.x), WrapConnectionScalar(d.y), 0.0)
  }

  /** `Range.clamp(double)`. */
  function ClampScalar(v: real): (r: real)
    ensures 0.0 <= r <= 1.0
    ensures 0.0 <= v <= 1.0 ==> r == v
    ensures v < 0.0 ==> r == 0.0
    ensures v > 1.0 ==> r == 1.0
  {
    if v < 0.0 then 0.0
    else if v > 1.0 then 1.0
    else v
  }

  /** `Range.clamp(Vector3d)`: the vector's planar coordinates are clamped into [0, 1] in place, its `z` set to 0. */
  method Clamp(v: Vector3d)
    modifies v
    ensures v.Value() == Clamped(old(v.Value()))
  {
    v.x := ClampScalar(v.x);
    v.y := ClampScalar(v.y);
    v.z := 0.0;
  }

  /** The value `clamp` leaves in a vector. */
  function Clamped(p: Vec3): (r: Vec3)
    ensures 0.0 <= r.x <= 1.0 && 0.0 <= r.y <= 1.0 && r.z == 0.0
    ensures 0.0 <= p.x <= 1.0 && 0.0 <= p.y <= 1.0 ==> r.x == p.x && r.y == p.y
  {
    Vec3(ClampScalar(p.x), ClampScalar(p.y), 0.0)
  }

  /** Clamping twice clamps once. */
  lemma ClampIdempotent(p: Vec3)
    ensures Clamped(Clamped(p)) == Clamped(p)
  {
  }

  /**
   * The worked examples of the class documentation. The clamp example there
   * keeps `z` = 1.0; the code sets `z` to 0, which is what is stated here.
   */
  lemma DocumentedExamples()
    ensures Clamped(Vec3(0.4, -1.3, 2.0)) == Vec3(0.4, 0.0, 0.0)
    ensures WrappedVector(Vec3(0.4, -0.3, 2.0)) == Vec3(0.4, 0.7, 0.0)
  {
    assert (-0.3).Floor == -1;
  }
}
