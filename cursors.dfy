/**
 * The selection cursor: a position, a size and a shape. A particle is inside
 * when its connection from the cursor, divided by the size, is inside the
 * shape. The random draws of `sampleRandomPoint` and the trigonometry of the
 * outlines are parameters.
 */
module Cursors {
  import opened Vectors
  import opened Particles
  import opened PhysicsEngine
  import opened MathUtils

  /** The three cursor shapes; they hold no state the model needs. */
  datatype CursorShape = Circle | Square | Infinity

  /**
   * `isInside` of the shapes, on a connection already divided by the
   * cursor size: the circle tests the Euclidean length (here its square,
   * which is at most 1 exactly when the length is), the square tests |x| and
   * |y|, and the infinite cursor holds everything.
   */
  predicate Inside(shape: CursorShape, c: Vec3)
  {
    match shape
    case Circle => LengthSquared3(c) <= 1.0
    case Square => Abs(c.x) <= 1.0 && Abs(c.y) <= 1.0
    case Infinity => true
  }

  /** Scaling every component by k scales the squared length by k². */
  lemma LengthSquaredScale(c: Vec3, k: real)
    ensures LengthSquared3(Scale3(c, k)) == k * k * LengthSquared3(c)
  {
  }

  /** A unit direction in the plane, standing for `(cos a, sin a, 0)`. */
  predicate UnitDirection(d: Vec3)
  {
    d.x * d.x + d.y * d.y == 1.0 && d.z == 0.0
  }

  /**
   * The random draws a sample uses: the circle's direction and the square
   * root of a uniform draw, two uniform draws for the square, and two
   * Gaussian draws for the infinite cursor.
   */
  datatype Draws = Draws(direction: Vec3, root: real, u1: real, u2: real, g1: real, g2: real)

  predicate ValidDraws(d: Draws)
  {
    UnitDirection(d.direction) && 0.0 <= d.root && d.root * d.root < 1.0
    && 0.0 <= d.u1 < 1.0 && 0.0 <= d.u2 < 1.0
  }

  /**
   * `sampleRandomPoint` of the shapes: a direction times the root of a
   * draw for the circle, `2u - 1` per axis for the square, two Gaussian
   * values for the infinite cursor; every sample lies in the plane and inside
   * its shape.
   */
  function Sample(shape: CursorShape, d: Draws): (r: Vec3)
    requires ValidDraws(d)
    ensures r.z == 0.0 && Inside(shape, r)
    ensures shape == Square ==> -1.0 <= r.x < 1.0 && -1.0 <= r.y < 1.0
  {
    match shape
    case Circle =>
      var r := Scale3(d.direction, d.root);
      LengthSquaredScale(d.direction, d.root);
      assert LengthSquared3(r) == d.root * d.root;
      r
    case Square => Vec3(2.0 * d.u1 - 1.0, 2.0 * d.u2 - 1.0, 0.0)
    case Infinity => Vec3(d.g1, d.g2, 0.0)
  }

  class Cursor {
    var position: Vec3
    var size: real
    var shape: CursorShape

    /** The field initialisers; the shape is given here, where the source assigns it after construction. */
    constructor (shape0: CursorShape)
      ensures position == Zero3 && size == 0.1 && shape == shape0
    {
      position, size, shape := Zero3, 0.1, shape0;
    }

    /** `isInside`: never for a zero size; otherwise the connection, divided by the size, is inside the shape. */
    predicate IsInside(p: Particle, ph: Physics)
      reads this, p, ph, ph.settings
    {
      size != 0.0 && Inside(shape, Scale3(ph.Connection(position, p.position), 1.0 / size))
    }

    /** A circle cursor of positive size holds the particles whose connection is at most `size` long. */
    lemma CircleInside(p: Particle, ph: Physics)
      requires shape == Circle && size > 0.0
      ensures IsInside(p, ph) <==> LengthSquared3(ph.Connection(position, p.position)) <= size * size
    {
      var c, k := ph.Connection(position, p.position), 1.0 / size;
      LengthSquaredScale(c, k);
      var l := LengthSquared3(c);
      assert k * k * (size * size) == 1.0;
      if l <= size * size {
        assert k * k * l <= k * k * (size * size);
      } else {
        assert k * k * l > k * k * (size * size);
      }
    }

    /** A square cursor holds the particles whose connection is at most |size| along x and along y. */
    lemma SquareInside(p: Particle, ph: Physics)
      requires shape == Square && size != 0.0
      ensures IsInside(p, ph) <==>
        Abs(ph.Connection(position, p.position).x) <= Abs(size) && Abs(ph.Connection(position, p.position).y) <= Abs(size)
    {
      SquareScaled(ph.Connection(position, p.position), size);
    }

    /** `getSelection`'s result, defined on the particle sequence: the particles inside, in order. */
    function Selection(ps: seq<Particle>, ph: Physics): (r: seq<Particle>)
      reads this, ph, ph.settings, set p | p in ps
      ensures |r| <= |ps|
      decreases |ps|
    {
      if |ps| == 0 then []
      else
        var m := |ps| - 1;
        Selection(ps[..m], ph) + (if IsInside(ps[m], ph) then [ps[m]] else [])
    }

    /** A particle is selected exactly when it is one of `ps` and inside the cursor. */
    lemma {:induction false} SelectionMembers(ps: seq<Particle>, ph: Physics, q: Particle)
      ensures q in Selection(ps, ph) <==> q in ps && IsInside(q, ph)
      decreases |ps|
    {
      if |ps| > 0 {
        var m := |ps| - 1;
        SelectionMembers(ps[..m], ph, q);
        assert ps == ps[..m] + [ps[m]];
      }
    }

    /** The infinite cursor with a non-zero size selects every particle, in order. */
    lemma {:induction false} SelectionInfinity(ps: seq<Particle>, ph: Physics)
      requires shape == Infinity && size != 0.0
      ensures Selection(ps, ph) == ps
      decreases |ps|
    {
      if |ps| > 0 {
        var m := |ps| - 1;
        SelectionInfinity(ps[..m], ph);
        assert ps == ps[..m] + [ps[m]];
      }
    }

    /** `getSelection`: the loop over the physics' particles, collecting those inside. */
    method GetSelection(ph: Physics) returns (selected: seq<Particle>)
      ensures selected == Selection(ph.particles[..], ph)
    {
      selected := [];
      var ps := ph.particles;
      for i := 0 to ps.Length
        invariant selected == Selection(ps[..i], ph)
      {
        assert ps[..i + 1][..i] == ps[..i];
        if IsInside(ps[i], ph) {
          selected := selected + [ps[i]];
        }
      }
      assert ps[..ps.Length] == ps[..];
    }

    /** `sampleRandomPoint`: the shape's sample, scaled by the size and moved to the position. */
    function SampleRandomPoint(d: Draws): (r: Vec3)
      requires ValidDraws(d)
      reads this
      ensures r.z == position.z
    {
      Add3(Scale3(Sample(shape, d), size), position)
    }

    /** Moved back and divided by the size, a sampled point is the shape's sample, so it lies inside the shape. */
    lemma SampleInside(d: Draws)
      requires ValidDraws(d) && size != 0.0
      ensures Scale3(Sub3(SampleRandomPoint(d), position), 1.0 / size) == Sample(shape, d)
      ensures Inside(shape, Scale3(Sub3(SampleRandomPoint(d), position), 1.0 / size))
    {
      var s := Sample(shape, d);
      var k := 1.0 / size;
      assert size * k == 1.0;
      assert (s.x * size) * k == s.x * (size * k);
      assert (s.y * size) * k == s.y * (size * k);
      assert (s.z * size) * k == s.z * (size * k);
    }

    /** `copy`: a new cursor with the same position, size and shape. */
    method Copy() returns (c: Cursor)
      ensures fresh(c) && c.position == position && c.size == size && c.shape == shape
    {
      c := new Cursor(shape);
      c.position := position;
      c.size := size;
    }
  }

  /** The square test on a connection divided by a non-zero size is the test against |size|. */
  lemma SquareScaled(c: Vec3, size: real)
    requires size != 0.0
    ensures Inside(Square, Scale3(c, 1.0 / size)) <==> Abs(c.x) <= Abs(size) && Abs(c.y) <= Abs(size)
  {
    var s := Scale3(c, 1.0 / size);
    ScaledWithin(c.x, size, s.x);
    ScaledWithin(c.y, size, s.y);
  }

  /** Dividing by a non-zero size keeps a component within 1 exactly when it is within |size|. */
  lemma ScaledWithin(v: real, size: real, w: real)
    requires size != 0.0 && w == v * (1.0 / size)
    ensures Abs(w) <= 1.0 <==> Abs(v) <= Abs(size)
  {
    var t := Abs(size);
    assert w * size == v;
    if size > 0.0 {
      assert w * t == v && (-w) * t == -v;
    } else {
      assert w * t == -v && (-w) * t == v;
    }
    ScaleStrict(w, 1.0, t);
    ScaleStrict(-w, 1.0, t);
  }

  /** The number of outline segments of the circle cursor. */
  const NumSegments := 96

  /**
   * The circle outline's vertex buffer: point i at angle 2πi/96, stored as x
   * at 2i and y at 2i + 1; `unit(i)` stands for `(cos, sin)` of that angle.
   */
  method CircleVertexData(unit: int -> Vec2) returns (data: array<real>)
    ensures fresh(data) && data.Length == 2 * NumSegments
    ensures forall i :: 0 <= i < NumSegments ==> data[2 * i] == unit(i).x && data[2 * i + 1] == unit(i).y
  {
    data := new real[NumSegments * 2];
    for i := 0 to NumSegments
      invariant forall k :: 0 <= k < i ==> data[2 * k] == unit(k).x && data[2 * k + 1] == unit(k).y
    {
      var v := unit(i);
      data[2 * i] := v.x;
      data[2 * i + 1] := v.y;
    }
  }

  /** The square outline: the four corners, counter-clockwise from (-1, -1). */
  const SquareVertexData: seq<real> := [-1.0, -1.0, 1.0, -1.0, 1.0, 1.0, -1.0, 1.0]

  /** Corner k of the square outline. */
  function SquareCorner(k: int): Vec3
    requires 0 <= k < 4
  {
    Vec3(SquareVertexData[2 * k], SquareVertexData[2 * k + 1], 0.0)
  }

  /**
   * Every corner of the outline is on the square's boundary, and each
   * corner differs from the next (in loop order) in exactly one coordinate.
   */
  lemma SquareOutline(k: int)
    requires 0 <= k < 4
    ensures Inside(Square, SquareCorner(k)) && Abs(SquareCorner(k).x) == 1.0 && Abs(SquareCorner(k).y) == 1.0
    ensures var a, b := SquareCorner(k), SquareCorner((k + 1) % 4);
      (a.x == b.x) != (a.y == b.y)
  {
  }
}
