/**
 * `Coordinates`: the world-to-screen map `screen(x) = map(quad(zoom · (x +
 * shift)))` with its inverse `world`, and the mouse operations that shift and
 * zoom the view while keeping the world point under the mouse in place.
 * Doubles are exact reals; a division the source would do by zero is
 * excluded by a precondition.
 */
module CoordinateMaps {
  import opened Vectors
  import opened Transforms

  /** The fields of a `Coordinates` object, as a value. */
  datatype View = View(width: real, height: real, shift: Vec3, zoom: real)

  /** `map`: x from [-1, 1] onto [0, width] and y onto [0, height]. */
  function Map(v: View, p: Vec2): Vec2
  {
    Vec2((p.x + 1.0) / 2.0 * v.width, (p.y + 1.0) / 2.0 * v.height)
  }

  /** One axis of `map`: -1 goes to 0, 1 to the size, and [-1, 1] stays inside [0, size]. */
  lemma AxisMapRange(t: real, size: real)
    ensures (-1.0 + 1.0) / 2.0 * size == 0.0 && (1.0 + 1.0) / 2.0 * size == size
    ensures size >= 0.0 && -1.0 <= t <= 1.0 ==> 0.0 <= (t + 1.0) / 2.0 * size <= size
  {
    if size >= 0.0 && -1.0 <= t <= 1.0 {
      var f := (t + 1.0) / 2.0;
      assert 0.0 <= f <= 1.0;
      assert f * size <= 1.0 * size;
    }
  }

  /** `map` sends the corners (-1, -1) and (1, 1) to (0, 0) and (width, height), and [-1, 1]² into the screen. */
  lemma MapRange(v: View, p: Vec2)
    ensures Map(v, Vec2(-1.0, -1.0)) == Vec2(0.0, 0.0) && Map(v, Vec2(1.0, 1.0)) == Vec2(v.width, v.height)
    ensures v.width >= 0.0 && -1.0 <= p.x <= 1.0 ==> 0.0 <= Map(v, p).x <= v.width
    ensures v.height >= 0.0 && -1.0 <= p.y <= 1.0 ==> 0.0 <= Map(v, p).y <= v.height
  {
    AxisMapRange(p.x, v.width);
    AxisMapRange(p.y, v.height);
  }

  /** The division in `quad` is by the larger screen dimension, which must not be zero. */
  predicate QuadDefined(v: View)
  {
    if v.width >= v.height then v.width != 0.0 else v.height != 0.0
  }

  /** `quad`: the longer screen axis is shrunk by the aspect ratio, so a square stays square on screen. */
  function Quad(v: View, p: Vec2): Vec2
    requires QuadDefined(v)
  {
    if v.width >= v.height then Vec2(p.x * (v.height / v.width), p.y)
    else Vec2(p.x, p.y * (v.width / v.height))
  }

  /** The factor `quad` applies to x, and the one it applies to y. */
  function QuadX(v: View): real
    requires QuadDefined(v)
  {
    if v.width >= v.height then v.height / v.width else 1.0
  }

  function QuadY(v: View): real
    requires QuadDefined(v)
  {
    if v.width >= v.height then 1.0 else v.width / v.height
  }

  /**
   * On a real screen `quad` fits the square to the smaller dimension: along
   * both axes a unit becomes the same number of pixels, min(width, height).
   */
  lemma QuadFits(v: View, p: Vec2)
    requires v.width > 0.0 && v.height > 0.0
    ensures var q, m := Quad(v, p), if v.width <= v.height then v.width else v.height;
      q.x * v.width == p.x * m && q.y * v.height == p.y * m
  {
    if v.width >= v.height {
      assert v.height / v.width * v.width == v.height;
      assert p.x * (v.height / v.width) * v.width == p.x * v.height;
    } else {
      assert v.width / v.height * v.height == v.width;
      assert p.y * (v.width / v.height) * v.height == p.y * v.width;
    }
  }

  /** `screen`: `map(quad(zoom · (x + shift)))`, on x and y. */
  function ScreenPoint(v: View, p: Vec3): Vec2
    requires QuadDefined(v)
  {
    Map(v, Quad(v, Vec2((p.x + v.shift.x) * v.zoom, (p.y + v.shift.y) * v.zoom)))
  }

  /** One axis of `screen`, with shift s, zoom z, quad factor q and screen size `size`. */
  function AxisScreen(t: real, s: real, z: real, q: real, size: real): real
  {
    (((t + s) * z) * q + 1.0) / 2.0 * size
  }

  /** Screen pixels per world unit along one axis. */
  function Gain(z: real, q: real, size: real): real
  {
    z * q * size / 2.0
  }

  /** `screen` works axis by axis. */
  lemma ScreenAxes(v: View, p: Vec3)
    requires QuadDefined(v)
    ensures ScreenPoint(v, p) == Vec2(AxisScreen(p.x, v.shift.x, v.zoom, QuadX(v), v.width), AxisScreen(p.y, v.shift.y, v.zoom, QuadY(v), v.height))
  {
  }

  /** One axis of `screen` is affine: the gain times (t + s), plus half the size. */
  lemma AxisScreenForm(t: real, s: real, z: real, q: real, size: real)
    ensures AxisScreen(t, s, z, q, size) == Gain(z, q, size) * (t + s) + size / 2.0
  {
    var u := (t + s) * z * q;
    assert (u + 1.0) / 2.0 * size == u * size / 2.0 + size / 2.0;
    assert u * size / 2.0 == Gain(z, q, size) * (t + s);
  }

  /** A non-zero zoom, width and height: what `world` needs to divide by the screen span. */
  predicate Invertible(v: View)
  {
    v.width != 0.0 && v.height != 0.0 && v.zoom != 0.0
  }

  /** Under `Invertible` both gains are non-zero. */
  lemma GainsNonZero(v: View)
    requires Invertible(v)
    ensures QuadDefined(v)
    ensures Gain(v.zoom, QuadX(v), v.width) != 0.0 && Gain(v.zoom, QuadY(v), v.height) != 0.0
  {
    assert QuadX(v) != 0.0 && QuadY(v) != 0.0;
    assert v.zoom * QuadX(v) != 0.0 && v.zoom * QuadY(v) != 0.0;
  }

  /** The screen span of [-1, 1] along one axis is twice the gain. */
  lemma AxisSpan(s: real, z: real, q: real, size: real)
    ensures AxisScreen(1.0, s, z, q, size) - AxisScreen(-1.0, s, z, q, size) == 2.0 * Gain(z, q, size)
  {
    AxisScreenForm(1.0, s, z, q, size);
    AxisScreenForm(-1.0, s, z, q, size);
    var k := Gain(z, q, size);
    assert k * (1.0 + s) - k * (-1.0 + s) == 2.0 * k;
  }

  /** One axis of `world`: the gain undone, then the shift. */
  function AxisWorld(sp: real, s: real, z: real, q: real, size: real): real
    requires Gain(z, q, size) != 0.0
  {
    (sp - size / 2.0) / Gain(z, q, size) - s
  }

  /** `world`: the inverse of `screen` on the plane z = 0, axis by axis. */
  function World(v: View, screenX: real, screenY: real): Vec3
    requires Invertible(v)
  {
    GainsNonZero(v);
    Vec3(AxisWorld(screenX, v.shift.x, v.zoom, QuadX(v), v.width), AxisWorld(screenY, v.shift.y, v.zoom, QuadY(v), v.height), 0.0)
  }

  /**
   * `world` as the source computes it: the screen images of (-1, -1) and
   * (1, 1) are distinct corners, and a screen point is placed between them.
   */
  lemma WorldCorners(v: View, screenX: real, screenY: real)
    requires Invertible(v)
    ensures QuadDefined(v)
    ensures var topLeft, bottomRight := ScreenPoint(v, Vec3(-1.0, -1.0, 0.0)), ScreenPoint(v, Vec3(1.0, 1.0, 0.0));
      bottomRight.x != topLeft.x && bottomRight.y != topLeft.y &&
      World(v, screenX, screenY) == Vec3((screenX - topLeft.x) / (bottomRight.x - topLeft.x) * 2.0 - 1.0,
                                         (screenY - topLeft.y) / (bottomRight.y - topLeft.y) * 2.0 - 1.0, 0.0)
  {
    GainsNonZero(v);
    ScreenAxes(v, Vec3(-1.0, -1.0, 0.0));
    ScreenAxes(v, Vec3(1.0, 1.0, 0.0));
    AxisWorldCorners(screenX, v.shift.x, v.zoom, QuadX(v), v.width);
    AxisWorldCorners(screenY, v.shift.y, v.zoom, QuadY(v), v.height);
  }

  /**
   * One axis of `world` as the source computes it: the screen coordinate
   * placed between the images of -1 and 1, scaled back to [-1, 1].
   */
  lemma AxisWorldCorners(sp: real, s: real, z: real, q: real, size: real)
    requires Gain(z, q, size) != 0.0
    ensures var lo, hi := AxisScreen(-1.0, s, z, q, size), AxisScreen(1.0, s, z, q, size);
      hi != lo && AxisWorld(sp, s, z, q, size) == (sp - lo) / (hi - lo) * 2.0 - 1.0
  {
    var k := Gain(z, q, size);
    var lo := AxisScreen(-1.0, s, z, q, size);
    AxisScreenForm(-1.0, s, z, q, size);
    AxisSpan(s, z, q, size);
    var b := (sp - size / 2.0) / k;
    assert b * k == sp - size / 2.0;
    Quotient(sp - lo, (b - s + 1.0) / 2.0, 2.0 * k);
  }

  /** Division by k, stated as the product it undoes. */
  lemma Quotient(a: real, b: real, k: real)
    requires k != 0.0 && b * k == a
    ensures a / k == b
  {
  }

  /** Along one axis `world` and `screen` are inverse to each other. */
  lemma AxisInverse(t: real, sp: real, s: real, z: real, q: real, size: real)
    requires Gain(z, q, size) != 0.0
    ensures AxisWorld(AxisScreen(t, s, z, q, size), s, z, q, size) == t
    ensures AxisScreen(AxisWorld(sp, s, z, q, size), s, z, q, size) == sp
  {
    var k := Gain(z, q, size);
    AxisScreenForm(t, s, z, q, size);
    assert (k * (t + s) + size / 2.0 - size / 2.0) / k == t + s;
    var u := AxisWorld(sp, s, z, q, size);
    AxisScreenForm(u, s, z, q, size);
    assert k * ((sp - size / 2.0) / k) == sp - size / 2.0;
  }

  /** For non-zero zoom, width and height, `world` inverts `screen` on the plane. */
  lemma WorldInvertsScreen(v: View, p: Vec3)
    requires Invertible(v)
    ensures QuadDefined(v)
    ensures World(v, ScreenPoint(v, p).x, ScreenPoint(v, p).y) == Vec3(p.x, p.y, 0.0)
  {
    var sp := ScreenPoint(v, p);
    GainsNonZero(v);
    ScreenAxes(v, p);
    AxisInverse(p.x, 0.0, v.shift.x, v.zoom, QuadX(v), v.width);
    AxisInverse(p.y, 0.0, v.shift.y, v.zoom, QuadY(v), v.height);
  }

  /** For non-zero zoom, width and height, `screen` inverts `world`. */
  lemma ScreenInvertsWorld(v: View, screenX: real, screenY: real)
    requires Invertible(v)
    ensures QuadDefined(v)
    ensures ScreenPoint(v, World(v, screenX, screenY)) == Vec2(screenX, screenY)
  {
    var w := World(v, screenX, screenY);
    GainsNonZero(v);
    ScreenAxes(v, w);
    AxisInverse(0.0, screenX, v.shift.x, v.zoom, QuadX(v), v.width);
    AxisInverse(0.0, screenY, v.shift.y, v.zoom, QuadY(v), v.height);
  }

  /** `mouseShift`'s new view: the world offset between the two mouse positions is added to the shift. */
  function ShiftedBy(v: View, mouseBefore: Vec2, mouseAfter: Vec2): View
    requires Invertible(v)
  {
    var w1 := World(v, mouseBefore.x, mouseBefore.y);
    var w2 := World(v, mouseAfter.x, mouseAfter.y);
    v.(shift := Sub3(Add3(v.shift, w2), w1))
  }

  /** After `mouseShift`, the world point that was under mouseBefore is under mouseAfter. */
  lemma MouseShiftKeepsPoint(v: View, mouseBefore: Vec2, mouseAfter: Vec2)
    requires Invertible(v)
    ensures Invertible(ShiftedBy(v, mouseBefore, mouseAfter))
    ensures World(ShiftedBy(v, mouseBefore, mouseAfter), mouseAfter.x, mouseAfter.y) == World(v, mouseBefore.x, mouseBefore.y)
  {
    var v2 := ShiftedBy(v, mouseBefore, mouseAfter);
    GainsNonZero(v);
  }

  /** `zoomInOnMouse`'s new view: zoom times the factor, shift rescaled about the world point under the mouse. */
  function ZoomedIn(v: View, mouse: Vec2, zoomFactor: real): View
    requires Invertible(v) && zoomFactor != 0.0
  {
    var w := World(v, mouse.x, mouse.y);
    var s := v.shift;
    v.(zoom := v.zoom * zoomFactor, shift := Vec3((w.x + s.x) / zoomFactor - w.x, (w.y + s.y) / zoomFactor - w.y, (w.z + s.z) / zoomFactor - w.z))
  }

  /** Zooming by f multiplies the gain by f. */
  lemma GainScale(z: real, q: real, size: real, f: real)
    ensures Gain(z * f, q, size) == Gain(z, q, size) * f
  {
  }

  /** The zoom's algebra: dividing by the gain k·f after rescaling the shift gives back the same point w. */
  lemma ZoomAlgebra(a: real, k: real, f: real, s: real)
    requires k != 0.0 && f != 0.0
    ensures var w := a / k - s; a / (k * f) - ((w + s) / f - w) == w
  {
    var b := a / k;
    assert b * k == a;
    assert (b / f) * f == b;
    assert (b / f) * (k * f) == a;
    Quotient(a, b / f, k * f);
  }

  /** One axis of the zoom: with the zoom multiplied by f and the shift rescaled about w, the world point w stays. */
  lemma AxisZoomKeeps(sp: real, s: real, z: real, q: real, size: real, f: real, w: real, s2: real, z2: real)
    requires Gain(z, q, size) != 0.0 && f != 0.0 && z2 == z * f
    requires w == AxisWorld(sp, s, z, q, size) && s2 == (w + s) / f - w
    ensures Gain(z2, q, size) != 0.0
    ensures AxisWorld(sp, s2, z2, q, size) == w
  {
    GainScale(z, q, size, f);
    ZoomAlgebra(sp - size / 2.0, Gain(z, q, size), f, s);
  }

  /** After `zoomInOnMouse` the zoom is multiplied by the factor and the world point under the mouse is unchanged. */
  lemma ZoomKeepsMouse(v: View, mouse: Vec2, zoomFactor: real)
    requires Invertible(v) && zoomFactor != 0.0
    ensures ZoomedIn(v, mouse, zoomFactor).zoom == v.zoom * zoomFactor
    ensures Invertible(ZoomedIn(v, mouse, zoomFactor))
    ensures World(ZoomedIn(v, mouse, zoomFactor), mouse.x, mouse.y) == World(v, mouse.x, mouse.y)
  {
    var f, s := zoomFactor, v.shift;
    GainsNonZero(v);
    var w := World(v, mouse.x, mouse.y);
    var v2 := ZoomedIn(v, mouse, f);
    assert QuadX(v2) == QuadX(v) && QuadY(v2) == QuadY(v);
    AxisZoomKeeps(mouse.x, s.x, v.zoom, QuadX(v), v.width, f, w.x, v2.shift.x, v2.zoom);
    AxisZoomKeeps(mouse.y, s.y, v.zoom, QuadY(v), v.height, f, w.y, v2.shift.y, v2.zoom);
  }

  /** The matrix `apply` multiplies on: flip y, the quad scale, the zoom, then the shift. */
  function ViewAffine(v: View): Affine
    requires QuadDefined(v)
  {
    ViewMatrix(QuadX(v), QuadY(v), v.zoom, v.shift)
  }

  /** The product of the four factors, with the quad factors and the zoom as plain numbers. */
  function ViewMatrix(qx: real, qy: real, z: real, s: Vec3): Affine
  {
    Compose(Compose(Compose(ScaleBy(1.0, -1.0, 1.0), ScaleBy(qx, qy, 1.0)), ScaleBy(z, z, z)), TranslateBy(s.x, s.y, s.z))
  }

  /**
   * The matrix performs `quad(zoom · (x + shift))` with y flipped, each axis
   * multiplied by its `quad` factor (see `QuadAxes`); the z axis is zoomed
   * and shifted too.
   */
  lemma ViewAffineMaps(v: View, p: Vec3)
    requires QuadDefined(v)
    ensures Apply(ViewAffine(v), p) ==
      Vec3((p.x + v.shift.x) * v.zoom * QuadX(v), -((p.y + v.shift.y) * v.zoom * QuadY(v)), (p.z + v.shift.z) * v.zoom)
  {
    ViewAffineAxes(QuadX(v), QuadY(v), v.zoom, v.shift, p);
  }

  /** `quad` multiplies each axis by its factor. */
  lemma QuadAxes(v: View, p: Vec2)
    requires QuadDefined(v)
    ensures Quad(v, p) == Vec2(p.x * QuadX(v), p.y * QuadY(v))
  {
  }

  /** The view matrix on a point, with the quad factors and the zoom as plain numbers. */
  lemma ViewAffineAxes(qx: real, qy: real, z: real, s: Vec3, p: Vec3)
    ensures Apply(ViewMatrix(qx, qy, z, s), p) == Vec3((p.x + s.x) * z * qx, -((p.y + s.y) * z * qy), (p.z + s.z) * z)
  {
    var r := Apply(ViewMatrix(qx, qy, z, s), p);
    assert r.x == (p.x + s.x) * z * qx by { AxisView(1.0, qx, z, p.x, s.x); }
    assert r.y == -((p.y + s.y) * z * qy) by { AxisView(-1.0, qy, z, p.y, s.y); }
    assert r.z == (p.z + s.z) * z by { AxisView(1.0, 1.0, z, p.z, s.z); }
  }

  /** One axis of the view matrix: flip c, quad factor q, zoom z, after the shift s. */
  lemma AxisView(c: real, q: real, z: real, t: real, s: real)
    ensures (((c * q) * z) * 1.0) * t + (((c * q) * z) * s + ((c * q) * 0.0 + (c * 0.0 + 0.0))) == c * ((t + s) * z * q)
  {
    assert ((c * q) * z) * t + ((c * q) * z) * s == ((c * q) * z) * (t + s);
  }

  /** `Coordinates`: screen size, a shift vector owned by the caller, and a zoom. */
  class Coordinates {
    var width: real
    var height: real
    const shift: Vector3d
    var zoom: real

    /** Keeps the caller's shift vector itself, not a copy. */
    constructor (width0: real, height0: real, shift0: Vector3d, zoom0: real)
      ensures width == width0 && height == height0 && shift == shift0 && zoom == zoom0
    {
      width, height, shift, zoom := width0, height0, shift0, zoom0;
    }

    function Value(): View
      reads this, shift
    {
      View(width, height, shift.Value(), zoom)
    }

    /** `screen`: the screen point of the vector, which is itself overwritten by `zoom · (vector + shift)`. */
    method Screen(vector: Vector3d) returns (r: Vec2)
      requires QuadDefined(Value()) && vector != shift
      modifies vector
      ensures vector.Value() == Scale3(Add3(old(vector.Value()), shift.Value()), zoom)
      ensures r == ScreenPoint(Value(), old(vector.Value()))
    {
      var scaled := Scale3(Add3(vector.Value(), shift.Value()), zoom);
      r := Map(Value(), Quad(Value(), Vec2(scaled.x, scaled.y)));
      vector.x, vector.y, vector.z := scaled.x, scaled.y, scaled.z;
    }

    /** `mouseShift`: the caller's shift vector moves so that the world point under mouseBefore comes under mouseAfter. */
    method MouseShift(mouseBefore: Vec2, mouseAfter: Vec2)
      requires Invertible(Value())
      modifies shift
      ensures Value() == ShiftedBy(old(Value()), mouseBefore, mouseAfter)
      ensures Invertible(Value()) && World(Value(), mouseAfter.x, mouseAfter.y) == old(World(Value(), mouseBefore.x, mouseBefore.y))
    {
      var next := ShiftedBy(Value(), mouseBefore, mouseAfter);
      MouseShiftKeepsPoint(Value(), mouseBefore, mouseAfter);
      shift.x, shift.y, shift.z := next.shift.x, next.shift.y, next.shift.z;
    }

    /** `zoomInOnMouse`: zoom times the factor, with the shift rescaled so the world point under the mouse stays. */
    method ZoomInOnMouse(mouse: Vec2, zoomFactor: real)
      requires Invertible(Value()) && zoomFactor != 0.0
      modifies this`zoom, shift
      ensures Value() == ZoomedIn(old(Value()), mouse, zoomFactor)
      ensures zoom == old(zoom) * zoomFactor
      ensures Invertible(Value()) && World(Value(), mouse.x, mouse.y) == old(World(Value(), mouse.x, mouse.y))
    {
      var next := ZoomedIn(Value(), mouse, zoomFactor);
      ZoomKeepsMouse(Value(), mouse, zoomFactor);
      zoom := next.zoom;
      shift.x, shift.y, shift.z := next.shift.x, next.shift.y, next.shift.z;
    }

    /** `apply`: multiplies the view matrix onto the given transform, in place. */
    method ApplyTo(transform: Matrix4d)
      requires QuadDefined(Value())
      modifies transform
      ensures transform.entries == Compose(old(transform.entries), ViewAffine(Value()))
    {
      ghost var t0 := transform.entries;
      transform.Scale(1.0, -1.0, 1.0);
      if width >= height {
        transform.Scale(height / width, 1.0, 1.0);
      } else {
        transform.Scale(1.0, width / height, 1.0);
      }
      assert transform.entries == Compose(Compose(t0, ScaleBy(1.0, -1.0, 1.0)), ScaleBy(QuadX(Value()), QuadY(Value()), 1.0));
      transform.ScaleUniform(zoom);
      transform.Translate(shift.x, shift.y, shift.z);
      ViewAffineAssoc(t0, QuadX(Value()), QuadY(Value()), zoom, shift.Value());
    }
  }

  /** The four products of `apply`, taken one at a time, equal the product with the view matrix. */
  lemma ViewAffineAssoc(t0: Affine, qx: real, qy: real, z: real, s: Vec3)
    ensures Compose(Compose(Compose(Compose(t0, ScaleBy(1.0, -1.0, 1.0)), ScaleBy(qx, qy, 1.0)), ScaleBy(z, z, z)), TranslateBy(s.x, s.y, s.z))
      == Compose(t0, ViewMatrix(qx, qy, z, s))
  {
    var f, q, zs, t := ScaleBy(1.0, -1.0, 1.0), ScaleBy(qx, qy, 1.0), ScaleBy(z, z, z), TranslateBy(s.x, s.y, s.z);
    ComposeAssoc(t0, f, q);
    ComposeAssoc(t0, Compose(f, q), zs);
    ComposeAssoc(t0, Compose(Compose(f, q), zs), t);
  }
}
