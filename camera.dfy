/**
 * The camera maps of the app: world coordinates to normalized device
 * coordinates [-1, 1] and back (`NormalizedDeviceCoordinates`), on to the
 * screen rectangle [0, width] × [0, height] and back (`ScreenCoordinates`),
 * and the camera operations that drag and zoom (`CamOperations`). Doubles are
 * exact reals; a division the source would do by zero (giving an IEEE
 * infinity) is excluded by a precondition.
 */
module Camera {
  import opened Vectors
  import opened Transforms

  /** Neither camera dimension is zero, so world coordinates can be divided by them. */
  predicate NonDegenerate(d: Vec2)
  {
    d.x != 0.0 && d.y != 0.0
  }

  /** `NormalizedDeviceCoordinates`: the camera position and dimensions, as values. */
  datatype Ndc = Ndc(camPos: Vec2, camDimensions: Vec2)

  /** `map`: `2 (w.xy - camPos) / camDimensions`, ignoring z. */
  function Map(n: Ndc, world: Vec3): Vec2
    requires NonDegenerate(n.camDimensions)
  {
    Vec2((world.x - n.camPos.x) / n.camDimensions.x * 2.0, (world.y - n.camPos.y) / n.camDimensions.y * 2.0)
  }

  /** `invert`: `camPos + ndc · camDimensions / 2`, in the plane z = 0. */
  function Invert(n: Ndc, ndc: Vec2): Vec3
  {
    Vec3(ndc.x / 2.0 * n.camDimensions.x + n.camPos.x, ndc.y / 2.0 * n.camDimensions.y + n.camPos.y, 0.0)
  }

  /** One axis of `invert` after `map` and of `map` after `invert`. */
  lemma AxisNdcRoundTrip(w: real, m: real, c: real, d: real)
    requires d != 0.0
    ensures ((w - c) / d * 2.0) / 2.0 * d + c == w
    ensures ((m / 2.0 * d + c) - c) / d * 2.0 == m
  {
  }

  /** For non-zero camera dimensions `invert` undoes `map` on the plane, and `map` undoes `invert`. */
  lemma NdcRoundTrip(n: Ndc, world: Vec3, ndc: Vec2)
    requires NonDegenerate(n.camDimensions)
    ensures Invert(n, Map(n, world)) == Vec3(world.x, world.y, 0.0)
    ensures Map(n, Invert(n, ndc)) == ndc
  {
    var d, c := n.camDimensions, n.camPos;
    AxisNdcRoundTrip(world.x, ndc.x, c.x, d.x);
    AxisNdcRoundTrip(world.y, ndc.y, c.y, d.y);
  }

  /** The camera position maps to the origin and the corners of the camera rectangle to -1 and 1. */
  lemma NdcFrame(n: Ndc, z: real)
    requires NonDegenerate(n.camDimensions)
    ensures Map(n, Vec3(n.camPos.x, n.camPos.y, z)) == Vec2(0.0, 0.0)
    ensures Map(n, Vec3(n.camPos.x - n.camDimensions.x / 2.0, n.camPos.y - n.camDimensions.y / 2.0, z)) == Vec2(-1.0, -1.0)
    ensures Map(n, Vec3(n.camPos.x + n.camDimensions.x / 2.0, n.camPos.y + n.camDimensions.y / 2.0, z)) == Vec2(1.0, 1.0)
  {
    AxisFrame(n.camPos.x, n.camDimensions.x);
    AxisFrame(n.camPos.y, n.camDimensions.y);
  }

  /** One axis of `map` at the centre and at the two edges of the camera rectangle. */
  lemma AxisFrame(c: real, d: real)
    requires d != 0.0
    ensures (c - c) / d * 2.0 == 0.0
    ensures ((c - d / 2.0) - c) / d * 2.0 == -1.0
    ensures ((c + d / 2.0) - c) / d * 2.0 == 1.0
  {
    assert (c - d / 2.0) - c == -(d / 2.0);
    assert (c + d / 2.0) - c == d / 2.0;
  }

  /** The matrix `getMatrix` builds: identity, then scale by 2/camDimensions, then translate by -camPos. */
  function NdcAffine(n: Ndc): Affine
    requires NonDegenerate(n.camDimensions)
  {
    Compose(Compose(IdentityAffine, ScaleBy(2.0 / n.camDimensions.x, 2.0 / n.camDimensions.y, 1.0)), TranslateBy(-n.camPos.x, -n.camPos.y, 0.0))
  }

  /** The matrix performs `map` on x and y and keeps z. */
  lemma NdcAffineMaps(n: Ndc, world: Vec3)
    requires NonDegenerate(n.camDimensions)
    ensures Apply(NdcAffine(n), world) == Vec3(Map(n, world).x, Map(n, world).y, world.z)
  {
    var d, c := n.camDimensions, n.camPos;
    var r := Apply(NdcAffine(n), world);
    assert r.x == Map(n, world).x by { AxisMatrix(world.x, c.x, d.x); }
    assert r.y == Map(n, world).y by { AxisMatrix(world.y, c.y, d.y); }
  }

  /** One axis of the matrix: scaling after the translation is `map`. */
  lemma AxisMatrix(w: real, c: real, d: real)
    requires d != 0.0
    ensures (1.0 * (2.0 / d)) * w + ((1.0 * (2.0 / d)) * -c + 0.0) == (w - c) / d * 2.0
  {
  }

  /** `getMatrix(mat)`: overwrites the given matrix with the map to device coordinates. */
  method GetMatrix(n: Ndc, mat: Matrix4d)
    requires NonDegenerate(n.camDimensions)
    modifies mat
    ensures mat.entries == NdcAffine(n)
  {
    mat.Identity();
    mat.Scale(2.0 / n.camDimensions.x, 2.0 / n.camDimensions.y, 1.0);
    mat.Translate(-n.camPos.x, -n.camPos.y, 0.0);
  }

  /** `getMatrix()`: the same matrix in a new object. */
  method NewMatrix(n: Ndc) returns (mat: Matrix4d)
    requires NonDegenerate(n.camDimensions)
    ensures fresh(mat) && mat.entries == NdcAffine(n)
  {
    mat := new Matrix4d();
    GetMatrix(n, mat);
  }

  /** `ScreenCoordinates`: device coordinates together with the screen size. */
  datatype ScreenCoords = ScreenCoords(ndc: Ndc, screenWidth: real, screenHeight: real)

  /** `worldToScreen`: device coordinates moved from [-1, 1] to [0, width] and [0, height]. */
  function WorldToScreen(s: ScreenCoords, world: Vec3): Vec2
    requires NonDegenerate(s.ndc.camDimensions)
  {
    var x := Map(s.ndc, world);
    Vec2((x.x + 1.0) / 2.0 * s.screenWidth, (x.y + 1.0) / 2.0 * s.screenHeight)
  }

  /** `screenToWorld`: the screen point moved to [-1, 1], then inverted. */
  function ScreenToWorld(s: ScreenCoords, screen: Vec2): Vec3
    requires s.screenWidth != 0.0 && s.screenHeight != 0.0
  {
    Invert(s.ndc, Vec2(screen.x / s.screenWidth * 2.0 - 1.0, screen.y / s.screenHeight * 2.0 - 1.0))
  }

  /** One axis of the screen step and its inverse. */
  lemma AxisScreenRoundTrip(m: real, p: real, size: real)
    requires size != 0.0
    ensures ((m + 1.0) / 2.0 * size) / size * 2.0 - 1.0 == m
    ensures ((p / size * 2.0 - 1.0) + 1.0) / 2.0 * size == p
  {
    var a, b := (m + 1.0) / 2.0, p / size;
    assert ((m + 1.0) / 2.0 * size) / size == a by {
      assert a * size / size == a;
    }
    assert a * 2.0 - 1.0 == m;
    assert ((b * 2.0 - 1.0) + 1.0) / 2.0 == b;
    assert b * size == p;
  }

  /** `screenToWorld` is the inverse of `worldToScreen` on the plane, in both directions. */
  lemma ScreenRoundTrip(s: ScreenCoords, world: Vec3, screen: Vec2)
    requires NonDegenerate(s.ndc.camDimensions) && s.screenWidth != 0.0 && s.screenHeight != 0.0
    ensures ScreenToWorld(s, WorldToScreen(s, world)) == Vec3(world.x, world.y, 0.0)
    ensures WorldToScreen(s, ScreenToWorld(s, screen)) == screen
  {
    var m := Map(s.ndc, world);
    AxisScreenRoundTrip(m.x, screen.x, s.screenWidth);
    AxisScreenRoundTrip(m.y, screen.y, s.screenHeight);
    NdcRoundTrip(s.ndc, world, Vec2(screen.x / s.screenWidth * 2.0 - 1.0, screen.y / s.screenHeight * 2.0 - 1.0));
  }

  /** The camera position is drawn at the centre of the screen. */
  lemma ScreenCentre(s: ScreenCoords, z: real)
    requires NonDegenerate(s.ndc.camDimensions)
    ensures WorldToScreen(s, Vec3(s.ndc.camPos.x, s.ndc.camPos.y, z)) == Vec2(s.screenWidth / 2.0, s.screenHeight / 2.0)
  {
    NdcFrame(s.ndc, z);
  }

  /** The screen sizes allow the aspect-ratio division: the smaller one is non-zero when they differ. */
  predicate AspectDefined(screenWidth: real, screenHeight: real)
  {
    (screenWidth > screenHeight ==> screenHeight != 0.0) && (screenHeight > screenWidth ==> screenWidth != 0.0)
  }

  /** `getCamDimensions`: camSize on both axes, with the longer screen axis stretched by the aspect ratio. */
  function CamDimensions(camSize: real, screenWidth: real, screenHeight: real): Vec2
    requires AspectDefined(screenWidth, screenHeight)
  {
    if screenWidth > screenHeight then Vec2(camSize * (screenWidth / screenHeight), camSize)
    else if screenHeight > screenWidth then Vec2(camSize, camSize * (screenHeight / screenWidth))
    else Vec2(camSize, camSize)
  }

  /** Two reals have the smaller `m`: it is one of them and at most the other. */
  predicate IsMin(m: real, a: real, b: real)
  {
    (m == a || m == b) && m <= a && m <= b
  }

  /**
   * On a real screen the camera dimensions have the screen's aspect ratio,
   * their smaller component is camSize (so `minComponent` gives camSize
   * back), both are camSize on a square screen, and they are non-zero for a
   * non-zero camSize.
   */
  lemma CamDimensionsShape(camSize: real, screenWidth: real, screenHeight: real)
    requires screenWidth > 0.0 && screenHeight > 0.0
    ensures var d := CamDimensions(camSize, screenWidth, screenHeight);
      d.x * screenHeight == d.y * screenWidth
      && (camSize >= 0.0 ==> IsMin(camSize, d.x, d.y))
      && (screenWidth == screenHeight ==> d == Vec2(camSize, camSize))
      && (camSize != 0.0 ==> NonDegenerate(d))
  {
    if screenWidth > screenHeight {
      StretchAxis(camSize, screenWidth, screenHeight);
    } else if screenHeight > screenWidth {
      StretchAxis(camSize, screenHeight, screenWidth);
    }
  }

  /** The stretched axis: `c · (long / short)` keeps the ratio, is at least c for c ≥ 0, and is non-zero with c. */
  lemma StretchAxis(c: real, long: real, short: real)
    requires long > short > 0.0
    ensures c * (long / short) * short == c * long
    ensures c >= 0.0 ==> c * (long / short) >= c
    ensures c != 0.0 ==> c * (long / short) != 0.0
  {
    var q := long / short;
    assert q * short == long;
    assert q > 1.0;
    if c >= 0.0 {
      assert c * q - c == c * (q - 1.0);
    }
  }

  /** The camera dimensions grow linearly with camSize. */
  lemma CamDimensionsScale(c1: real, c2: real, screenWidth: real, screenHeight: real)
    requires c1 != 0.0 && AspectDefined(screenWidth, screenHeight)
    ensures CamDimensions(c2, screenWidth, screenHeight) ==
      Vec2(CamDimensions(c1, screenWidth, screenHeight).x * (c2 / c1), CamDimensions(c1, screenWidth, screenHeight).y * (c2 / c1))
  {
    var k := c2 / c1;
    assert c1 * k == c2;
    if screenWidth > screenHeight {
      var q := screenWidth / screenHeight;
      assert c1 * q * k == c2 * q;
    } else if screenHeight > screenWidth {
      var q := screenHeight / screenWidth;
      assert c1 * q * k == c2 * q;
    }
  }

  /** The second `ScreenCoordinates` constructor: device coordinates from `camPos` and `getCamDimensions`. */
  function FromCamera(camPos: Vec2, camSize: real, screenWidth: real, screenHeight: real): ScreenCoords
    requires AspectDefined(screenWidth, screenHeight)
  {
    ScreenCoords(Ndc(camPos, CamDimensions(camSize, screenWidth, screenHeight)), screenWidth, screenHeight)
  }

  /** `BoundingBox`: the visible world rectangle. */
  datatype BoundingBox = BoundingBox(left: real, top: real, right: real, bottom: real)

  /** The bounding box of a camera: centred on camPos, as wide and as high as the camera dimensions. */
  function BoxAround(camPos: Vec2, dims: Vec2): (bb: BoundingBox)
    ensures (bb.left + bb.right) / 2.0 == camPos.x && (bb.top + bb.bottom) / 2.0 == camPos.y
    ensures bb.right - bb.left == dims.x && bb.bottom - bb.top == dims.y
  {
    var half := Vec2(dims.x / 2.0, dims.y / 2.0);
    BoundingBox(camPos.x - half.x, camPos.y - half.y, camPos.x + half.x, camPos.y + half.y)
  }

  /** `dragCam`'s new camera position: moved back by the world distance between the two screen points. */
  function Dragged(camPos: Vec2, camSize: real, screenWidth: real, screenHeight: real, dragStart: Vec2, dragStop: Vec2): Vec2
    requires AspectDefined(screenWidth, screenHeight) && screenWidth != 0.0 && screenHeight != 0.0
  {
    var screen := FromCamera(camPos, camSize, screenWidth, screenHeight);
    var a := ScreenToWorld(screen, dragStart);
    var b := ScreenToWorld(screen, dragStop);
    Vec2(camPos.x - (b.x - a.x), camPos.y - (b.y - a.y))
  }

  /** After a drag, the world point that was under dragStart is under dragStop. */
  lemma DragKeepsPoint(camPos: Vec2, camSize: real, screenWidth: real, screenHeight: real, dragStart: Vec2, dragStop: Vec2)
    requires AspectDefined(screenWidth, screenHeight) && screenWidth != 0.0 && screenHeight != 0.0
    ensures ScreenToWorld(FromCamera(Dragged(camPos, camSize, screenWidth, screenHeight, dragStart, dragStop), camSize, screenWidth, screenHeight), dragStop)
      == ScreenToWorld(FromCamera(camPos, camSize, screenWidth, screenHeight), dragStart)
  {
    var s := FromCamera(camPos, camSize, screenWidth, screenHeight);
    var c2 := Dragged(camPos, camSize, screenWidth, screenHeight, dragStart, dragStop);
    var s2 := FromCamera(c2, camSize, screenWidth, screenHeight);
    var a, b := ScreenToWorld(s, dragStart), ScreenToWorld(s, dragStop);
    assert s2 == ScreenCoords(Ndc(c2, s.ndc.camDimensions), screenWidth, screenHeight);
    InvertTranslates(s.ndc, c2, Vec2(dragStop.x / screenWidth * 2.0 - 1.0, dragStop.y / screenHeight * 2.0 - 1.0));
    assert ScreenToWorld(s2, dragStop) == Vec3(b.x - camPos.x + c2.x, b.y - camPos.y + c2.y, 0.0);
  }

  /** Moving the camera moves every inverted point by the same amount. */
  lemma InvertTranslates(n: Ndc, c: Vec2, ndc: Vec2)
    ensures Invert(Ndc(c, n.camDimensions), ndc)
      == Vec3(Invert(n, ndc).x - n.camPos.x + c.x, Invert(n, ndc).y - n.camPos.y + c.y, 0.0)
  {
  }

  /** A camera position scaled by k about the world point w. */
  function ScaledAbout(p: Vec2, w: Vec3, k: real): Vec2
  {
    Vec2((p.x - w.x) * k + w.x, (p.y - w.y) * k + w.y)
  }

  /** `zoom`'s new camera position: scaled about the world pivot by newCamSize / camSize. */
  function Zoomed(camPos: Vec2, camSize: real, screenWidth: real, screenHeight: real, pivot: Vec2, newCamSize: real): Vec2
    requires AspectDefined(screenWidth, screenHeight) && screenWidth != 0.0 && screenHeight != 0.0 && camSize != 0.0
  {
    var worldPivot := ScreenToWorld(FromCamera(camPos, camSize, screenWidth, screenHeight), pivot);
    ScaledAbout(camPos, worldPivot, newCamSize / camSize)
  }

  /** One axis of the zoom: the pivot stays where it is when position and dimension both scale by k. */
  lemma PivotAxis(n: real, d: real, p: real, k: real, w: real)
    requires w == n / 2.0 * d + p
    ensures n / 2.0 * (d * k) + ((p - w) * k + w) == w
  {
    assert (p - w) * k == -(n / 2.0 * d) * k;
    assert n / 2.0 * (d * k) == (n / 2.0 * d) * k;
  }

  /**
   * Scaling the camera position about the world point shown at device
   * coordinates n, and the camera dimensions by the same k, shows that point
   * at n again.
   */
  lemma PivotFixed(camPos: Vec2, d: Vec2, k: real, n: Vec2)
    ensures var w := Invert(Ndc(camPos, d), n);
      Invert(Ndc(ScaledAbout(camPos, w, k), Vec2(d.x * k, d.y * k)), n) == w
  {
    var w := Invert(Ndc(camPos, d), n);
    PivotAxis(n.x, d.x, camPos.x, k, w.x);
    PivotAxis(n.y, d.y, camPos.y, k, w.y);
  }

  /** After a zoom to newCamSize, the world point under the screen pivot is the one that was there before. */
  lemma ZoomKeepsPivot(camPos: Vec2, camSize: real, screenWidth: real, screenHeight: real, pivot: Vec2, newCamSize: real)
    requires AspectDefined(screenWidth, screenHeight) && screenWidth != 0.0 && screenHeight != 0.0 && camSize != 0.0
    ensures ScreenToWorld(FromCamera(Zoomed(camPos, camSize, screenWidth, screenHeight, pivot, newCamSize), newCamSize, screenWidth, screenHeight), pivot)
      == ScreenToWorld(FromCamera(camPos, camSize, screenWidth, screenHeight), pivot)
  {
    var d := CamDimensions(camSize, screenWidth, screenHeight);
    var k := newCamSize / camSize;
    CamDimensionsScale(camSize, newCamSize, screenWidth, screenHeight);
    PivotFixed(camPos, d, k, Vec2(pivot.x / screenWidth * 2.0 - 1.0, pivot.y / screenHeight * 2.0 - 1.0));
  }

  /** `CamOperations`: a camera whose position vector belongs to the caller and is changed in place. */
  class CamOperations {
    const camPos: Vector2d
    var camSize: real
    var screenWidth: real
    var screenHeight: real

    /** Keeps the caller's position vector itself, not a copy. */
    constructor (camPos0: Vector2d, camSize0: real, screenWidth0: real, screenHeight0: real)
      ensures camPos == camPos0 && camSize == camSize0 && screenWidth == screenWidth0 && screenHeight == screenHeight0
    {
      camPos, camSize, screenWidth, screenHeight := camPos0, camSize0, screenWidth0, screenHeight0;
    }

    /** The screen sizes allow every division the operations make. */
    predicate ScreenDefined()
      reads this
    {
      AspectDefined(screenWidth, screenHeight) && screenWidth != 0.0 && screenHeight != 0.0
    }

    /** The current screen coordinates, built as `dragCam` and `zoom` build them. */
    function Screen(): ScreenCoords
      requires AspectDefined(screenWidth, screenHeight)
      reads this, camPos
    {
      FromCamera(camPos.Value(), camSize, screenWidth, screenHeight)
    }

    /** `getBoundingBox`: the box around camPos with the camera dimensions. */
    function GetBoundingBox(): BoundingBox
      requires AspectDefined(screenWidth, screenHeight)
      reads this, camPos
    {
      BoxAround(camPos.Value(), CamDimensions(camSize, screenWidth, screenHeight))
    }

    /** The bounding box is exactly what the screen shows: its corners are the world points at the screen's corners. */
    lemma BoundingBoxOnScreen()
      requires ScreenDefined()
      ensures var bb, s := GetBoundingBox(), Screen();
        ScreenToWorld(s, Vec2(0.0, 0.0)) == Vec3(bb.left, bb.top, 0.0)
        && ScreenToWorld(s, Vec2(screenWidth, screenHeight)) == Vec3(bb.right, bb.bottom, 0.0)
    {
    }

    /**
     * `dragCam`: moves the caller's position vector so that the world point
     * under dragStart comes to lie under dragStop; camSize is unchanged.
     */
    method DragCam(dragStart: Vec2, dragStop: Vec2)
      requires ScreenDefined()
      modifies camPos
      ensures camPos.Value() == Dragged(old(camPos.Value()), camSize, screenWidth, screenHeight, dragStart, dragStop)
      ensures ScreenToWorld(Screen(), dragStop) == old(ScreenToWorld(Screen(), dragStart))
    {
      var next := Dragged(camPos.Value(), camSize, screenWidth, screenHeight, dragStart, dragStop);
      DragKeepsPoint(camPos.Value(), camSize, screenWidth, screenHeight, dragStart, dragStop);
      camPos.x, camPos.y := next.x, next.y;
    }

    /**
     * `zoom`: sets camSize to newCamSize and scales the caller's position
     * vector about the world pivot, so the world point under the screen pivot
     * stays there.
     */
    method Zoom(screenPivotX: real, screenPivotY: real, newCamSize: real)
      requires ScreenDefined() && camSize != 0.0
      modifies camPos, this`camSize
      ensures camSize == newCamSize
      ensures camPos.Value() == Zoomed(old(camPos.Value()), old(camSize), screenWidth, screenHeight, Vec2(screenPivotX, screenPivotY), newCamSize)
      ensures ScreenToWorld(Screen(), Vec2(screenPivotX, screenPivotY)) == old(ScreenToWorld(Screen(), Vec2(screenPivotX, screenPivotY)))
    {
      var pivot := Vec2(screenPivotX, screenPivotY);
      var next := Zoomed(camPos.Value(), camSize, screenWidth, screenHeight, pivot, newCamSize);
      ZoomKeepsPivot(camPos.Value(), camSize, screenWidth, screenHeight, pivot, newCamSize);
      camPos.x, camPos.y := next.x, next.y;
      camSize := newCamSize;
    }
  }
}
