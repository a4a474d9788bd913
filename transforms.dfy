/**
 * The part of JOML's Matrix4d that the camera code uses. Every matrix it
 * builds starts from the identity and is then only post-multiplied by scale
 * and translation matrices, so it stays of the form `p ↦ s·p + t` with a
 * diagonal s; the model keeps just the diagonal and the translation column.
 */
module Transforms {
  import opened Vectors

  /** The transform `p ↦ (scale.x·p.x + shift.x, scale.y·p.y + shift.y, scale.z·p.z + shift.z)`. */
  datatype Affine = Affine(scale: Vec3, shift: Vec3)

  /** The matrix applied to a point (a homogeneous vector with w = 1). */
  function Apply(a: Affine, p: Vec3): Vec3
  {
    Vec3(a.scale.x * p.x + a.shift.x, a.scale.y * p.y + a.shift.y, a.scale.z * p.z + a.shift.z)
  }

  const IdentityAffine: Affine := Affine(Vec3(1.0, 1.0, 1.0), Zero3)

  function ScaleBy(x: real, y: real, z: real): Affine
  {
    Affine(Vec3(x, y, z), Zero3)
  }

  function TranslateBy(x: real, y: real, z: real): Affine
  {
    Affine(Vec3(1.0, 1.0, 1.0), Vec3(x, y, z))
  }

  /** The matrix product a·b. */
  function Compose(a: Affine, b: Affine): Affine
  {
    var s, t := a.scale, a.shift;
    Affine(Vec3(s.x * b.scale.x, s.y * b.scale.y, s.z * b.scale.z),
           Vec3(s.x * b.shift.x + t.x, s.y * b.shift.y + t.y, s.z * b.shift.z + t.z))
  }

  /** One axis of a product: scaling after a scale-and-shift. */
  lemma AxisCompose(a: real, b: real, x: real, t: real, u: real)
    ensures (a * b) * x + (a * t + u) == a * (b * x + t) + u
  {
    assert a * (b * x + t) == a * (b * x) + a * t;
  }

  /** The product applies b first and a second: post-multiplying means the new matrix acts on the point first. */
  lemma ComposeApply(a: Affine, b: Affine, p: Vec3)
    ensures Apply(Compose(a, b), p) == Apply(a, Apply(b, p))
  {
    var l, r := Apply(Compose(a, b), p), Apply(a, Apply(b, p));
    assert l.x == r.x by { AxisCompose(a.scale.x, b.scale.x, p.x, b.shift.x, a.shift.x); }
    assert l.y == r.y by { AxisCompose(a.scale.y, b.scale.y, p.y, b.shift.y, a.shift.y); }
    assert l.z == r.z by { AxisCompose(a.scale.z, b.scale.z, p.z, b.shift.z, a.shift.z); }
  }

  /** The identity does nothing, on either side of a product. */
  lemma ComposeIdentity(a: Affine)
    ensures Compose(IdentityAffine, a) == a && Compose(a, IdentityAffine) == a
    ensures forall p :: Apply(IdentityAffine, p) == p
  {
  }

  /** The matrix product is associative. */
  lemma ComposeAssoc(a: Affine, b: Affine, c: Affine)
    ensures Compose(Compose(a, b), c) == Compose(a, Compose(b, c))
  {
    var l, r := Compose(Compose(a, b), c), Compose(a, Compose(b, c));
    assert l.shift.x == r.shift.x by { AxisCompose(a.scale.x, b.scale.x, c.shift.x, b.shift.x, a.shift.x); }
    assert l.shift.y == r.shift.y by { AxisCompose(a.scale.y, b.scale.y, c.shift.y, b.shift.y, a.shift.y); }
    assert l.shift.z == r.shift.z by { AxisCompose(a.scale.z, b.scale.z, c.shift.z, b.shift.z, a.shift.z); }
    assert l.scale == r.scale;
  }

  /** A 4×4 matrix of the scale-and-translate shape, changed in place by its methods. */
  class Matrix4d {
    var entries: Affine

    /** `new Matrix4d()` is the identity. */
    constructor ()
      ensures entries == IdentityAffine
    {
      entries := IdentityAffine;
    }

    /** `identity()`. */
    method Identity()
      modifies this
      ensures entries == IdentityAffine
    {
      entries := IdentityAffine;
    }

    /** `scale(x, y, z)`: this := this · S. */
    method Scale(x: real, y: real, z: real)
      modifies this
      ensures entries == Compose(old(entries), ScaleBy(x, y, z))
    {
      entries := Compose(entries, ScaleBy(x, y, z));
    }

    /** `scale(s)`: the same factor on every axis. */
    method ScaleUniform(s: real)
      modifies this
      ensures entries == Compose(old(entries), ScaleBy(s, s, s))
    {
      Scale(s, s, s);
    }

    /** `translate(x, y, z)`: this := this · T. */
    method Translate(x: real, y: real, z: real)
      modifies this
      ensures entries == Compose(old(entries), TranslateBy(x, y, z))
    {
      entries := Compose(entries, TranslateBy(x, y, z));
    }
  }
}
