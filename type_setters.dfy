/**
 * The type rules of `TypeSetterProvider`. Each rule maps a particle's
 * position, velocity and old type to a new type among `nTypes`; the random
 * draws (`Math.random()`) are parameters in [0, 1).
 */
module TypeSetters {
  import opened Vectors
  import opened Wrappers
  import opened MathUtils

  /** `constrain`: the value clamped into [0, nTypes - 1], with 0 winning when nTypes < 1. */
  function Constrain(value: int, nTypes: int): (r: int)
    ensures nTypes >= 1 ==> 0 <= r < nTypes
    ensures nTypes < 1 ==> r == 0
    ensures 0 <= value < nTypes ==> r == value
    ensures r == value || r == 0 || r == nTypes - 1
  {
    var m := if nTypes - 1 < value then nTypes - 1 else value;
    if 0 < m then m else 0
  }

  /** `mapType`: the floor of `value * nTypes`, constrained. */
  function MapType(value: real, nTypes: int): (r: int)
    ensures nTypes >= 1 ==> 0 <= r < nTypes
  {
    Constrain((value * nTypes as real).Floor, nTypes)
  }

  /** For a value in [0, 1) the constraint never bites: the type is the floor itself. */
  lemma MapTypeUnit(value: real, nTypes: int)
    requires 0.0 <= value < 1.0 && nTypes >= 1
    ensures MapType(value, nTypes) == (value * nTypes as real).Floor
    ensures (MapType(value, nTypes) as real) <= value * nTypes as real < (MapType(value, nTypes) + 1) as real
  {
    var x := value * nTypes as real;
    assert 0.0 <= x < nTypes as real by {
      assert value * nTypes as real < 1.0 * nTypes as real;
    }
  }

  /**
   * "random" (`DefaultTypeSetter`): the floor of a draw times nTypes, with no
   * constraint, so zero or negative nTypes give a type in [nTypes, 0].
   */
  function RandomType(u: real, nTypes: int): (r: int)
    requires Draw(u)
    ensures nTypes >= 1 ==> 0 <= r < nTypes
    ensures nTypes <= 0 ==> nTypes <= r <= 0
  {
    ScaledUnit(u, nTypes as real);
    (u * nTypes as real).Floor
  }

  /** A number of [0, 1) times k lies between 0 and k, and below k when k is positive. */
  lemma ScaledUnit(u: real, k: real)
    requires 0.0 <= u < 1.0
    ensures k > 0.0 ==> 0.0 <= u * k < k
    ensures k <= 0.0 ==> k <= u * k <= 0.0
  {
    if k > 0.0 {
      assert (1.0 - u) * k > 0.0;
    } else {
      assert (1.0 - u) * k <= 0.0;
    }
  }

  /** Every type of [0, nTypes) is the random type of some draw. */
  lemma RandomTypeReachesAll(t: int, nTypes: int)
    requires 0 <= t < nTypes
    ensures exists u :: Draw(u) && RandomType(u, nTypes) == t
  {
    var n := nTypes as real;
    var u := t as real / n;
    assert u * n == t as real;
    assert u < 1.0 by {
      assert t as real < n;
    }
    assert Draw(u) && RandomType(u, nTypes) == t;
  }

  /** A draw in [0, 1). */
  predicate Draw(u: real)
  {
    0.0 <= u < 1.0
  }

  /** Java's `%` on ints: the remainder takes the sign of the dividend. */
  function JavaRem(a: int, b: int): (r: int)
    requires b != 0
    ensures a >= 0 && b > 0 ==> r == a % b
  {
    var m := if b < 0 then -b else b;
    if a >= 0 then a % m else -((-a) % m)
  }

  /** "randomize 10%": with a first draw below 0.1 the type is mapped from a second draw, otherwise kept. */
  function RandomizeTenPercent(u1: real, u2: real, kind: int, nTypes: int): (r: int)
    ensures u1 >= 0.1 ==> r == kind
    ensures u1 < 0.1 && nTypes >= 1 ==> 0 <= r < nTypes
    ensures 0 <= kind < nTypes ==> 0 <= r < nTypes
  {
    if u1 < 0.1 then MapType(u2, nTypes) else kind
  }

  /** "slices": the type is read off the x coordinate alone. */
  function Slices(position: Vec3, nTypes: int): (r: int)
    ensures nTypes >= 1 ==> 0 <= r < nTypes
    ensures 0.0 <= position.x < 1.0 && nTypes >= 1 ==> r == (position.x * nTypes as real).Floor
  {
    if 0.0 <= position.x < 1.0 && nTypes >= 1 then MapTypeUnit(position.x, nTypes); MapType(position.x, nTypes)
    else MapType(position.x, nTypes)
  }

  /** The centre of the world square. */
  const Centre: Vec3 := Vec3(0.5, 0.5, 0.0)

  /**
   * "onion": the type is mapped from twice the distance of the position from
   * the centre. The floor of 2 · distance · nTypes is taken as the integer
   * square root of 4 · nTypes² · (squared distance), so no real square root
   * is needed; `OnionDistance` shows this is `mapType` of twice the distance.
   */
  function Onion(position: Vec3, nTypes: int): (r: int)
    ensures nTypes >= 1 ==> 0 <= r < nTypes
    ensures position == Centre && nTypes >= 1 ==> r == 0
  {
    SquareSumNonNegative(Sub3(position, Centre));
    OnionLayer(LengthSquared3(Sub3(position, Centre)), nTypes)
  }

  /** The onion type for squared distance d2 from the centre. */
  function OnionLayer(d2: real, nTypes: int): (r: int)
    requires d2 >= 0.0
    ensures nTypes >= 1 ==> 0 <= r < nTypes
    ensures d2 == 0.0 && nTypes >= 1 ==> r == 0
  {
    if nTypes >= 1 then Constrain(FloorSqrt(ScaledSquare(nTypes, d2)), nTypes) else 0
  }

  /** 4 · n² · d2: the square of 2 · n · dist when d2 = dist². */
  function ScaledSquare(n: int, d2: real): (r: real)
    requires d2 >= 0.0
    ensures r >= 0.0
  {
    var m := n as real;
    assert m * m >= 0.0;
    assert (m * m) * d2 >= 0.0;
    4.0 * (m * m) * d2
  }

  /** A squared length is never negative. */
  lemma SquareSumNonNegative(a: Vec3)
    ensures LengthSquared3(a) >= 0.0
  {
    assert a.x * a.x >= 0.0 && a.y * a.y >= 0.0 && a.z * a.z >= 0.0;
  }

  /** The integer square root: the largest r with r² <= x. */
  function FloorSqrt(x: real): (r: nat)
    requires x >= 0.0
    ensures (r as real) * (r as real) <= x < ((r + 1) as real) * ((r + 1) as real)
  {
    FloorSqrtFrom(x, 0)
  }

  /** Counts r up from k while (r + 1)² still fits under x. */
  function FloorSqrtFrom(x: real, k: nat): (r: nat)
    requires (k as real) * (k as real) <= x
    ensures (r as real) * (r as real) <= x < ((r + 1) as real) * ((r + 1) as real)
    decreases x.Floor - k
  {
    var next := (k + 1) as real;
    if next * next <= x then
      assert next <= next * next;
      FloorSqrtFrom(x, k + 1)
    else k
  }

  /** For y >= 0 bracketed between squares of k and k + 1, the floor of y is k. */
  lemma FloorOfRoot(k: nat, y: real)
    requires y >= 0.0
    requires (k as real) * (k as real) <= y * y < ((k + 1) as real) * ((k + 1) as real)
    ensures y.Floor == k
  {
    var a, b := k as real, (k + 1) as real;
    if y < a {
      MonotoneSquare(y, a);
    }
    if y >= b {
      MonotoneSquare(b, y);
    }
  }

  /** Squaring is monotone on the non-negative reals. */
  lemma MonotoneSquare(x: real, y: real)
    requires 0.0 <= x <= y
    ensures x * x <= y * y
    ensures x < y ==> x * x < y * y
  {
    calc {
      x * x;
    <=  { assert x * (y - x) >= 0.0; }
      x * y;
    <=  { assert y * (y - x) >= 0.0; }
      y * y;
    }
    if x < y {
      calc {
        x * x;
      <=  { assert x * (y - x) >= 0.0; }
        x * y;
      <  { assert y * (y - x) > 0.0; }
        y * y;
      }
    }
  }

  /** (2 · d · n)² = 4 · n² · d². */
  lemma DoubledProductSquare(d: real, n: real)
    ensures (2.0 * d * n) * (2.0 * d * n) == 4.0 * (n * n) * (d * d)
  {
  }

  /** For dist >= 0 with dist² = d2, the integer square root of 4 · n² · d2 is the floor of 2 · dist · n. */
  lemma RootOfScaledSquare(dist: real, d2: real, n: int)
    requires dist >= 0.0 && dist * dist == d2 && n >= 1
    ensures FloorSqrt(ScaledSquare(n, d2)) == (2.0 * dist * n as real).Floor
  {
    var y := 2.0 * dist * n as real;
    DoubledProductSquare(dist, n as real);
    assert y * y == ScaledSquare(n, d2);
    assert y >= 0.0;
    var k := FloorSqrt(ScaledSquare(n, d2));
    FloorOfRoot(k, y);
  }

  /** With `dist` the Euclidean distance from the centre, the onion type is `mapType(2 · dist, nTypes)`. */
  lemma OnionDistance(position: Vec3, dist: real, nTypes: int)
    requires dist >= 0.0 && dist * dist == LengthSquared3(Sub3(position, Centre))
    ensures Onion(position, nTypes) == MapType(2.0 * dist, nTypes)
  {
    OnionLayerDistance(dist, LengthSquared3(Sub3(position, Centre)), nTypes);
  }

  /** The same for a squared distance d2 = dist². */
  lemma OnionLayerDistance(dist: real, d2: real, nTypes: int)
    requires dist >= 0.0 && dist * dist == d2
    ensures OnionLayer(d2, nTypes) == MapType(2.0 * dist, nTypes)
  {
    if nTypes >= 1 {
      RootOfScaledSquare(dist, d2, nTypes);
    }
  }

  /** A particle farther from the centre never gets a lower type: the layers run outwards. */
  lemma OnionLayers(p1: Vec3, d1: real, p2: Vec3, d2: real, nTypes: int)
    requires d1 >= 0.0 && d1 * d1 == LengthSquared3(Sub3(p1, Centre))
    requires d2 >= 0.0 && d2 * d2 == LengthSquared3(Sub3(p2, Centre))
    requires d1 <= d2 && nTypes >= 1
    ensures Onion(p1, nTypes) <= Onion(p2, nTypes)
  {
    OnionDistance(p1, d1, nTypes);
    OnionDistance(p2, d2, nTypes);
    MapTypeMonotone(2.0 * d1, 2.0 * d2, nTypes);
  }

  /** "rotate": `(type + 1) % nTypes`; Java throws on a zero divisor (here: `None`). */
  function Rotate(kind: int, nTypes: int): (r: Option<int>)
    ensures nTypes == 0 <==> r == None
    ensures 0 <= kind < nTypes ==> r == Some(if kind == nTypes - 1 then 0 else kind + 1)
  {
    if nTypes == 0 then None else Some(JavaRem(kind + 1, nTypes))
  }

  /** Rotating through all types comes back to the start. */
  lemma {:induction false} RotateCycle(kind: int, nTypes: int, k: nat)
    requires 0 <= kind < nTypes
    ensures RotateTimes(kind, nTypes, k) == (kind + k) % nTypes
  {
    if k > 0 {
      RotateCycle(kind, nTypes, k - 1);
      var prev := (kind + k - 1) % nTypes;
      assert RotateTimes(kind, nTypes, k) == Rotate(prev, nTypes).value;
      RemStep(kind + k - 1, nTypes);
    }
  }

  /** `Rotate` applied k times to an in-range type. */
  function RotateTimes(kind: int, nTypes: int, k: nat): (r: int)
    requires 0 <= kind < nTypes
    ensures 0 <= r < nTypes
  {
    if k == 0 then kind else
      var prev := RotateTimes(kind, nTypes, k - 1);
      Rotate(prev, nTypes).value
  }

  /** One more step of the Euclidean remainder. */
  lemma RemStep(a: int, n: int)
    requires a >= 0 && n >= 1
    ensures (if a % n == n - 1 then 0 else a % n + 1) == (a + 1) % n
  {
    var q, m := a / n, a % n;
    if m == n - 1 {
      EuclideanRemainderUnique(a + 1, n, 0, q + 1);
    } else {
      EuclideanRemainderUnique(a + 1, n, m + 1, q);
    }
  }

  /** "flip": `nTypes - 1 - type`. */
  function Flip(kind: int, nTypes: int): (r: int)
    ensures 0 <= kind < nTypes ==> 0 <= r < nTypes
  {
    nTypes - 1 - kind
  }

  /** Flipping twice gives the type back, and every in-range type is the flip of an in-range type. */
  lemma FlipInvolution(kind: int, nTypes: int)
    ensures Flip(Flip(kind, nTypes), nTypes) == kind
    ensures 0 <= kind < nTypes ==> exists s :: 0 <= s < nTypes && Flip(s, nTypes) == kind
  {
    if 0 <= kind < nTypes {
      var s := Flip(kind, nTypes);
      assert 0 <= s < nTypes && Flip(s, nTypes) == kind;
    }
  }

  /** "more of first": the type is mapped from the product of two draws, which favours low types. */
  function MoreOfFirst(u1: real, u2: real, nTypes: int): (r: int)
    requires Draw(u1) && Draw(u2)
    ensures nTypes >= 1 ==> 0 <= r < nTypes && r <= MapType(u2, nTypes)
  {
    var p := u1 * u2;
    if nTypes >= 1 then
      assert p <= u2 by {
        assert u1 * u2 <= 1.0 * u2;
      }
      MapTypeUnit(p, nTypes);
      MapTypeUnit(u2, nTypes);
      MapTypeMonotone(p, u2, nTypes);
      MapType(p, nTypes)
    else MapType(p, nTypes)
  }

  /** A smaller value never maps to a higher type. */
  lemma MapTypeMonotone(a: real, b: real, nTypes: int)
    requires a <= b && nTypes >= 1
    ensures MapType(a, nTypes) <= MapType(b, nTypes)
  {
    var n := nTypes as real;
    ScaleStrict(a, b, n);
    var x, y := a * n, b * n;
    assert x <= y;
    assert x.Floor <= y.Floor;
  }

  /**
   * "kill still": a particle slower than 0.01 takes the last type, any other
   * keeps its type (the speed test is on the squared length).
   */
  function KillStill(velocity: Vec3, kind: int, nTypes: int): (r: int)
    ensures LengthSquared3(velocity) < 0.0001 ==> r == nTypes - 1
    ensures LengthSquared3(velocity) >= 0.0001 ==> r == kind
    ensures 0 <= kind < nTypes ==> 0 <= r < nTypes
  {
    if LengthSquared3(velocity) < 0.0001 then nTypes - 1 else kind
  }

  /** The rules of the provider; "random" is `DefaultTypeSetter`, the default of `Physics`. */
  datatype TypeRule = RandomRule | RandomizeTenPercentRule | SlicesRule | OnionRule | RotateRule | FlipRule | MoreOfFirstRule | KillStillRule

  /**
   * One rule applied to one particle; `u1` and `u2` are the draws. `None` is
   * Java's ArithmeticException.
   */
  function Apply(rule: TypeRule, position: Vec3, velocity: Vec3, kind: int, nTypes: int, u1: real, u2: real): (r: Option<int>)
    requires Draw(u1) && Draw(u2)
    ensures r.None? <==> rule == RotateRule && nTypes == 0
  {
    match rule
    case RandomRule => Some(RandomType(u1, nTypes))
    case RandomizeTenPercentRule => Some(RandomizeTenPercent(u1, u2, kind, nTypes))
    case SlicesRule => Some(Slices(position, nTypes))
    case OnionRule => Some(Onion(position, nTypes))
    case RotateRule => Rotate(kind, nTypes)
    case FlipRule => Some(Flip(kind, nTypes))
    case MoreOfFirstRule => Some(MoreOfFirst(u1, u2, nTypes))
    case KillStillRule => Some(KillStill(velocity, kind, nTypes))
  }

  /** Every rule keeps an in-range type in range. */
  lemma ApplyInRange(rule: TypeRule, position: Vec3, velocity: Vec3, kind: int, nTypes: int, u1: real, u2: real)
    requires Draw(u1) && Draw(u2)
    requires 0 <= kind < nTypes
    ensures Apply(rule, position, velocity, kind, nTypes, u1, u2).Some?
    ensures 0 <= Apply(rule, position, velocity, kind, nTypes, u1, u2).value < nTypes
  {
  }

  /** `t` is a type the rule can hand out for this particle, for some draws. */
  ghost predicate Gives(rule: TypeRule, position: Vec3, velocity: Vec3, kind: int, nTypes: int, t: int)
  {
    exists u1, u2 :: Draw(u1) && Draw(u2) && Apply(rule, position, velocity, kind, nTypes, u1, u2) == Some(t)
  }

  /** Every type a rule hands out for an in-range type is in range. */
  lemma GivesInRange(rule: TypeRule, position: Vec3, velocity: Vec3, kind: int, nTypes: int, t: int)
    requires Gives(rule, position, velocity, kind, nTypes, t)
    requires 0 <= kind < nTypes
    ensures 0 <= t < nTypes
  {
    var u1, u2 :| Draw(u1) && Draw(u2) && Apply(rule, position, velocity, kind, nTypes, u1, u2) == Some(t);
    ApplyInRange(rule, position, velocity, kind, nTypes, u1, u2);
  }

  /**
   * The rules that put any non-negative type back into [0, nTypes): those
   * that ignore the old type, and "rotate", whose remainder does the work.
   */
  predicate RestoresRange(rule: TypeRule)
  {
    rule == RandomRule || rule == SlicesRule || rule == OnionRule || rule == MoreOfFirstRule || rule == RotateRule
  }

  /** A range-restoring rule gives an in-range type even to a type at or above nTypes. */
  lemma RestoredInRange(rule: TypeRule, position: Vec3, velocity: Vec3, kind: int, nTypes: int, t: int)
    requires Gives(rule, position, velocity, kind, nTypes, t)
    requires RestoresRange(rule) && kind >= 0 && nTypes >= 1
    ensures 0 <= t < nTypes
  {
    var u1, u2 :| Draw(u1) && Draw(u2) && Apply(rule, position, velocity, kind, nTypes, u1, u2) == Some(t);
    if rule == RotateRule {
      assert t == (kind + 1) % nTypes;
    }
  }

  /**
   * The other three rules do not: after 6 types shrink to 3, type 5 is
   * flipped to −3, kept by "kill still" when the particle moves, and kept by
   * "randomize 10%" whenever the first draw is 0.1 or more.
   */
  lemma OutOfRangeSurvives(position: Vec3, velocity: Vec3, t: int)
    ensures Gives(FlipRule, position, velocity, 5, 3, t) <==> t == -3
    ensures LengthSquared3(velocity) >= 0.0001 ==> (Gives(KillStillRule, position, velocity, 5, 3, t) <==> t == 5)
    ensures Gives(RandomizeTenPercentRule, position, velocity, 5, 3, 5)
  {
    assert Apply(FlipRule, position, velocity, 5, 3, 0.0, 0.0) == Some(-3);
    assert Apply(KillStillRule, position, velocity, 5, 3, 0.0, 0.0) == Some(KillStill(velocity, 5, 3));
    assert Apply(RandomizeTenPercentRule, position, velocity, 5, 3, 0.5, 0.0) == Some(5);
  }

  /** The random rule hands out exactly the types of [0, nTypes). */
  lemma RandomGivesExactly(position: Vec3, velocity: Vec3, kind: int, nTypes: int, t: int)
    requires nTypes >= 1
    ensures Gives(RandomRule, position, velocity, kind, nTypes, t) <==> 0 <= t < nTypes
  {
    if 0 <= t < nTypes {
      RandomTypeReachesAll(t, nTypes);
      var u :| Draw(u) && RandomType(u, nTypes) == t;
      assert Apply(RandomRule, position, velocity, kind, nTypes, u, 0.0) == Some(t);
    }
  }
}
