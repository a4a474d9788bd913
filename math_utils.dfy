/** Numeric helpers of the application: clamping, a loop-based modulo, lerp and tolerant rounding. */
module MathUtils {

  /** Integer clamp: `min` below the range, `max` above it, the value itself inside it. */
  function ClampInt(value: int, min: int, max: int): (r: int)
    ensures min <= max ==> min <= r <= max
    ensures min <= value <= max ==> r == value
    ensures r == value || r == min || r == max
    ensures value < min ==> r == min
  {
    if value < min then min
    else if value > max then max
    else value
  }

  /** The same clamp over doubles (exact reals here). */
  function ClampReal(value: real, min: real, max: real): (r: real)
    ensures min <= max ==> min <= r <= max
    ensures min <= value <= max ==> r == value
    ensures r == value || r == min || r == max
    ensures value < min ==> r == min
  {
    if value < min then min
    else if value > max then max
    else value
  }

  lemma {:induction false} MulAtLeast(d: int, b: int)
    requires d >= 1 && b > 0
    ensures d * b >= b
  {
    if d > 1 {
      MulAtLeast(d - 1, b);
      assert d * b == (d - 1) * b + b;
    }
  }

  /** A value in [0, b) that differs from `a` by a multiple of `b` is `a`'s Euclidean remainder. */
  lemma {:induction false} EuclideanRemainderUnique(a: int, b: int, r: int, k: int)
    requires b > 0 && 0 <= r < b && a == r + k * b
    ensures r == a % b
  {
    var q, m := a / b, a % b;
    assert a == q * b + m && 0 <= m < b;
    var d := k - q;
    assert d * b == m - r;
    if d >= 1 {
      MulAtLeast(d, b);
    } else if d <= -1 {
      MulAtLeast(-d, b);
    }
  }

  /**
   * The source's `modulo`: adds or subtracts `b` repeatedly until `a` lands in
   * [0, b). With `b <= 0` the source's loops never reach that range, so `b > 0`
   * is what its callers must supply.
   */
  method Modulo(a: int, b: int) returns (r: int)
    requires b > 0
    ensures 0 <= r < b
    ensures r == a % b
    ensures 0 <= a < b ==> r == a
  {
    r := a;
    ghost var k := 0;
    if r < 0 {
      r, k := r + b, k + 1;
      while r < 0
        invariant r < b && r == a + k * b
        decreases -r
      {
        r, k := r + b, k + 1;
      }
    } else if r >= b {
      r, k := r - b, k - 1;
      while r >= b
        invariant 0 <= r && r == a + k * b
        decreases r
      {
        r, k := r - b, k - 1;
      }
    }
    EuclideanRemainderUnique(a, b, r, -k);
  }

  /** Linear interpolation `a + (b - a) * f`. */
  function Lerp(a: real, b: real, f: real): (r: real)
    ensures f == 0.0 ==> r == a
    ensures f == 1.0 ==> r == b
  {
    a + (b - a) * f
  }

  /** For a fraction in [0, 1] the interpolated value lies between the two ends. */
  lemma LerpBetween(a: real, b: real, f: real)
    requires 0.0 <= f <= 1.0
    ensures a <= b ==> a <= Lerp(a, b, f) <= b
    ensures b <= a ==> b <= Lerp(a, b, f) <= a
  {
    if a <= b {
      MulNonneg(b - a, f);
      MulNonneg(b - a, 1.0 - f);
    } else {
      MulNonneg(a - b, f);
      MulNonneg(a - b, 1.0 - f);
    }
  }

  lemma MulNonneg(x: real, y: real)
    requires x >= 0.0 && y >= 0.0
    ensures x * y >= 0.0
  {
  }

  /** Scaling by a positive factor keeps a strict order. */
  lemma ScaleStrict(x: real, m: real, c: real)
    requires c > 0.0
    ensures x > m <==> x * c > m * c
  {
    if x > m {
      assert (x - m) * c > 0.0;
    } else {
      MulNonneg(m - x, c);
    }
  }

  /** `Math.floor` as an integer. */
  function Floor(x: real): int { x.Floor }

  /** `Math.ceil` as an integer. */
  function Ceil(x: real): (r: int)
    ensures (r - 1) as real < x <= r as real
  {
    -((-x).Floor)
  }

  /** `Math.round`: the nearest integer, halves rounded up. */
  function Round(x: real): (r: int)
    ensures x - 0.5 < r as real <= x + 0.5
  {
    (x + 0.5).Floor
  }

  /**
   * `tolerantFloor`: the floor of `value`, unless `value` lies within
   * `threshold` of its rounded value, which is then returned instead.
   */
  function TolerantFloor(value: real, threshold: real): (r: int)
    ensures Abs(Round(value) as real - value) < threshold ==> r == Round(value)
    ensures !(Abs(Round(value) as real - value) < threshold) ==> r == Floor(value)
    ensures r == Floor(value) || (r == Floor(value) + 1 && r as real - value < threshold)
    ensures value == (value.Floor as real) ==> r == value.Floor
  {
    var x := Round(value);
    if Abs(x as real - value) < threshold then x else Floor(value)
  }

  /** `tolerantCeil`: as `TolerantFloor`, falling back to the ceiling. */
  function TolerantCeil(value: real, threshold: real): (r: int)
    ensures Abs(Round(value) as real - value) < threshold ==> r == Round(value)
    ensures !(Abs(Round(value) as real - value) < threshold) ==> r == Ceil(value)
    ensures r == Ceil(value) || (r == Ceil(value) - 1 && value - r as real < threshold)
    ensures value == (value.Floor as real) ==> r == value.Floor
  {
    var x := Round(value);
    if Abs(x as real - value) < threshold then x else Ceil(value)
  }

  function Abs(r: real): real { if r < 0.0 then -r else r }
}
