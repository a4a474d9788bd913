/**
 * `Clock`: timings kept in a fixed-size ring buffer, with their average and
 * variance recomputed after each measurement. `System.nanoTime` is a
 * parameter of the methods that read it; nanosecond readings are integers
 * and milliseconds are reals.
 */
module Clocks {
  import opened Wrappers
  import opened MathUtils

  /** The sentinel `inTime` holds until `in()` is first called. */
  const NeverIn: int := -1

  /** The index `out()` moves to: one further, back to 0 at the end of a buffer of length n. */
  function NextSlot(index: int, n: int): int
  {
    if index + 1 >= n then 0 else index + 1
  }

  /**
   * With at least one slot, the first step lands on slot 0, and stepping
   * from slot (k - 1) mod n reaches slot k mod n: the index goes round the
   * buffer in order.
   */
  lemma NextSlotCycles(k: int, n: int)
    requires n >= 1 && k >= 1
    ensures NextSlot(NeverIn, n) == 0
    ensures NextSlot((k - 1) % n, n) == k % n
  {
    var q, r := (k - 1) / n, (k - 1) % n;
    assert k - 1 == q * n + r;
    if r + 1 < n {
      EuclideanRemainderUnique(k, n, r + 1, q);
    } else {
      EuclideanRemainderUnique(k, n, 0, q + 1);
    }
  }

  /**
   * As written, a clock built with n = 0 has an empty buffer, yet the first
   * `out()` steps to slot 0 and writes there: the index is out of bounds.
   */
  lemma EmptyBufferSlot()
    ensures NextSlot(NeverIn, 0) == 0 && !(NextSlot(NeverIn, 0) < 0)
  {
  }

  /** The sum of the timings. */
  function Sum(s: seq<real>): real
  {
    if |s| == 0 then 0.0 else Sum(s[..|s| - 1]) + s[|s| - 1]
  }

  /** The sum of the squared timings. */
  function SumSquares(s: seq<real>): real
  {
    if |s| == 0 then 0.0 else SumSquares(s[..|s| - 1]) + Square(s[|s| - 1])
  }

  function Square(d: real): (r: real)
    ensures r >= 0.0
  {
    if d < 0.0 then
      MulNonneg(-d, -d);
      d * d
    else
      MulNonneg(d, d);
      d * d
  }

  /** The sum of the squared deviations from a: the spread the variance measures. */
  function Spread(s: seq<real>, a: real): (r: real)
    ensures r >= 0.0
  {
    if |s| == 0 then 0.0 else Spread(s[..|s| - 1], a) + Square(s[|s| - 1] - a)
  }

  /** `out()`'s average: the only slot for a buffer shorter than 2, otherwise the mean. */
  function Average(s: seq<real>): real
    requires |s| >= 1
  {
    if |s| < 2 then s[0] else Sum(s) / (|s| as real)
  }

  /** `out()`'s variance: 0 for a buffer shorter than 2, otherwise `(Σt² - n·avg·avg) / (n - 1)`. */
  function Variance(s: seq<real>): real
    requires |s| >= 1
  {
    if |s| < 2 then 0.0 else SampleVariance(SumSquares(s), |s| as real, Average(s))
  }

  /** The formula `out()` evaluates: `(Σt² - n·avg·avg) / (n - 1)`. */
  function SampleVariance(squareSum: real, n: real, avg: real): real
    requires n != 1.0
  {
    (squareSum - n * avg * avg) / (n - 1.0)
  }

  /**
   * One step of the expansion: adding x to m timings with spread sp, sum t
   * and square sum q adds d = (x - a)² to the spread and e = x² to the
   * square sum.
   */
  lemma SpreadStep(sp: real, q: real, t: real, m: real, x: real, a: real, d: real, e: real, sp2: real, q2: real, t2: real, m2: real)
    requires sp == q - 2.0 * a * t + m * a * a
    requires d == Square(x - a) && e == Square(x)
    requires sp2 == sp + d && q2 == q + e && t2 == t + x && m2 == m + 1.0
    ensures sp2 == q2 - 2.0 * a * t2 + m2 * a * a
  {
  }

  /**
   * The spread about a, expanded: Σt² - 2a·Σt + n·a², stated on the named
   * values sp, q, t and m of the spread, the square sum, the sum and the count.
   */
  lemma {:induction false} SpreadExpand(s: seq<real>, a: real, sp: real, q: real, t: real, m: real)
    requires sp == Spread(s, a) && q == SumSquares(s) && t == Sum(s) && m == |s| as real
    ensures sp == q - 2.0 * a * t + m * a * a
    decreases |s|
  {
    if |s| > 0 {
      var p, x := s[..|s| - 1], s[|s| - 1];
      var sp1, q1, t1, m1 := Spread(p, a), SumSquares(p), Sum(p), |p| as real;
      SpreadExpand(p, a, sp1, q1, t1, m1);
      SpreadStep(sp1, q1, t1, m1, x, a, Square(x - a), Square(x), sp, q, t, m);
    } else {
      SpreadEmpty(sp, q, t, m, a);
    }
  }

  /** With no timings every term of the expansion is zero. */
  lemma SpreadEmpty(sp: real, q: real, t: real, m: real, a: real)
    requires sp == 0.0 && q == 0.0 && t == 0.0 && m == 0.0
    ensures sp == q - 2.0 * a * t + m * a * a
  {
  }

  /** At the mean (t = n·a) the expanded spread q - 2a·t + n·a² is the variance's numerator q - n·a·a, over n - 1. */
  lemma SpreadAtMean(sp: real, q: real, t: real, n: real, a: real, v: real)
    requires n > 1.0 && t == n * a && sp == q - 2.0 * a * t + n * a * a && v == (q - n * a * a) / (n - 1.0)
    ensures v == sp / (n - 1.0)
  {
    assert sp == q - n * a * a;
  }

  /**
   * For two or more timings the variance formula is the sample variance,
   * the spread about the average divided by n - 1, so it is never negative
   * and the standard deviation's square root is defined.
   */
  lemma VarianceIsSampleVariance(s: seq<real>)
    requires |s| >= 2
    ensures Variance(s) == Spread(s, Average(s)) / ((|s| as real) - 1.0)
    ensures Variance(s) >= 0.0
  {
    var n, a := |s| as real, Average(s);
    var sp, q, t, v := Spread(s, a), SumSquares(s), Sum(s), Variance(s);
    SpreadExpand(s, a, sp, q, t, n);
    VarianceAt(s, v, q, n, a, t);
    SpreadAtMean(sp, q, t, n, a, v);
    DivNonNeg(sp, n - 1.0);
  }

  /** The average and the variance of two or more timings, on named values. */
  lemma VarianceAt(s: seq<real>, v: real, q: real, n: real, a: real, t: real)
    requires |s| >= 2 && v == Variance(s) && q == SumSquares(s) && n == |s| as real && a == Average(s) && t == Sum(s)
    ensures n > 1.0 && a == t / n && t == n * a
    ensures v == (q - n * a * a) / (n - 1.0)
  {
  }

  lemma DivNonNeg(x: real, y: real)
    requires x >= 0.0 && y > 0.0
    ensures x / y >= 0.0
  {
    assert x / y * y == x;
  }

  /** Equal timings c everywhere: the sum is n·c. */
  lemma {:induction false} SumConstant(s: seq<real>, c: real)
    requires forall i :: 0 <= i < |s| ==> s[i] == c
    ensures Sum(s) == (|s| as real) * c
    decreases |s|
  {
    if |s| > 0 {
      SumConstant(s[..|s| - 1], c);
    }
  }

  /** Equal timings c everywhere: the average is c and the variance 0. */
  lemma ConstantTimings(s: seq<real>, c: real)
    requires |s| >= 1 && forall i :: 0 <= i < |s| ==> s[i] == c
    ensures Average(s) == c && Variance(s) == 0.0
  {
    SumConstant(s, c);
    if |s| >= 2 {
      var n := |s| as real;
      assert Sum(s) / n == c;
      VarianceIsSampleVariance(s);
      SpreadConstant(s, c);
    }
  }

  /** Equal timings c everywhere: no spread about c. */
  lemma {:induction false} SpreadConstant(s: seq<real>, c: real)
    requires forall i :: 0 <= i < |s| ==> s[i] == c
    ensures Spread(s, c) == 0.0
    decreases |s|
  {
    if |s| > 0 {
      SpreadConstant(s[..|s| - 1], c);
    }
  }

  /** A clock whose buffer has no slot; `out()` on it fails, so it is refused here (see `EmptyBufferSlot`). */
  class Clock {
    var inTime: int
    const lastTimes: array<real>
    var currentTimeIndex: int
    var dt: real
    var avgDt: real
    var dtVariance: real
    /** How many times `out()` has completed. */
    ghost var outs: nat

    /**
     * The index has gone round the buffer `outs` times, the current slot
     * holds the last dt, and the average and variance are those of the buffer.
     */
    ghost predicate Valid()
      reads this, lastTimes
    {
      var n := lastTimes.Length;
      n >= 1 && -1 <= currentTimeIndex < n
      && (outs == 0 <==> currentTimeIndex == -1)
      && (outs > 0 ==> currentTimeIndex == (outs - 1) % n && lastTimes[currentTimeIndex] == dt)
      && (outs == 0 ==> dt == 0.0)
      && avgDt == Average(lastTimes[..]) && dtVariance == Variance(lastTimes[..])
    }

    /** `new Clock(n)`: n zero timings, no `in()` yet; the buffer needs at least one slot. */
    constructor (n: int)
      requires n >= 1
      ensures Valid() && fresh(lastTimes) && outs == 0
      ensures lastTimes.Length == n && forall i :: 0 <= i < n ==> lastTimes[i] == 0.0
      ensures inTime == NeverIn && currentTimeIndex == -1 && dt == 0.0 && avgDt == 0.0 && dtVariance == 0.0
    {
      inTime := NeverIn;
      lastTimes := new real[n](_ => 0.0);
      currentTimeIndex := -1;
      dt, avgDt, dtVariance := 0.0, 0.0, 0.0;
      outs := 0;
      new;
      ConstantTimings(lastTimes[..], 0.0);
    }

    /** `in()`: remember the reading. */
    method In(now: int)
      modifies this`inTime
      ensures inTime == now
    {
      inTime := now;
    }

    /**
     * `out()`: fails, changing nothing, when `in()` was never called;
     * otherwise dt is the time since `in()` in milliseconds, the index steps
     * to the next slot, only that slot changes (to dt), and the average and
     * variance are those of the new buffer.
     */
    method Out(now: int) returns (r: Outcome<string>)
      requires Valid()
      modifies this`dt, this`currentTimeIndex, this`avgDt, this`dtVariance, this`outs, lastTimes
      ensures Valid()
      ensures old(inTime) == NeverIn ==> r.Fail? && unchanged(this) && unchanged(lastTimes)
      ensures old(inTime) != NeverIn ==>
        r.Pass? && outs == old(outs) + 1
        && dt == ((now - inTime) as real) / 1000000.0
        && currentTimeIndex == NextSlot(old(currentTimeIndex), lastTimes.Length)
        && lastTimes[..] == old(lastTimes[..])[currentTimeIndex := dt]
    {
      if inTime == NeverIn {
        return Fail("Clock.out() was called even though Clock.in() was never called before");
      }
      dt := ((now - inTime) as real) / 1000000.0;
      var n := lastTimes.Length;
      if outs >= 1 {
        NextSlotCycles(outs, n);
      }
      currentTimeIndex := currentTimeIndex + 1;
      if currentTimeIndex >= n {
        currentTimeIndex := 0;
      }
      lastTimes[currentTimeIndex] := dt;
      outs := outs + 1;
      UpdateStatistics();
      r := Pass;
    }

    /** The second half of `out()`: the average and variance of the buffer as it now is. */
    method UpdateStatistics()
      requires lastTimes.Length >= 1
      modifies this`avgDt, this`dtVariance
      ensures avgDt == Average(lastTimes[..]) && dtVariance == Variance(lastTimes[..])
    {
      var n := lastTimes.Length;
      if n < 2 {
        avgDt := lastTimes[0];
        dtVariance := 0.0;
      } else {
        var sum, squareSum := SumTimes(lastTimes);
        avgDt := sum / (n as real);
        dtVariance := SampleVariance(squareSum, n as real, avgDt);
      }
    }

    /** The loop of `out()` that adds up the timings and their squares. */
    static method SumTimes(a: array<real>) returns (sum: real, squareSum: real)
      ensures sum == Sum(a[..]) && squareSum == SumSquares(a[..])
    {
      sum, squareSum := 0.0, 0.0;
      for i := 0 to a.Length
        invariant sum == Sum(a[..i]) && squareSum == SumSquares(a[..i])
      {
        assert a[..i + 1][..i] == a[..i];
        var t := a[i];
        sum := sum + t;
        squareSum := squareSum + Square(t);
      }
      assert a[..a.Length] == a[..];
    }

    /** `tick()`: `out()` at the first reading unless `in()` was never called, then `in()` at the second. */
    method Tick(outNow: int, inNow: int)
      requires Valid()
      modifies this, lastTimes
      ensures Valid() && inTime == inNow
      ensures old(inTime) == NeverIn ==> outs == old(outs) && lastTimes[..] == old(lastTimes[..]) && dt == old(dt)
      ensures old(inTime) != NeverIn ==>
        outs == old(outs) + 1
        && dt == ((outNow - old(inTime)) as real) / 1000000.0
        && lastTimes[..] == old(lastTimes[..])[currentTimeIndex := dt]
    {
      if inTime != NeverIn {
        var _ := Out(outNow);
      }
      In(inNow);
    }

    /** `getAvgFramerate`: 0 for a zero average, otherwise frames per second. */
    function AvgFramerate(): (r: real)
      reads this
      ensures avgDt == 0.0 ==> r == 0.0
      ensures avgDt != 0.0 ==> r * avgDt == 1000.0
    {
      if avgDt == 0.0 then 0.0 else 1000.0 / avgDt
    }

    /** `getFramerate`: 0 before the first measurement or for a zero dt, otherwise the rate of the last one. */
    function Framerate(): (r: real)
      requires Valid()
      reads this, lastTimes
      ensures dt == 0.0 ==> r == 0.0
      ensures dt != 0.0 ==> r * dt == 1000.0
    {
      if dt == 0.0 then 0.0 else 1000.0 / lastTimes[currentTimeIndex]
    }

    /** The variance `getStandardDeviation` takes the root of is never negative. */
    lemma VarianceNonNegative()
      requires Valid()
      ensures dtVariance >= 0.0
    {
      if lastTimes.Length >= 2 {
        VarianceIsSampleVariance(lastTimes[..]);
      }
    }
  }
}
