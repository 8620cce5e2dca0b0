/** The arithmetic of one animation frame of the count-up counter: the clamped
    progress `min(elapsed / duration, 1)`, the quartic ease-out `1 - (1 - p)^4`
    and the displayed count `floor(target * eased)`, all in exact reals as the
    source writes them, together with the equivalent integer formula
    `(target * (d^4 - (d - e)^4)) / d^4` (with `e = min(elapsed, d)`) that the
    bounds, the final value and monotonicity are proved through. */
module Easing {

  function Pow4(x: real): real { x * x * x * x }

  function IntPow4(x: int): int { x * x * x * x }

  /** `Math.min(timeElapsed / duration, 1)` */
  function Progress(elapsed: int, duration: int): real
    requires duration > 0
  {
    var q := elapsed as real / duration as real;
    if q < 1.0 then q else 1.0
  }

  /** `easeOutQuart(t) = 1 - Math.pow(1 - t, 4)` */
  function EaseOutQuart(p: real): real
  {
    1.0 - Pow4(1.0 - p)
  }

  /** `Math.floor(startValue + (endValue - startValue) * easeOutQuart(progress))`
      with `startValue = 0`: the count shown after a frame at `elapsed` ms. */
  function FrameCount(target: int, elapsed: int, duration: int): int
    requires duration > 0
  {
    (target as real * EaseOutQuart(Progress(elapsed, duration))).Floor
  }

  /** `min(elapsed, duration)` in integer milliseconds. */
  function Clamped(elapsed: int, duration: int): int
  {
    if elapsed < duration then elapsed else duration
  }

  /** The count as an integer quotient; Dafny's `/` floors for a positive divisor. */
  function ExactCount(target: int, elapsed: int, duration: int): int
    requires duration > 0
  {
    var d4 := IntPow4(duration);
    PositivePow4(duration);
    (target * (d4 - IntPow4(duration - Clamped(elapsed, duration)))) / d4
  }

  // ---------------------------------------------------------------------------
  // Arithmetic helpers

  lemma MulLeft(a: int, b: int, c: int)
    requires a <= b && c >= 0
    ensures a * c <= b * c
  {
    assert b * c - a * c == (b - a) * c;
  }

  lemma PositivePow4(x: int)
    requires x > 0
    ensures IntPow4(x) > 0
  {
    assert x * x > 0;
    assert x * x * x > 0;
  }

  lemma {:induction false} Pow4Monotone(a: int, b: int)
    requires 0 <= a <= b
    ensures 0 <= IntPow4(a) <= IntPow4(b)
  {
    MulLeft(a, b, a);
    MulLeft(a, b, b);
    var a2, b2 := a * a, b * b;
    assert 0 <= a2 <= b2;
    MulLeft(a2, b2, a2);
    MulLeft(a2, b2, b2);
    assert 0 <= a2 * a2 <= b2 * b2;
    assert IntPow4(a) == a2 * a2;
    assert IntPow4(b) == b2 * b2;
  }

  lemma DivMonotone(m: int, n: int, d: int)
    requires m <= n && d > 0
    ensures m / d <= n / d
  {
    var q1, q2 := m / d, n / d;
    assert m == q1 * d + m % d;
    assert n == q2 * d + n % d;
    if q1 >= q2 + 1 {
      MulLeft(q2 + 1, q1, d);
    }
  }

  lemma DivOfMultiple(k: int, d: int)
    requires d > 0
    ensures (k * d) / d == k
  {
    var q := (k * d) / d;
    var r := (k * d) % d;
    assert k * d == q * d + r && 0 <= r < d;
    assert (k - q) * d == r;
    if k >= q + 1 {
      MulLeft(1, k - q, d);
    } else if k <= q - 1 {
      MulLeft(k - q, -1, d);
    }
  }

  /** The floor of a real quotient of integers is Dafny's integer quotient. */
  lemma FloorOfQuotient(n: int, d: int)
    requires d > 0
    ensures (n as real / d as real).Floor == n / d
  {
    var q := n / d;
    var r := n % d;
    assert n == q * d + r && 0 <= r < d;
    var x := n as real / d as real;
    assert x == q as real + r as real / d as real;
    assert 0.0 <= r as real / d as real < 1.0;
    assert q as real <= x < q as real + 1.0;
  }

  lemma Pow4OfQuotient(a: int, d: int)
    requires d > 0
    ensures Pow4(a as real / d as real) == IntPow4(a) as real / IntPow4(d) as real
  {
    PositivePow4(d);
    var x := a as real / d as real;
    assert x * d as real == a as real;
    assert Pow4(x) * IntPow4(d) as real == IntPow4(a) as real by {
      assert IntPow4(d) as real == (d as real) * (d as real) * (d as real) * (d as real);
      assert IntPow4(a) as real == (a as real) * (a as real) * (a as real) * (a as real);
      calc {
        Pow4(x) * ((d as real) * (d as real) * (d as real) * (d as real));
        (x * d as real) * (x * d as real) * (x * d as real) * (x * d as real);
      }
    }
  }

  // ---------------------------------------------------------------------------
  // Progress

  /** Progress is the clamped elapsed time over the duration. */
  lemma ProgressIsClampedRatio(elapsed: int, duration: int)
    requires duration > 0
    ensures Progress(elapsed, duration) == Clamped(elapsed, duration) as real / duration as real
  {
    var q := elapsed as real / duration as real;
    assert q * duration as real == elapsed as real;
    if elapsed < duration {
      assert q < 1.0;
    } else {
      assert q >= 1.0;
    }
  }

  /** For a non-negative elapsed time, progress lies in [0, 1] and reaches 1
      exactly when the elapsed time reaches the duration. */
  lemma ProgressRange(elapsed: int, duration: int)
    requires elapsed >= 0 && duration > 0
    ensures 0.0 <= Progress(elapsed, duration) <= 1.0
    ensures Progress(elapsed, duration) == 1.0 <==> elapsed >= duration
  {
    ProgressIsClampedRatio(elapsed, duration);
    var c := Clamped(elapsed, duration);
    if c < duration {
      assert (c as real / duration as real) * duration as real == c as real;
    }
  }

  /** Another frame is requested (`progress < 1`) exactly while the elapsed
      time is below the duration, for any elapsed time. */
  lemma ProgressBelowOne(elapsed: int, duration: int)
    requires duration > 0
    ensures Progress(elapsed, duration) < 1.0 <==> elapsed < duration
  {
    ProgressIsClampedRatio(elapsed, duration);
    var c := Clamped(elapsed, duration);
    assert (c as real / duration as real) * duration as real == c as real;
  }

  // ---------------------------------------------------------------------------
  // The count

  lemma OneMinusQuotient(a: int, d: int)
    requires d > 0
    ensures 1.0 - a as real / d as real == (d - a) as real / d as real
  {
    var x := a as real / d as real;
    var y := (d - a) as real / d as real;
    assert x * d as real == a as real;
    assert y * d as real == (d - a) as real;
    var z := 1.0 - x - y;
    assert z * d as real == 0.0;
    if z > 0.0 {
      assert false;
    } else if z < 0.0 {
      assert false;
    }
  }

  lemma ScaleQuotient(k: int, a: int, d: int)
    requires d > 0
    ensures k as real * (a as real / d as real) == (k * a) as real / d as real
  {
    var x := a as real / d as real;
    assert x * d as real == a as real;
    assert (k as real * x) * d as real == k as real * a as real;
    assert (k * a) as real == k as real * a as real;
  }

  /** The eased progress is the rational `(d^4 - (d - e)^4) / d^4`. */
  lemma EasedAsQuotient(elapsed: int, duration: int)
    requires duration > 0
    ensures IntPow4(duration) > 0
    ensures EaseOutQuart(Progress(elapsed, duration))
            == (IntPow4(duration) - IntPow4(duration - Clamped(elapsed, duration))) as real
               / IntPow4(duration) as real
  {
    var d := duration;
    var e := Clamped(elapsed, d);
    PositivePow4(d);
    ProgressIsClampedRatio(elapsed, d);
    OneMinusQuotient(e, d);
    Pow4OfQuotient(d - e, d);
    OneMinusQuotient(IntPow4(d - e), IntPow4(d));
  }

  /** The count computed in reals equals the integer formula. */
  lemma FrameCountIsExact(target: int, elapsed: int, duration: int)
    requires duration > 0
    ensures FrameCount(target, elapsed, duration) == ExactCount(target, elapsed, duration)
  {
    var d4 := IntPow4(duration);
    var k := d4 - IntPow4(duration - Clamped(elapsed, duration));
    EasedAsQuotient(elapsed, duration);
    ScaleQuotient(target, k, d4);
    FloorOfQuotient(target * k, d4);
  }

  /** For a non-negative target and elapsed time, every frame's count lies
      between 0 and the target. */
  lemma FrameCountBounds(target: int, elapsed: int, duration: int)
    requires target >= 0 && elapsed >= 0 && duration > 0
    ensures 0 <= FrameCount(target, elapsed, duration) <= target
  {
    FrameCountIsExact(target, elapsed, duration);
    var d := duration;
    var e := Clamped(elapsed, d);
    PositivePow4(d);
    var d4 := IntPow4(d);
    var x4 := IntPow4(d - e);
    Pow4Monotone(d - e, d);
    MulLeft(0, target, d4 - x4);
    MulLeft(d4 - x4, d4, target);
    DivMonotone(0, target * (d4 - x4), d4);
    DivMonotone(target * (d4 - x4), target * d4, d4);
    DivOfMultiple(target, d4);
  }

  /** Once the elapsed time reaches the duration the count is exactly the target. */
  lemma FrameCountAtEnd(target: int, elapsed: int, duration: int)
    requires elapsed >= duration > 0
    ensures FrameCount(target, elapsed, duration) == target
  {
    FrameCountIsExact(target, elapsed, duration);
    PositivePow4(duration);
    assert IntPow4(duration - Clamped(elapsed, duration)) == 0;
    DivOfMultiple(target, IntPow4(duration));
  }

  /** The first frame (elapsed time 0) shows 0. */
  lemma FrameCountAtStart(target: int, duration: int)
    requires duration > 0
    ensures FrameCount(target, 0, duration) == 0
  {
    ProgressIsClampedRatio(0, duration);
  }

  /** For a non-negative target the count never decreases as time goes on. */
  lemma FrameCountMonotone(target: int, e1: int, e2: int, duration: int)
    requires target >= 0 && e1 <= e2 && duration > 0
    ensures FrameCount(target, e1, duration) <= FrameCount(target, e2, duration)
  {
    FrameCountIsExact(target, e1, duration);
    FrameCountIsExact(target, e2, duration);
    var d := duration;
    PositivePow4(d);
    var d4 := IntPow4(d);
    var c1, c2 := Clamped(e1, d), Clamped(e2, d);
    Pow4Monotone(d - c2, d - c1);
    var n1 := target * (d4 - IntPow4(d - c1));
    var n2 := target * (d4 - IntPow4(d - c2));
    assert n1 <= n2 by {
      assert d4 - IntPow4(d - c1) <= d4 - IntPow4(d - c2);
    }
    DivMonotone(n1, n2, d4);
  }
}
