/**
 * JavaScript's rounding operators on exact reals: `Math.floor` is `.Floor`,
 * `Math.round(x)` is `(x + 0.5).Floor`, and `Math.round(x * 10) / 10` rounds
 * to one decimal.
 */
module Numeric {

  function Min(a: int, b: int): (r: int)
    ensures r <= a && r <= b && (r == a || r == b)
  {
    if a <= b then a else b
  }

  /** `Math.round`: halves round up, towards positive infinity. */
  function JsRound(x: real): (r: int)
    ensures x - 0.5 < r as real <= x + 0.5
  {
    (x + 0.5).Floor
  }

  /** `Math.round(x * 10) / 10`, the one-decimal rounding of the uniform segmenter. */
  function Round1(x: real): (r: real)
    ensures x - 0.05 < r <= x + 0.05
    ensures (r * 10.0).Floor as real == r * 10.0
  {
    JsRound(x * 10.0) as real / 10.0
  }

  lemma FloorMonotone(x: real, y: real)
    requires x <= y
    ensures x.Floor <= y.Floor
  {
  }

  lemma Round1Monotone(x: real, y: real)
    requires x <= y
    ensures Round1(x) <= Round1(y)
  {
    FloorMonotone(x * 10.0 + 0.5, y * 10.0 + 0.5);
  }

  /** An integer below a real is at most its floor. */
  lemma IntBelowFloor(n: int, x: real)
    requires n as real <= x
    ensures n <= x.Floor
  {
  }

  /** Scaling by a positive factor keeps the order, hence the order of the floors. */
  lemma ScaledFloorMonotone(x: real, y: real, k: real)
    requires x <= y && k >= 0.0
    ensures x * k <= y * k
    ensures (x * k).Floor <= (y * k).Floor
  {
    var d := y - x;
    assert d * k >= 0.0;
    assert y * k == x * k + d * k;
    FloorMonotone(x * k, y * k);
  }

  /** A frame number divided by the rate and multiplied back is the frame number. */
  lemma FrameSecondsRoundTrip(n: int, fps: real)
    requires fps > 0.0
    ensures (n as real / fps) * fps == n as real
    ensures ((n as real / fps) * fps).Floor == n
  {
  }

  lemma MulMonotone(a: int, b: int, c: int)
    requires a <= b && c >= 0
    ensures a * c <= b * c
  {
    assert b * c - a * c == (b - a) * c;
  }

  /**
   * The floor of a quotient, multiplied back, stays within the floor of the
   * dividend: `Math.floor(x / n) * n <= Math.floor(x)`.
   */
  lemma FloorQuotientTimes(x: real, n: nat)
    requires x >= 0.0 && n > 0
    ensures (x / n as real).Floor >= 0
    ensures (x / n as real).Floor * n <= x.Floor
  {
    var q := (x / n as real).Floor;
    assert q as real <= x / n as real;
    assert (q * n) as real == q as real * n as real;
    assert q as real * n as real <= (x / n as real) * n as real;
    IntBelowFloor(q * n, x);
  }

  /**
   * The next multiple of `n` after the floor of the quotient lies beyond the
   * floor of the dividend: `Math.floor(x) < (Math.floor(x / n) + 1) * n`.
   */
  lemma FloorQuotientAbove(x: real, n: nat)
    requires x >= 0.0 && n > 0
    ensures x.Floor < ((x / n as real).Floor + 1) * n
  {
    var q := (x / n as real).Floor;
    assert x / n as real < (q + 1) as real;
    assert ((q + 1) * n) as real == (q + 1) as real * n as real;
    assert (x / n as real) * n as real == x;
    ScaleOrder(x / n as real, (q + 1) as real, n as real);
    assert x < ((q + 1) * n) as real;
  }

  /** A value between `a` and `b`, scaled by a positive factor to `n`, puts `n` between the scaled bounds. */
  lemma ScaleBetween(a: real, q: real, b: real, k: real, n: real)
    requires k > 0.0 && a <= q < b && q * k == n
    ensures a * k <= n < b * k
  {
    ScaleOrder(a, q, k);
    ScaleOrder(q, b, k);
  }

  /** Multiplying by a positive factor preserves and reflects both orders. */
  lemma ScaleOrder(a: real, b: real, k: real)
    requires k > 0.0
    ensures a <= b <==> a * k <= b * k
    ensures a < b <==> a * k < b * k
  {
    assert b * k - a * k == (b - a) * k;
  }

  /** Dividing by a positive factor preserves the order. */
  lemma DivideOrder(a: real, b: real, k: real)
    requires k > 0.0 && a <= b
    ensures a / k <= b / k
  {
    ScaleOrder(a / k, b / k, k);
  }
}
