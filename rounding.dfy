/**
 * Rounding to two decimals, as `parseFloat(x.toFixed(2))` does: the value is
 * rounded to the nearest hundredth, halves away from zero. The model rounds
 * the exact real; the binary representation of doubles is not modelled.
 */
module Rounding {

  /** The number of hundredths that `toFixed(2)` keeps. */
  function Cents(x: real): int
  {
    if x >= 0.0 then (x * 100.0 + 0.5).Floor else -((-x) * 100.0 + 0.5).Floor
  }

  /** `parseFloat(x.toFixed(2))`: never more than half a hundredth away from `x`. */
  function Round2(x: real): (r: real)
    ensures -0.005 <= r - x <= 0.005
    ensures x >= 0.0 ==> r >= 0.0
    ensures x <= 0.0 ==> r <= 0.0
  {
    Cents(x) as real / 100.0
  }

  /** A value that already has at most two decimals. */
  predicate IsCents(x: real)
  {
    Round2(x) == x
  }

  /** A whole number of hundredths is left as it is by rounding. */
  lemma RoundWholeCents(k: int)
    ensures Cents(k as real / 100.0) == k
    ensures IsCents(k as real / 100.0)
  {
    var x := k as real / 100.0;
    assert x * 100.0 == k as real;
    if k >= 0 {
      assert (x * 100.0 + 0.5).Floor == k;
    } else {
      assert (-x) * 100.0 == -k as real;
      assert ((-x) * 100.0 + 0.5).Floor == -k;
    }
  }

  /** Rounding twice is rounding once: the result of `toFixed(2)` is stable under a second `toFixed(2)`. */
  lemma Round2Idempotent(x: real)
    ensures IsCents(Round2(x))
    ensures Round2(Round2(x)) == Round2(x)
  {
    RoundWholeCents(Cents(x));
  }

  /** Rounding never reverses the order of two values. */
  lemma Round2Monotone(x: real, y: real)
    requires x <= y
    ensures Round2(x) <= Round2(y)
  {
    if x >= 0.0 {
      assert (x * 100.0 + 0.5).Floor <= (y * 100.0 + 0.5).Floor;
    } else if y < 0.0 {
      assert ((-y) * 100.0 + 0.5).Floor <= ((-x) * 100.0 + 0.5).Floor;
    }
  }

  /** The difference of two two-decimal values has two decimals, so rounding it changes nothing. */
  lemma CentsDifference(a: real, b: real)
    requires IsCents(a) && IsCents(b)
    ensures IsCents(a - b)
    ensures Round2(a - b) == a - b
  {
    var ka, kb := Cents(a), Cents(b);
    assert a - b == (ka - kb) as real / 100.0;
    RoundWholeCents(ka - kb);
  }

  /** A cents value that is at least `x` is at least `Round2(x)`. */
  lemma Round2BelowCentsAbove(x: real, c: real)
    requires IsCents(c) && x <= c
    ensures Round2(x) <= c
  {
    Round2Monotone(x, c);
  }

  /** A rounded value exceeds one hundredth exactly when the value is at least 0.015. */
  lemma Round2AboveOneCent(x: real)
    ensures Round2(x) > 0.01 <==> x >= 0.015
  {
    if x >= 0.0 {
      var k := (x * 100.0 + 0.5).Floor;
      assert Round2(x) > 0.01 <==> k >= 2;
    }
  }

  /** A rounded value is below minus one hundredth exactly when the value is at most -0.015. */
  lemma Round2BelowMinusOneCent(x: real)
    ensures Round2(x) < -0.01 <==> x <= -0.015
  {
    if x < 0.0 {
      var k := ((-x) * 100.0 + 0.5).Floor;
      assert Round2(x) < -0.01 <==> k >= 2;
    }
  }
}
