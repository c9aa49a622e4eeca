/**
 The "ritual" layer shared by the two exponent games: the hidden target is
 base^exponent, a guess is "close" when it lies within a gliding tolerance of
 that target, and the exponent drops after a close guess and rises otherwise.
 Both games use the same tolerance shape and differ only in the percentages,
 so the tolerance is defined once here, parameterised by them.
 */
module Ritual {
  import opened Guesses

  /** The tolerance is never below this many units. */
  const MinTolerance := 10
  /** Percentage points the window widens by per exponent step. */
  const PercentStep := 2

  /** base^exponent over unbounded integers (the source uses BigInteger.Pow). */
  function Pow(b: int, e: nat): (p: int)
    ensures b >= 1 ==> p >= 1
    ensures b >= 1 && e >= 1 ==> p >= b
  {
    if e == 0 then 1 else b * Pow(b, e - 1)
  }

  /** Integer division that rounds toward zero, as BigInteger division does. */
  function TruncDiv(a: int, d: int): (q: int)
    requires d > 0
    ensures 0 <= a ==> 0 <= q * d <= a < q * d + d
    ensures a < 0 ==> a <= q * d <= 0 && q * d < a + d
  {
    if a >= 0 then
      DivBounds(a, d);
      a / d
    else
      DivBounds(-a, d);
      -((-a) / d)
  }

  lemma DivBounds(n: nat, d: int)
    requires d > 0
    ensures 0 <= (n / d) * d <= n < (n / d) * d + d
  {
    assert n == (n / d) * d + n % d;
  }

  /** The tolerance window, in percent of the target, at a given exponent. */
  function Percent(exponent: int, basePercent: int, capPercent: int): (p: int)
    ensures p <= capPercent && p <= basePercent + (exponent - 1) * PercentStep
    ensures p == capPercent || p == basePercent + (exponent - 1) * PercentStep
  {
    Min(capPercent, basePercent + (exponent - 1) * PercentStep)
  }

  /**
   The "close enough" distance for a target at an exponent: that many percent
   of the target, rounded toward zero, but never below MinTolerance.
   */
  function GlidingTolerance(target: int, exponent: int, basePercent: int, capPercent: int): (tol: int)
    ensures tol >= MinTolerance
    ensures tol > MinTolerance ==>
      100 * tol <= target * Percent(exponent, basePercent, capPercent) < 100 * tol + 100
    ensures tol == MinTolerance <==>
      target * Percent(exponent, basePercent, capPercent) < 100 * (MinTolerance + 1)
  {
    var percent := Percent(exponent, basePercent, capPercent);
    var tol := TruncDiv(target * percent, 100);
    if tol < MinTolerance then MinTolerance else tol
  }

  /**
   One escalation move: the exponent drops by one when it is above 1 and the
   guess was within tolerance, and rises by one in every other case.
   */
  function Shift(exponent: nat, diff: int, tolerance: int): (next: nat)
    ensures next == exponent - 1 || next == exponent + 1
    ensures next < exponent <==> exponent > 1 && diff <= tolerance
    ensures exponent <= 1 ==> next == exponent + 1
    ensures next >= 1
  {
    if exponent > 1 && diff <= tolerance then exponent - 1 else exponent + 1
  }

  lemma MulMonotone(x: int, a: int, b: int)
    requires x >= 0 && a <= b
    ensures x * a <= x * b
  {
    assert x * b - x * a == x * (b - a);
  }

  lemma MulCancel(x: int, y: int, d: int)
    requires d > 0 && x * d < y * d
    ensures x < y
  {
    assert (y - x) * d == y * d - x * d;
  }

  lemma TruncDivMonotone(a: int, b: int, d: int)
    requires d > 0 && a <= b
    ensures TruncDiv(a, d) <= TruncDiv(b, d)
  {
    var qa, qb := TruncDiv(a, d), TruncDiv(b, d);
    assert qa * d < qb * d + d;
    assert qb * d + d == (qb + 1) * d;
    MulCancel(qa, qb + 1, d);
  }

  /** For a non-negative target the window never shrinks as the exponent climbs. */
  lemma ToleranceMonotone(target: int, e1: int, e2: int, basePercent: int, capPercent: int)
    requires target >= 0 && e1 <= e2
    ensures GlidingTolerance(target, e1, basePercent, capPercent)
         <= GlidingTolerance(target, e2, basePercent, capPercent)
  {
    var p1, p2 := Percent(e1, basePercent, capPercent), Percent(e2, basePercent, capPercent);
    MulMonotone(target, p1, p2);
    TruncDivMonotone(target * p1, target * p2, 100);
  }

  /** Once the percentage has reached its cap, further exponent steps change nothing. */
  lemma ToleranceSaturates(target: int, e1: int, e2: int, basePercent: int, capPercent: int)
    requires basePercent + (e1 - 1) * PercentStep >= capPercent
    requires basePercent + (e2 - 1) * PercentStep >= capPercent
    ensures GlidingTolerance(target, e1, basePercent, capPercent)
         == GlidingTolerance(target, e2, basePercent, capPercent)
  {
  }

  /** For a non-negative target the window is at most the capped percentage of it (or the floor). */
  lemma ToleranceAtMostCap(target: int, exponent: int, basePercent: int, capPercent: int)
    requires target >= 0
    ensures GlidingTolerance(target, exponent, basePercent, capPercent)
         <= Max(MinTolerance, TruncDiv(target * capPercent, 100))
  {
    var p := Percent(exponent, basePercent, capPercent);
    MulMonotone(target, p, capPercent);
    TruncDivMonotone(target * p, target * capPercent, 100);
  }
}
