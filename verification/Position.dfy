/**
 From degrees on the rail to motor counts (`calcTargetPosition`), in exact arithmetic. The factor pi of
 both circumferences cancels, which leaves 65536 / 360 * 2.2 / 0.029 = 3604480 / 261 counts a degree.
 */
module Position {
  const NUM := 3604480
  const DEN := 261
  const INT_MIN := -0x8000_0000
  const INT_MAX := 0x7fff_ffff

  /** Division that drops the fraction, as a conversion to `int` does. */
  function TruncDiv(a: int, b: int): int
    requires b > 0
  {
    if a >= 0 then a / b else -(-a / b)
  }

  function Trunc(x: real): int {
    if x >= 0.0 then x.Floor else -(-x).Floor
  }

  /** Counts for a whole number of degrees. */
  function TargetOf(angle: int): int {
    TruncDiv(NUM * angle, DEN)
  }

  /** Hundredths of a degree stored into the integer angle. */
  function WholeDegrees(hundredths: int): int {
    TruncDiv(hundredths, 100)
  }

  /** The formula as it is written, with its two circumferences, over the reals. */
  function Formula(angle: int): real {
    65536.0 * (angle as real) / 360.0 * (2.2 * 3.1415) / (0.029 * 3.1415)
  }

  /** The written formula, truncated, is the reduced integer ratio. */
  lemma TargetIsFormula(angle: int)
    ensures Trunc(Formula(angle)) == TargetOf(angle)
  {
  }

  lemma TargetOdd(angle: int)
    ensures TargetOf(-angle) == -TargetOf(angle)
  {
  }

  /** Truncation loses less than one count, always towards zero. */
  lemma TargetNearExact(angle: int)
    ensures var lost := NUM * angle - DEN * TargetOf(angle);
      -DEN < lost < DEN && (angle >= 0 ==> lost >= 0) && (angle <= 0 ==> lost <= 0)
  {
  }

  /** The target rises by more than 13809 counts with every degree, so distinct angles never share a target. */
  lemma TargetIncreases(a: int, b: int)
    requires a < b
    ensures TargetOf(a) + 13809 * (b - a) < TargetOf(b)
  {
    TargetNearExact(a);
    TargetNearExact(b);
    hide TargetOf;
  }

  /** A target fits the 32-bit `int` it is stored in exactly for angles up to 155499 degrees either way. */
  lemma TargetFits(angle: int)
    ensures INT_MIN <= TargetOf(angle) <= INT_MAX <==> -155499 <= angle <= 155499
  {
  }

  /** A count for hundredths of a degree loses less than 0.99 degrees plus one count, and never overshoots. */
  lemma MoveError(hundredths: int)
    ensures var counts := TargetOf(WholeDegrees(hundredths));
      var lost := NUM * hundredths - 100 * DEN * counts;
      -356869520 <= lost <= 356869520
      && (hundredths >= 0 ==> lost >= 0 && counts >= 0) && (hundredths <= 0 ==> lost <= 0 && counts <= 0)
  {
  }
}
