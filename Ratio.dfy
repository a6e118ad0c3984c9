/** Percentages as the suite computes them: `part / whole * 100`, or 0 when
    the whole is empty. */
module Ratio {
  /** `part / whole * 100`, or 0 when `whole` is 0: the accuracy of the
      validators, the relevance score and the success rate of the reports. */
  function Percent(part: nat, whole: nat): (a: real)
    requires part <= whole
    ensures 0.0 <= a <= 100.0
    ensures whole == 0 ==> a == 0.0
    ensures whole > 0 ==> a * whole as real == 100.0 * part as real
    ensures a == 100.0 <==> part == whole && whole > 0
  {
    if whole > 0 then part as real / whole as real * 100.0 else 0.0
  }
}
