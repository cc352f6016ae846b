/** The form checks `validIn` and `isAllPositive` (script.js:210-216) over JavaScript numbers. */
module Validation {

  /** A JavaScript number as far as the checks can tell it apart: a finite value,
      one of the two infinities, or NaN (what `+input.value` gives for text that is not a number). */
  datatype Num = Finite(value: real) | PositiveInfinity | NegativeInfinity | NaN

  /** `Number.isFinite(n)`. */
  predicate IsFinite(n: Num): (r: bool)
    ensures r <==> n != NaN && n != PositiveInfinity && n != NegativeInfinity
  {
    n.Finite?
  }

  /** `n > 0`: true for a positive finite value and for +Infinity, false for NaN. */
  predicate IsPositive(n: Num): (r: bool)
    ensures n == NaN || n == NegativeInfinity ==> !r
    ensures IsFinite(n) ==> (r <==> n.value > 0.0)
  {
    match n
    case Finite(v) => v > 0.0
    case PositiveInfinity => true
    case _ => false
  }

  /** `inputs.every(inp => Number.isFinite(inp))`, walked from the front as `every` does. */
  function ValidIn(inputs: seq<Num>): (r: bool)
    ensures r <==> forall i :: 0 <= i < |inputs| ==> IsFinite(inputs[i])
  {
    if inputs == [] then true else IsFinite(inputs[0]) && ValidIn(inputs[1..])
  }

  /** `inputs.every(inp => inp > 0)`. */
  function IsAllPositive(inputs: seq<Num>): (r: bool)
    ensures r <==> forall i :: 0 <= i < |inputs| ==> IsPositive(inputs[i])
  {
    if inputs == [] then true else IsPositive(inputs[0]) && IsAllPositive(inputs[1..])
  }
}
