/**
 * The part of JavaScript's Number semantics the CPF validator relies on:
 * string-to-number coercion of one character, `+`, `*`, and loose `!=`.
 * A value is either a finite integer or NaN; NaN absorbs every arithmetic
 * operation and is unequal to everything.
 */
module JsNumber {
  import opened Text

  datatype Number = Num(value: int) | NaN

  /** `a + b`: NaN absorbs. */
  function Add(a: Number, b: Number): Number
  {
    if a.Num? && b.Num? then Num(a.value + b.value) else NaN
  }

  /** `a * b`: NaN absorbs. */
  function Mul(a: Number, b: Number): Number
  {
    if a.Num? && b.Num? then Num(a.value * b.value) else NaN
  }

  /** `a != b` between numbers: true whenever either side is NaN. */
  predicate LooseNe(a: Number, b: Number) {
    a.NaN? || b.NaN? || a.value != b.value
  }

  /**
   * `Number(s.charAt(i))` (also what `Math.floor(s.charAt(i))` and
   * `s.charAt(i) * k` start from): "" past the end is 0, a digit is its
   * value, and `.`, `-`, `/` are NaN. (Whitespace, which JavaScript turns
   * into 0, never reaches here: the validators are modelled on document
   * text only.)
   */
  function CharAtNumber(s: string, i: nat): (r: Number)
    ensures r.NaN? <==> i < |s| && !IsDigit(s[i])
    ensures r.Num? ==> 0 <= r.value < 10
  {
    if i >= |s| then Num(0)
    else if IsDigit(s[i]) then Num(DigitVal(s[i]))
    else NaN
  }
}
