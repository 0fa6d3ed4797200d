/** The number grammar of section 6 of RFC 8259, as parts and as text. */
module Lexeme {
  import opened Common

  /** A number as captured: a signed or unsigned 64-bit integer, or a 64-bit float. */
  datatype CapturedNumber = I64(i: int) | U64(n: nat) | F64(r: real)

  datatype Exponent = Exponent(marker: char, sign: Option<char>, digits: string)

  datatype NumberParts = NumberParts(negative: bool, integer: string, fraction: Option<string>, exponent: Option<Exponent>)

  /** `0`, or digits that do not start with `0`. */
  predicate ValidInteger(s: string) {
    s != "" && AllDigits(s) && (s[0] == '0' ==> |s| == 1)
  }

  predicate IsMarker(c: char) {
    c == 'e' || c == 'E'
  }

  predicate ValidExponent(e: Exponent) {
    && IsMarker(e.marker) && (e.sign.Some? ==> e.sign.value == '+' || e.sign.value == '-')
    && e.digits != "" && AllDigits(e.digits)
  }

  predicate ValidNumber(n: NumberParts) {
    && ValidInteger(n.integer)
    && (n.fraction.Some? ==> n.fraction.value != "" && AllDigits(n.fraction.value))
    && (n.exponent.Some? ==> ValidExponent(n.exponent.value))
  }

  function FractionText(n: NumberParts): string {
    if n.fraction.Some? then "." + n.fraction.value else ""
  }

  function SignText(e: Exponent): string {
    if e.sign.Some? then [e.sign.value] else ""
  }

  function ExponentText(n: NumberParts): string {
    if n.exponent.Some? then [n.exponent.value.marker] + SignText(n.exponent.value) + n.exponent.value.digits else ""
  }

  function Unsigned(n: NumberParts): string {
    n.integer + FractionText(n) + ExponentText(n)
  }

  function NumberText(n: NumberParts): string {
    (if n.negative then "-" else "") + Unsigned(n)
  }
}
