/** The typed number conversions of both profiles, as the serializer uses them. */
module ProfileNumbers {
  import opened Common
  import opened Decimal
  import opened Lexeme
  import opened Numbers
  import opened Serializer
  import opened SerializerRoundTrip

  function Convert(profile: Profile, x: TypedNumber): Option<CapturedNumber> {
    match x
    case Signed(i) => FromI128(i, profile)
    case Unsigned(n) => FromU128(n, profile)
    case Float(r) => FromF64(Finite(r), profile)
    case NonFinite => FromF64(NotFinite, profile)
  }

  /** Both profiles give back what they produced, so capturing is idempotent under either. */
  lemma ProfilesAreStable(profile: Profile)
    ensures Stable(x => Convert(profile, x))
  {
    hide ExactBinary64;
    forall k: nat | k < 256
      ensures Convert(profile, Unsigned(k)) == Some(U64(k))
    {
      SmallIsExact(k);
    }
  }

  lemma SmallIsExact(k: nat)
    requires k < 256
    ensures ExactBinary64(k)
  {
    hide ExactBinary64, BitLength, TrailingZeros;
    Pow2Monotone(8, 53);
    assert Pow2(8) == 256;
    assert Scaled(k, 0) == k;
    ExactBinary64Meaning(k);
  }

  /** Typed floats: what is not finite is refused, and in the safe profile an unsafe integer; the rest is kept. */
  lemma TypedFloatsExact(value: Binary64, profile: Profile)
    ensures FromF64(value, profile).Some? <==>
            value.Finite? && (profile == IJsonSafeIntegers ==> !UnsafeInteger(value.value))
    ensures FromF64(value, profile).Some? ==> FromF64(value, profile) == Some(F64(value.value))
  {
  }

  /**
   In the RFC 8785 profile a lexeme is accepted exactly if it rounds to a finite number; it then stands for that number,
   and is captured again unchanged.
   */
  lemma RfcProfileRounds(lexeme: string, toBinary64: string -> Binary64)
    ensures var r := ParseJsonNumber(lexeme, Rfc8785, toBinary64);
            && (r.Some? <==> toBinary64(lexeme) != NotFinite)
            && (r.Some? ==> Meaning(r.value) == toBinary64(lexeme).value && Convert(Rfc8785, CallOf(r.value)) == r)
  {
  }

  // ------------------------------------------- capturing a parsed number again

  /** An integer outside the safe range. */
  predicate UnsafeInteger(r: real) {
    r == r.Floor as real && (r > MAX_SAFE_INTEGER as real || r < -(MAX_SAFE_INTEGER as real))
  }

  ghost predicate DenotesInteger(n: NumberParts)
    requires ValidNumber(n)
  {
    exists m: nat :: IsInteger(Value(Digits(n)), Scale(n), m)
  }

  /** A number parsed in the safe profile becomes a float exactly if it denotes no integer. */
  lemma FloatsDenoteNoInteger(n: NumberParts, toBinary64: string -> Binary64, parsed: CapturedNumber)
    requires ValidNumber(n) && ParseJsonNumber(NumberText(n), IJsonSafeIntegers, toBinary64) == Some(parsed)
    ensures parsed.F64? <==> !DenotesInteger(n)
    ensures parsed.F64? ==> toBinary64(NumberText(n)) == Finite(parsed.r)
    ensures !parsed.F64? ==> Convert(IJsonSafeIntegers, CallOf(parsed)) == Some(parsed)
  {
    SafeProfileClassifies(n, toBinary64);
    var v := Value(Digits(n));
    hide Value, Digits, ParseJsonNumber, NumberText, ValidNumber;
    if v == 0 {
      assert IsInteger(v, Scale(n), 0);
    } else if DenotesInteger(n) {
      var m: nat :| IsInteger(v, Scale(n), m);
    }
  }

  /**
   The safe profile checks the rounded value of a number only when it is captured, not when it is parsed. So what was
   parsed is captured again unchanged, except exactly where a number that denotes no integer rounds to an integer
   outside the safe range: that one is refused.
   */
  lemma ParsedNumberIsCapturedAgainIff(n: NumberParts, toBinary64: string -> Binary64, parsed: CapturedNumber)
    requires ValidNumber(n) && ParseJsonNumber(NumberText(n), IJsonSafeIntegers, toBinary64) == Some(parsed)
    ensures var rounded, again := toBinary64(NumberText(n)), Convert(IJsonSafeIntegers, CallOf(parsed));
            again ==
            if !DenotesInteger(n) && rounded.Finite? && UnsafeInteger(rounded.value) then None else Some(parsed)
  {
    FloatsDenoteNoInteger(n, toBinary64, parsed);
    hide ParseJsonNumber, DenotesInteger, NumberText, ValidNumber;
  }

  /** The lexeme `9007199254740992.5`. */
  const HALF_ABOVE := NumberParts(false, "9007199254740992", Some("5"), None)

  lemma HalfParts(n: NumberParts)
    requires n == HALF_ABOVE
    ensures ValidNumber(n) && NumberText(n) == "9007199254740992.5"
    ensures Digits(n) == n.integer + "5" && Scale(n) == -1 && ScaleFits(n)
  {
    hide Value;
  }

  lemma HalfIsNoInteger(n: NumberParts, whole: string)
    requires ValidNumber(n) && AllDigits(whole) && Digits(n) == whole + "5" && Scale(n) == -1
    ensures Value(Digits(n)) > 0 && forall m: nat :: !IsInteger(Value(Digits(n)), Scale(n), m)
  {
    assert Digits(n)[..|whole|] == whole;
    var w := Value(whole);
    assert Value(Digits(n)) == 10 * w + 5;
    hide Value, Digits, ValidNumber;
    assert Pow10(1) == 10 * Pow10(0);
  }

  /** The number 2^53 + 1/2, which binary64 rounds to 2^53, is parsed, and refused when it is captured again. */
  lemma HalfAboveSafeRange(n: NumberParts, toBinary64: string -> Binary64)
    requires n == HALF_ABOVE && toBinary64(NumberText(n)) == Finite(9007199254740992.0)
    ensures ParseJsonNumber(NumberText(n), IJsonSafeIntegers, toBinary64) == Some(F64(9007199254740992.0))
    ensures Convert(IJsonSafeIntegers, CallOf(F64(9007199254740992.0))) == None
  {
    hide Value, ParseJsonNumber, NumberText, Digits, ScaleFits, ValidNumber, IsInteger, Scale;
    HalfParts(n);
    HalfIsNoInteger(n, n.integer);
    SafeProfileClassifies(n, toBinary64);
  }
}
