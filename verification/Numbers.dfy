/** Exact classification of JSON numbers and of typed integers. */
module Numbers {
  import opened Common
  import opened Decimal
  import opened Lexeme

  const MAX_SAFE_INTEGER := 9_007_199_254_740_991
  const MAX_SAFE_DIGITS := "9007199254740991"
  const I64_MIN := -0x8000_0000_0000_0000
  const I64_MAX := 0x7fff_ffff_ffff_ffff

  datatype Profile = Rfc8785 | IJsonSafeIntegers

  /** What parsing a decimal lexeme as binary64 yields; the rounding itself is not part of this model. */
  datatype Binary64 = Finite(value: real) | NotFinite

  // --------------------------------------------------- exact decimal integers

  datatype Normalized = Integer(magnitude: nat) | NotInteger | TooLarge

  function CheckMagnitude(digits: string): Normalized
    requires AllDigits(digits)
  {
    var normalized := if digits == "" then "0" else digits;
    if |normalized| > 16 || (|normalized| == 16 && StringGreater(normalized, MAX_SAFE_DIGITS)) then TooLarge
    else
      assert normalized == "0" ==> AllDigits(normalized);
      Integer(Value(normalized))
  }

  /** `normalized_integer`. */
  function NormalizedInteger(digits: string, scale: int): Normalized
    requires AllDigits(digits)
  {
    TrimValue(digits);
    var significant := TrimZeros(digits);
    if significant == "" then Integer(0)
    else if scale >= 0 then
      if |significant| + scale > 16 then TooLarge
      else
        ValueShift(significant, scale);
        CheckMagnitude(significant + Zeros(scale))
    else
      var removed := -scale;
      if removed > |digits| then NotInteger
      else if !AllZeros(digits[|digits| - removed..]) then NotInteger
      else
        var head := digits[..|digits| - removed];
        assert AllDigits(head);
        TrimValue(head);
        CheckMagnitude(TrimZeros(head))
  }

  /** The rational `v * 10^scale` is the integer `m`. */
  predicate IsInteger(v: nat, scale: int, m: nat) {
    if scale >= 0 then m == v * Pow10(scale) else m * Pow10(-scale) == v
  }

  lemma SafeDigits()
    ensures AllDigits(MAX_SAFE_DIGITS) && |MAX_SAFE_DIGITS| == 16
    ensures Value(MAX_SAFE_DIGITS) == MAX_SAFE_INTEGER
  {
    SixteenDigits(MAX_SAFE_DIGITS);
    hide Value;
  }

  function FourAt(s: string, n: nat): int
    requires n + 4 <= |s| && AllDigits(s)
  {
    1000 * DigitValue(s[n]) + 100 * DigitValue(s[n + 1]) + 10 * DigitValue(s[n + 2]) + DigitValue(s[n + 3])
  }

  lemma SixteenDigits(s: string)
    requires |s| == 16 && AllDigits(s)
    ensures Value(s) ==
            1_0000_0000_0000 * FourAt(s, 0) + 1_0000_0000 * FourAt(s, 4) + 1_0000 * FourAt(s, 8) + FourAt(s, 12)
  {
    assert s[..0] == "" && Value("") == 0 && s[..16] == s;
    hide Value, FourAt;
    FourDigits(s, 0);
    FourDigits(s, 4);
    FourDigits(s, 8);
    FourDigits(s, 12);
  }

  lemma FourDigits(s: string, n: nat)
    requires n + 4 <= |s| && AllDigits(s)
    ensures AllDigits(s[..n]) && AllDigits(s[..n + 4])
    ensures Value(s[..n + 4]) == 10_000 * Value(s[..n]) + FourAt(s, n)
  {
    NextDigit(s, n);
    NextDigit(s, n + 1);
    NextDigit(s, n + 2);
    NextDigit(s, n + 3);
  }

  lemma NextDigit(s: string, n: nat)
    requires n < |s| && AllDigits(s)
    ensures AllDigits(s[..n]) && AllDigits(s[..n + 1])
    ensures Value(s[..n + 1]) == 10 * Value(s[..n]) + DigitValue(s[n])
  {
    assert s[..n + 1][..n] == s[..n];
  }

  lemma PowersOfTen()
    ensures Pow10(15) == 1_000_000_000_000_000 && Pow10(16) == 10_000_000_000_000_000
  {
    assert Pow10(3) == 1000 && Pow10(4) == 10_000;
    PowSum(4, 4);
    PowSum(8, 4);
    PowSum(12, 3);
    PowSum(12, 4);
  }

  /** The length and string comparisons decide the numeric bound. */
  lemma CheckMagnitudeMeaning(digits: string)
    requires AllDigits(digits) && (digits != "" ==> digits[0] != '0')
    ensures CheckMagnitude(digits) ==
            if Value(digits) <= MAX_SAFE_INTEGER then Integer(Value(digits)) else TooLarge
  {
    PowersOfTen();
    if digits == "" {
      assert AllZeros("0") && AllDigits("0") && |"0"| == 1;
      ZeroValue("0");
    } else if |digits| > 16 {
      LeadingDigit(digits);
      PowMonotone(16, |digits| - 1);
    } else if |digits| < 16 {
      ValueBound(digits);
      PowMonotone(|digits|, 15);
    } else {
      SafeDigits();
      StringOrder(digits, MAX_SAFE_DIGITS);
    }
  }

  lemma IntegerUnique(v: nat, scale: int, m: nat, k: nat)
    requires IsInteger(v, scale, m) && IsInteger(v, scale, k)
    ensures m == k
  {
    if scale < 0 {
      var p := Pow10(-scale);
      assert (m - k) * p == 0;
      assert m - k >= 1 ==> (m - k) * p >= p;
      assert k - m >= 1 ==> (k - m) * p >= p;
    }
  }

  /** A decimal fraction with more places than digits is no integer unless it is zero. */
  lemma TooManyPlaces(v: nat, scale: int, m: nat, length: nat)
    requires scale < 0 && 0 < v < Pow10(length) && length <= -scale
    ensures !IsInteger(v, scale, m)
  {
    PowMonotone(length, -scale);
    assert m >= 1 ==> m * Pow10(-scale) >= Pow10(-scale);
  }

  /** Removing trailing zeros divides; a nonzero tail leaves a fraction. */
  lemma RemovedTail(digits: string, removed: nat, m: nat)
    requires AllDigits(digits) && 0 < removed <= |digits|
    ensures var head, tail := digits[..|digits| - removed], digits[|digits| - removed..];
            && AllDigits(head)
            && (IsInteger(Value(digits), 0 - removed, m) <==> AllZeros(tail) && m == Value(head))
  {
    var head, tail := digits[..|digits| - removed], digits[|digits| - removed..];
    assert digits == head + tail;
    Parts(head, tail);
    ValueOfConcat(head, tail);
    ValueBound(tail);
    ZeroValue(tail);
    Quotient(Value(head), Value(tail), Pow10(removed), m);
  }

  lemma Quotient(h: nat, t: nat, p: nat, m: nat)
    requires t < p
    ensures m * p == h * p + t <==> t == 0 && m == h
  {
    if m * p == h * p + t {
      assert (m - h) * p == t;
      assert m - h >= 1 ==> (m - h) * p >= p;
      assert h - m >= 1 ==> (h - m) * p >= p;
      assert (m - h) * p == -((h - m) * p);
    }
  }

  /** The integer a decimal denotes, if any, and what the code says about it. */
  lemma Denoted(digits: string, scale: int) returns (k: Option<nat>)
    requires AllDigits(digits)
    ensures k.Some? ==>
      && IsInteger(Value(digits), scale, k.value)
      && NormalizedInteger(digits, scale) == if k.value <= MAX_SAFE_INTEGER then Integer(k.value) else TooLarge
    ensures k.None? ==> NormalizedInteger(digits, scale) == NotInteger
    ensures k.None? ==> forall m: nat :: !IsInteger(Value(digits), scale, m)
  {
    var v, significant := Value(digits), TrimZeros(digits);
    TrimValue(digits);
    if significant == "" {
      ZeroIsZero(scale, 0);
      k := Some(0);
    } else if scale >= 0 {
      LargeScale(significant, scale);
      k := Some(v * Pow10(scale));
    } else if -scale > |digits| {
      ValueBound(digits);
      forall m: nat
        ensures !IsInteger(v, scale, m)
      {
        TooManyPlaces(v, scale, m, |digits|);
      }
      k := None;
    } else {
      k := DenotedByHead(digits, scale);
    }
  }

  lemma DenotedByHead(digits: string, scale: int) returns (k: Option<nat>)
    requires AllDigits(digits) && -|digits| <= scale < 0 && TrimZeros(digits) != ""
    ensures k.Some? ==>
      && IsInteger(Value(digits), scale, k.value)
      && NormalizedInteger(digits, scale) == if k.value <= MAX_SAFE_INTEGER then Integer(k.value) else TooLarge
    ensures k.None? ==> NormalizedInteger(digits, scale) == NotInteger
    ensures k.None? ==> forall m: nat :: !IsInteger(Value(digits), scale, m)
  {
    var head, tail := digits[..|digits| + scale], digits[|digits| + scale..];
    RemovedTail(digits, -scale, 0);
    forall m: nat
      ensures IsInteger(Value(digits), scale, m) <==> AllZeros(tail) && m == Value(head)
    {
      RemovedTail(digits, -scale, m);
    }
    TrimValue(head);
    CheckMagnitudeMeaning(TrimZeros(head));
    k := if AllZeros(tail) then Some(Value(head)) else None;
  }

  /**
   `normalized_integer` decides the exact rational: it yields `m` exactly when the value is the integer `m` inside the
   safe range, refuses exactly the larger integers, and reports a non-integer exactly when no integer is denoted.
   */
  lemma NormalizedIntegerExact(digits: string, scale: int)
    requires AllDigits(digits)
    ensures var v, r := Value(digits), NormalizedInteger(digits, scale);
            && (forall m: nat :: r == Integer(m) <==> IsInteger(v, scale, m) && m <= MAX_SAFE_INTEGER)
            && (r == TooLarge <==> exists m: nat :: IsInteger(v, scale, m) && m > MAX_SAFE_INTEGER)
            && (r == NotInteger <==> forall m: nat :: !IsInteger(v, scale, m))
  {
    var k := Denoted(digits, scale);
    assert k.Some? ==> IsInteger(Value(digits), scale, k.value);
    forall m: nat | IsInteger(Value(digits), scale, m) && k.Some?
      ensures m == k.value
    {
      IntegerUnique(Value(digits), scale, m, k.value);
    }
  }

  lemma ZeroIsZero(scale: int, m: nat)
    ensures IsInteger(0, scale, m) <==> m == 0
  {
    if scale < 0 { assert m >= 1 ==> m * Pow10(-scale) >= Pow10(-scale); }
  }

  lemma LargeScale(significant: string, scale: nat)
    requires AllDigits(significant) && significant != "" && significant[0] != '0'
    ensures var big := Value(significant) * Pow10(scale);
            && (|significant| + scale > 16 ==> big > MAX_SAFE_INTEGER)
            && AllDigits(significant + Zeros(scale))
            && CheckMagnitude(significant + Zeros(scale)) ==
               if big <= MAX_SAFE_INTEGER then Integer(big) else TooLarge
  {
    var shifted := significant + Zeros(scale);
    ValueShift(significant, scale);
    CheckMagnitudeMeaning(shifted);
    assert shifted[0] == significant[0];
    if |shifted| > 16 {
      assert CheckMagnitude(shifted) == TooLarge;
    }
  }

  // ------------------------------------------------------------ JSON numbers

  /** Position of the first `e` or `E`, or the length. */
  function MarkerIndex(s: string): (i: nat)
    ensures i <= |s|
  {
    if s == "" || IsMarker(s[0]) then 0 else 1 + MarkerIndex(s[1..])
  }

  function PointIndex(s: string): (i: nat)
    ensures i <= |s|
  {
    if s == "" || s[0] == '.' then 0 else 1 + PointIndex(s[1..])
  }

  /** Rust's `parse::<i64>`: an optional sign, digits, in range. */
  function ParseI64(s: string): Option<int> {
    var signed := s != "" && (s[0] == '+' || s[0] == '-');
    var digits := if signed then s[1..] else s;
    if digits == "" || !AllDigits(digits) then None
    else
      var v := if signed && s[0] == '-' then 0 - Value(digits) else Value(digits);
      if I64_MIN <= v <= I64_MAX then Some(v) else None
  }

  function SplitExponent(s: string): Option<(string, int)> {
    var i := MarkerIndex(s);
    if i == |s| then Some((s, 0))
    else
      match ParseI64(s[i + 1..])
      case None => None
      case Some(exponent) => Some((s[..i], exponent))
  }

  predicate ZeroMantissa(s: string) {
    forall c <- s[..MarkerIndex(s)] :: (c == '0' || c == '.')
  }

  /** `parse_json_number`; `toBinary64` stands for parsing a lexeme as a 64-bit float. */
  function ParseJsonNumber(lexeme: string, profile: Profile, toBinary64: string -> Binary64): Option<CapturedNumber> {
    if profile == Rfc8785 then FromF64(toBinary64(lexeme), profile)
    else
      var negative := lexeme != "" && lexeme[0] == '-';
      ParseUnsigned(negative, if negative then lexeme[1..] else lexeme, toBinary64(lexeme))
  }

  function ParseUnsigned(negative: bool, unsigned: string, value: Binary64): Option<CapturedNumber> {
    if ZeroMantissa(unsigned) then Some(U64(0))
    else
      match SplitExponent(unsigned)
      case None => None
      case Some((mantissa, exponent)) =>
        var (integer, fraction) := SplitPoint(mantissa);
        Classify(negative, integer, fraction, exponent, value)
  }

  /** Rust's `split_once('.')`, with an empty fraction when there is none. */
  function SplitPoint(mantissa: string): (string, string) {
    var point := PointIndex(mantissa);
    (mantissa[..point], if point < |mantissa| then mantissa[point + 1..] else "")
  }

  /** The rest of `parse_json_number`, once a nonzero lexeme is taken apart. */
  function Classify(negative: bool, integer: string, fraction: string, exponent: int, value: Binary64):
    Option<CapturedNumber>
  {
    var digits, scale := integer + fraction, exponent - |fraction|;
    if |fraction| > I64_MAX || scale < I64_MIN || !AllDigits(digits) then None
    else
      match NormalizedInteger(digits, scale)
      case TooLarge => None
      case Integer(m) => if negative then FromI128(0 - m, IJsonSafeIntegers) else FromU128(m, IJsonSafeIntegers)
      case NotInteger => NonIntegral(value, !AllZeros(digits))
  }

  /** The path for lexemes that denote no integer: overflow and nonzero underflow are refused. */
  function NonIntegral(value: Binary64, nonzero: bool): Option<CapturedNumber> {
    if value.NotFinite? || (value.value == 0.0 && nonzero) then None else Some(F64(value.value))
  }

  function FromF64(value: Binary64, profile: Profile): Option<CapturedNumber> {
    if value.NotFinite? then None
    else if profile == IJsonSafeIntegers && value.value == value.value.Floor as real
            && (value.value > MAX_SAFE_INTEGER as real || value.value < -(MAX_SAFE_INTEGER as real))
    then None
    else Some(F64(value.value))
  }

  // ---------------------------------------------------------- typed integers

  const U64_MAX := 0xffff_ffff_ffff_ffff

  /** `integer_is_exact_binary64`, for a 128-bit magnitude. */
  predicate ExactBinary64(magnitude: nat) {
    var significant := BitLength(magnitude);
    var discarded := if significant >= 53 then significant - 53 else 0;
    discarded == 0 || (if magnitude == 0 then 128 else TrailingZeros(magnitude)) >= discarded
  }

  function FromI128(value: int, profile: Profile): Option<CapturedNumber> {
    match profile
    case Rfc8785 =>
      if !ExactBinary64(if value < 0 then -value else value) then None
      else if I64_MIN <= value <= I64_MAX then Some(I64(value)) else Some(F64(value as real))
    case IJsonSafeIntegers =>
      if -MAX_SAFE_INTEGER <= value <= MAX_SAFE_INTEGER then Some(I64(value)) else None
  }

  function FromU128(value: nat, profile: Profile): Option<CapturedNumber> {
    match profile
    case Rfc8785 =>
      if !ExactBinary64(value) then None
      else if value <= U64_MAX then Some(U64(value)) else Some(F64(value as real))
    case IJsonSafeIntegers =>
      if value > MAX_SAFE_INTEGER then None else Some(U64(value))
  }

  /** The number a captured value stands for. */
  function Meaning(n: CapturedNumber): real {
    match n
    case I64(i) => i as real
    case U64(k) => k as real
    case F64(r) => r
  }

  function Scaled(m: nat, e: nat): nat {
    m * Pow2(e)
  }

  /** An integer that a significand of `bits` bits and a power of two express without loss. */
  ghost predicate FitsSignificand(n: nat, bits: nat) {
    exists m: nat, e: nat :: m < Pow2(bits) && n == Scaled(m, e)
  }

  ghost predicate Representable(n: nat) {
    FitsSignificand(n, 53)
  }

  lemma ShortFits(n: nat, bits: nat)
    requires BitLength(n) <= bits
    ensures FitsSignificand(n, bits)
  {
    BitLengthBounds(n);
    Pow2Monotone(BitLength(n), bits);
    assert Pow2(0) == 1 && Scaled(n, 0) == n;
  }

  lemma LongFits(n: nat, bits: nat)
    requires n > 0 && BitLength(n) > bits && TrailingZeros(n) >= BitLength(n) - bits
    ensures FitsSignificand(n, bits)
  {
    var d := BitLength(n) - bits;
    BitLengthBounds(n);
    TrailingZerosMeaning(n, d);
    Pow2Sum(bits, d);
    QuotientBelow(n, Pow2(bits), Pow2(d));
    FitsBy(n, bits, n / Pow2(d), d);
    hide FitsSignificand, Pow2, BitLength, TrailingZeros;
  }

  lemma FitsBy(n: nat, bits: nat, m: nat, e: nat)
    requires m < Pow2(bits) && n == m * Pow2(e)
    ensures FitsSignificand(n, bits)
  {
    assert n == Scaled(m, e);
  }

  lemma QuotientBelow(n: nat, a: nat, p: nat)
    requires p > 0 && n % p == 0 && n < a * p
    ensures n == (n / p) * p && n / p < a
  {
    var m := n / p;
    assert n == p * m + n % p && p * m == m * p;
    if m >= a {
      ScaledMonotone(a, m, p);
      assert false;
    }
  }

  lemma ScaledMonotone(a: nat, b: nat, p: nat)
    requires a <= b
    ensures a * p <= b * p
  {
    assert b * p == a * p + (b - a) * p;
  }

  lemma ScaleAtLeast(n: nat, bits: nat, m: nat, e: nat)
    requires m < Pow2(bits) && n == Scaled(m, e)
    ensures BitLength(n) <= bits + e
  {
    Pow2Sum(bits, e);
    ScaledMonotone(m + 1, Pow2(bits), Pow2(e));
    assert (m + 1) * Pow2(e) == n + Pow2(e);
    BitLengthAtMost(n, bits + e);
  }

  lemma DividesProduct(m: nat, p: nat, r: nat)
    requires p > 0
    ensures (m * (p * r)) % p == 0
  {
    assert m * (p * r) == p * (m * r);
    MultipleRemainder(p, m * r);
  }

  /** A number that fits has zeros below its top `bits` bits. */
  lemma FitsHasZeros(n: nat, bits: nat, m: nat, e: nat)
    requires n > 0 && BitLength(n) > bits && m < Pow2(bits) && n == Scaled(m, e)
    ensures TrailingZeros(n) >= BitLength(n) - bits
  {
    var d := BitLength(n) - bits;
    ScaleAtLeast(n, bits, m, e);
    Pow2Sum(d, e - d);
    assert n == m * (Pow2(d) * Pow2(e - d));
    DividesProduct(m, Pow2(d), Pow2(e - d));
    TrailingZerosMeaning(n, d);
  }

  /** The bit test decides representability in binary64. */
  lemma ExactBinary64Meaning(n: nat)
    ensures ExactBinary64(n) <==> Representable(n)
  {
    if BitLength(n) <= 53 {
      ShortFits(n, 53);
    } else {
      if ExactBinary64(n) { LongFits(n, 53); }
      if Representable(n) {
        var m: nat, e: nat :| m < Pow2(53) && n == Scaled(m, e);
        FitsHasZeros(n, 53, m, e);
      }
    }
  }

  /**
   Typed integers are accepted exactly when the profile can carry them, and are never altered: they stay integers if 64
   bits are enough, and become the equal float otherwise.
   */
  lemma TypedIntegersExact(value: int, profile: Profile)
    ensures var magnitude: nat := if value < 0 then -value else value;
            var carried := if profile == Rfc8785 then Representable(magnitude) else magnitude <= MAX_SAFE_INTEGER;
            && FromI128(value, profile) ==
               (if !carried then None
                else if -0x8000_0000_0000_0000 <= value < 0x8000_0000_0000_0000 then Some(I64(value))
                else Some(F64(value as real)))
            && (value >= 0 ==>
                  FromU128(value, profile) ==
                  if !carried then None
                  else if value < 0x1_0000_0000_0000_0000 then Some(U64(value))
                  else Some(F64(value as real)))
  {
    ExactBinary64Meaning(if value < 0 then -value else value);
  }

  // ------------------------------------ every spelling of a JSON number

  lemma {:induction false} MarkerIndexAt(a: string, b: string)
    requires forall c <- a :: !IsMarker(c)
    ensures MarkerIndex(a + b) == |a| + MarkerIndex(b)
  {
    if a == "" {
      assert a + b == b;
    } else {
      assert a[0] in a && (a + b)[1..] == a[1..] + b;
      MarkerIndexAt(a[1..], b);
    }
  }

  lemma {:induction false} PointIndexAt(a: string, b: string)
    requires forall c <- a :: c != '.'
    ensures PointIndex(a + b) == |a| + PointIndex(b)
  {
    if a == "" {
      assert a + b == b;
    } else {
      assert a[0] in a && (a + b)[1..] == a[1..] + b && forall c <- a[1..] :: c in a;
      PointIndexAt(a[1..], b);
    }
  }

  function FractionDigits(n: NumberParts): string {
    if n.fraction.Some? then n.fraction.value else ""
  }

  function Digits(n: NumberParts): (s: string)
    requires ValidNumber(n)
    ensures AllDigits(s)
  {
    n.integer + FractionDigits(n)
  }

  /** The exponent part as a mathematical integer. */
  function ExponentValue(n: NumberParts): int
    requires ValidNumber(n)
  {
    if n.exponent.None? then 0
    else if n.exponent.value.sign == Some('-') then 0 - Value(n.exponent.value.digits)
    else Value(n.exponent.value.digits)
  }

  /** The number is `Value(Digits(n)) * 10^Scale(n)`, up to its sign. */
  function Scale(n: NumberParts): int
    requires ValidNumber(n)
  {
    ExponentValue(n) - |FractionDigits(n)|
  }

  /** Exponent and scale are 64-bit integers. */
  predicate ScaleFits(n: NumberParts)
    requires ValidNumber(n)
  {
    I64_MIN <= ExponentValue(n) <= I64_MAX && |FractionDigits(n)| <= I64_MAX && Scale(n) >= I64_MIN
  }

  lemma ExponentParses(e: Exponent)
    requires ValidExponent(e)
    ensures var v := if e.sign == Some('-') then 0 - Value(e.digits) else Value(e.digits);
            ParseI64(SignText(e) + e.digits) == if I64_MIN <= v <= I64_MAX then Some(v) else None
  {
    var text := SignText(e) + e.digits;
    if e.sign.Some? {
      assert text[0] == e.sign.value && text[1..] == e.digits;
    } else {
      assert text == e.digits && e.digits[0] in e.digits;
    }
  }

  function Mantissa(n: NumberParts): string {
    n.integer + FractionText(n)
  }

  lemma MantissaChars(n: NumberParts)
    requires ValidNumber(n)
    ensures forall c <- Mantissa(n) :: !IsMarker(c)
    ensures forall c <- Mantissa(n) :: c == '.' || c in Digits(n)
    ensures forall c <- Digits(n) :: c in Mantissa(n) && IsDigit(c)
  {
    forall c | c in Mantissa(n)
      ensures !IsMarker(c) && (c == '.' || c in Digits(n))
    {
      assert c in n.integer || c == '.' || (n.fraction.Some? && c in n.fraction.value);
    }
  }

  /** The mantissa and exponent the code cuts out of a lexeme are its grammatical parts. */
  lemma ExponentSplits(n: NumberParts)
    requires ValidNumber(n)
    ensures MarkerIndex(Unsigned(n)) == |Mantissa(n)| && Unsigned(n)[..|Mantissa(n)|] == Mantissa(n)
    ensures SplitExponent(Unsigned(n)) ==
            if I64_MIN <= ExponentValue(n) <= I64_MAX then Some((Mantissa(n), ExponentValue(n))) else None
  {
    MantissaChars(n);
    MarkerIndexAt(Mantissa(n), ExponentText(n));
    assert Unsigned(n)[..|Mantissa(n)|] == Mantissa(n);
    if n.exponent.Some? {
      var e := n.exponent.value;
      assert MarkerIndex(ExponentText(n)) == 0;
      assert Unsigned(n)[|Mantissa(n)| + 1..] == SignText(e) + e.digits;
      ExponentParses(e);
    } else {
      assert Unsigned(n) == Mantissa(n);
    }
  }

  lemma PointSplits(n: NumberParts)
    requires ValidNumber(n)
    ensures SplitPoint(Mantissa(n)) == (n.integer, FractionDigits(n))
  {
    assert forall c <- n.integer :: IsDigit(c);
    PointIndexAt(n.integer, FractionText(n));
    var m := Mantissa(n);
    assert m[..|n.integer|] == n.integer;
    if n.fraction.Some? {
      assert FractionText(n)[0] == '.' && m[|n.integer| + 1..] == n.fraction.value;
    }
  }

  lemma MantissaIsZero(n: NumberParts)
    requires ValidNumber(n)
    ensures ZeroMantissa(Unsigned(n)) <==> Value(Digits(n)) == 0
  {
    ExponentSplits(n);
    MantissaChars(n);
    ZeroValue(Digits(n));
  }

  lemma SignStripped(n: NumberParts)
    requires ValidNumber(n)
    ensures var lexeme := NumberText(n);
            && (n.negative <==> lexeme != "" && lexeme[0] == '-')
            && Unsigned(n) == if n.negative then lexeme[1..] else lexeme
  {
    assert n.integer[0] in n.integer && Unsigned(n)[0] == n.integer[0];
  }

  lemma ParseUnsignedByParts(n: NumberParts, value: Binary64)
    requires ValidNumber(n)
    ensures ParseUnsigned(n.negative, Unsigned(n), value) ==
            if Value(Digits(n)) == 0 then Some(U64(0))
            else if !(I64_MIN <= ExponentValue(n) <= I64_MAX) then None
            else Classify(n.negative, n.integer, FractionDigits(n), ExponentValue(n), value)
  {
    MantissaIsZero(n);
    ExponentSplits(n);
    PointSplits(n);
    hide Classify, Value, Digits, Unsigned, Mantissa, ZeroMantissa, SplitExponent, SplitPoint, ExponentValue, ValidNumber;
  }

  /** `parse_json_number` on the parts of a lexeme instead of its text. */
  lemma ParseByParts(n: NumberParts, toBinary64: string -> Binary64)
    requires ValidNumber(n)
    ensures ParseJsonNumber(NumberText(n), IJsonSafeIntegers, toBinary64)
            == ParseUnsigned(n.negative, Unsigned(n), toBinary64(NumberText(n)))
  {
    SignStripped(n);
    hide ParseUnsigned, Unsigned, NumberText, ValidNumber;
  }

  lemma UnfitIsRefused(n: NumberParts, value: Binary64)
    requires ValidNumber(n) && I64_MIN <= ExponentValue(n) <= I64_MAX && !ScaleFits(n)
    ensures Classify(n.negative, n.integer, FractionDigits(n), ExponentValue(n), value) == None
  {
  }

  /**
   The safe profile classifies every JSON number by its mathematical value, however it is spelled: zero is 0; an integer
   is itself inside the safe range and refused outside; only a non-integer is rounded, and refused if that overflows or
   leaves nothing. A nonzero number whose exponent or scale does not fit 64 bits is refused.
   */
  lemma SafeProfileClassifies(n: NumberParts, toBinary64: string -> Binary64)
    requires ValidNumber(n)
    ensures var v, r := Value(Digits(n)), ParseJsonNumber(NumberText(n), IJsonSafeIntegers, toBinary64);
            && (v == 0 ==> r == Some(U64(0)))
            && (v > 0 && !ScaleFits(n) ==> r == None)
            && (v > 0 && ScaleFits(n) ==>
                  && (forall m: nat :: IsInteger(v, Scale(n), m) ==>
                        r == if m > MAX_SAFE_INTEGER then None
                             else Some(if n.negative then I64(0 - m) else U64(m)))
                  && ((forall m: nat :: !IsInteger(v, Scale(n), m)) ==>
                        var rounded := toBinary64(NumberText(n));
                        r == if rounded == NotFinite || rounded == Finite(0.0) then None else Some(F64(rounded.value))))
  {
    hide ParseJsonNumber, ParseUnsigned, Classify, IsInteger, Value, NumberText, Digits, FractionDigits, ExponentValue,
      ValidNumber, Unsigned;
    var v, value := Value(Digits(n)), toBinary64(NumberText(n));
    ParseByParts(n, toBinary64);
    ParseUnsignedByParts(n, value);
    if v > 0 && I64_MIN <= ExponentValue(n) <= I64_MAX && !ScaleFits(n) { UnfitIsRefused(n, value); }
    if v > 0 && ScaleFits(n) {
      var k := ClassifyMeaning(n, value);
      forall m: nat | IsInteger(v, Scale(n), m)
        ensures k == Some(m)
      {
        if k.Some? { IntegerUnique(v, Scale(n), m, k.value); }
      }
    }
  }

  lemma ClassifyMeaning(n: NumberParts, value: Binary64) returns (k: Option<nat>)
    requires ValidNumber(n) && Value(Digits(n)) > 0 && ScaleFits(n)
    ensures k.Some? ==> IsInteger(Value(Digits(n)), Scale(n), k.value)
    ensures k.None? ==> forall m: nat :: !IsInteger(Value(Digits(n)), Scale(n), m)
    ensures Classify(n.negative, n.integer, FractionDigits(n), ExponentValue(n), value) ==
            if k.None? then NonIntegral(value, true)
            else if k.value > MAX_SAFE_INTEGER then None
            else Some(if n.negative then I64(0 - k.value) else U64(k.value))
  {
    k := Denoted(Digits(n), Scale(n));
    ZeroValue(Digits(n));
    hide NormalizedInteger, Value, IsInteger;
  }

  /** Two spellings of one integer in the safe range are captured as the same number. */
  lemma SpellingDoesNotMatter(a: NumberParts, b: NumberParts, m: nat, toBinary64: string -> Binary64)
    requires ValidNumber(a) && ValidNumber(b) && ScaleFits(a) && ScaleFits(b) && a.negative == b.negative
    requires m <= MAX_SAFE_INTEGER
    requires IsInteger(Value(Digits(a)), Scale(a), m) && IsInteger(Value(Digits(b)), Scale(b), m)
    ensures ParseJsonNumber(NumberText(a), IJsonSafeIntegers, toBinary64)
            == ParseJsonNumber(NumberText(b), IJsonSafeIntegers, toBinary64)
  {
    SafeProfileClassifies(a, toBinary64);
    SafeProfileClassifies(b, toBinary64);
    ZeroIsZero(Scale(a), m);
    ZeroIsZero(Scale(b), m);
    ZeroOnlyFromZero(Value(Digits(a)), Scale(a), m);
    ZeroOnlyFromZero(Value(Digits(b)), Scale(b), m);
  }

  lemma ZeroOnlyFromZero(v: nat, scale: int, m: nat)
    requires IsInteger(v, scale, m)
    ensures m == 0 <==> v == 0
  {
    if scale >= 0 && v > 0 { AtLeastOnce(v, Pow10(scale)); }
    if scale < 0 && m > 0 { AtLeastOnce(m, Pow10(-scale)); }
  }
}
