/** Byte encodings: big-endian integers, length-framed fields, canonical decimals and lower-case hexadecimal. */
module Framing {
  import opened Common

  // -------------------------------------------------------------- big-endian

  function Pow256(n: nat): (p: nat)
    ensures p >= 1
  {
    if n == 0 then 1 else 256 * Pow256(n - 1)
  }

  /** The low `width` bytes of `n`, most significant first. */
  function BigEndian(n: nat, width: nat): (r: Bytes)
    ensures |r| == width
    decreases width
  {
    if width == 0 then [] else BigEndian(n / 256, width - 1) + [n % 256]
  }

  /** The number that bytes stand for, most significant first. */
  function Weighted(s: Bytes): nat {
    if s == [] then 0 else s[0] * Pow256(|s| - 1) + Weighted(s[1..])
  }

  lemma {:induction false} WeightedAppend(s: Bytes, b: Byte)
    ensures Weighted(s + [b]) == 256 * Weighted(s) + b
  {
    if s == [] {
      assert s + [b] == [b] && [b][1..] == [] && Pow256(0) == 1;
    } else {
      assert (s + [b])[0] == s[0] && (s + [b])[1..] == s[1..] + [b];
      WeightedAppend(s[1..], b);
      assert Pow256(|s|) == 256 * Pow256(|s| - 1);
      assert s[0] * (256 * Pow256(|s| - 1)) == 256 * (s[0] * Pow256(|s| - 1));
    }
  }

  lemma {:induction false} BigEndianValue(n: nat, width: nat)
    requires n < Pow256(width)
    ensures Weighted(BigEndian(n, width)) == n
    decreases width
  {
    if width > 0 {
      BigEndianValue(n / 256, width - 1);
      WeightedAppend(BigEndian(n / 256, width - 1), n % 256);
    }
  }

  /** A 64-bit integer is its eight bytes in two's complement. */
  lemma I64BytesValue(i: int)
    requires -0x8000_0000_0000_0000 <= i < 0x8000_0000_0000_0000
    ensures |I64Bytes(i)| == 8 && Weighted(I64Bytes(i)) == if i < 0 then 0x1_0000_0000_0000_0000 + i else i
  {
    EightBytes();
    BigEndianValue(if i < 0 then i + U64_LIMIT else i, 8);
    hide BigEndian, Weighted;
  }

  lemma {:induction false} BigEndianInjective(m: nat, n: nat, width: nat)
    requires m < Pow256(width) && n < Pow256(width) && BigEndian(m, width) == BigEndian(n, width)
    ensures m == n
    decreases width
  {
    if width > 0 {
      var a, b := BigEndian(m / 256, width - 1), BigEndian(n / 256, width - 1);
      assert (a + [m % 256])[..width - 1] == a && (b + [n % 256])[..width - 1] == b;
      assert (a + [m % 256])[width - 1] == (b + [n % 256])[width - 1];
      BigEndianInjective(m / 256, n / 256, width - 1);
    }
  }

  lemma EightBytes()
    ensures Pow256(8) == U64_LIMIT
  {
    assert Pow256(4) == 0x1_0000_0000;
    assert Pow256(8) == 256 * (256 * (256 * (256 * Pow256(4))));
  }

  /** `i64::to_be_bytes`: two's complement. */
  function I64Bytes(i: int): Bytes
    requires -0x8000_0000_0000_0000 <= i < 0x8000_0000_0000_0000
  {
    BigEndian(if i < 0 then i + U64_LIMIT else i, 8)
  }

  // ------------------------------------------------------------------ frames

  /** Each field after its length as eight bytes. */
  function Frames(fields: seq<Bytes>): Bytes {
    if fields == [] then [] else BigEndian(|fields[0]|, 8) + fields[0] + Frames(fields[1..])
  }

  function FramedLength(fields: seq<Bytes>): nat {
    if fields == [] then 0 else 8 + |fields[0]| + FramedLength(fields[1..])
  }

  lemma {:induction false} FramesAppend(fields: seq<Bytes>, last: Bytes)
    ensures Frames(fields + [last]) == Frames(fields) + (BigEndian(|last|, 8) + last)
  {
    if fields == [] {
      assert fields + [last] == [last] && Frames([]) == [];
      assert Frames([last]) == BigEndian(|last|, 8) + last + Frames([]);
    } else {
      assert (fields + [last])[0] == fields[0] && (fields + [last])[1..] == fields[1..] + [last];
      FramesAppend(fields[1..], last);
    }
  }

  lemma {:induction false} FramesInjective(a: seq<Bytes>, b: seq<Bytes>)
    requires |a| == |b| && Frames(a) == Frames(b)
    requires (forall f <- a :: |f| < U64_LIMIT) && (forall f <- b :: |f| < U64_LIMIT)
    ensures a == b
  {
    if a != [] {
      var whole := Frames(a);
      assert a[0] in a && b[0] in b;
      assert whole[..8] == BigEndian(|a[0]|, 8) == BigEndian(|b[0]|, 8);
      EightBytes();
      BigEndianInjective(|a[0]|, |b[0]|, 8);
      var n := 8 + |a[0]|;
      assert whole[8..n] == a[0] && whole[8..n] == b[0];
      assert whole[n..] == Frames(a[1..]) && whole[n..] == Frames(b[1..]);
      FramesInjective(a[1..], b[1..]);
    }
  }

  // ---------------------------------------------------------------- decimals

  predicate IsDigitByte(b: Byte) {
    48 <= b <= 57
  }

  predicate DigitBytes(s: Bytes) {
    forall b <- s :: IsDigitByte(b)
  }

  /** `to_string` of a natural number. */
  function DecimalText(n: nat): (s: Bytes)
    ensures s != [] && DigitBytes(s)
  {
    if n < 10 then [48 + n] else DecimalText(n / 10) + [48 + n % 10]
  }

  function DecimalValue(s: Bytes): nat
    requires DigitBytes(s)
  {
    if s == [] then 0
    else
      var last := s[|s| - 1];
      assert last in s;
      10 * DecimalValue(s[..|s| - 1]) + (last - 48)
  }

  const MAX_TIMESTAMP_DIGITS := 19
  const I64_MAX := 0x7fff_ffff_ffff_ffff

  /** `parse_timestamp`: at most 19 digits, no leading zero, within the signed 64-bit range. */
  function ParseTimestamp(s: Bytes): Option<nat> {
    if s == [] || |s| > MAX_TIMESTAMP_DIGITS || !DigitBytes(s) || (|s| > 1 && s[0] == 48) then None
    else if DecimalValue(s) > I64_MAX then None
    else Some(DecimalValue(s))
  }

  lemma {:induction false} DecimalRoundTrip(n: nat)
    ensures DecimalValue(DecimalText(n)) == n && (DecimalText(n)[0] == 48 ==> n == 0)
  {
    if n >= 10 {
      var s := DecimalText(n);
      assert s[..|s| - 1] == DecimalText(n / 10);
      DecimalRoundTrip(n / 10);
    } else {
      assert DecimalText(n)[..0] == [];
    }
  }

  lemma {:induction false} DecimalShort(n: nat, k: nat)
    requires n < Pow10(k) && k >= 1
    ensures |DecimalText(n)| <= k
    decreases k
  {
    if n >= 10 {
      assert Pow10(1) == 10 * Pow10(0);
      DecimalShort(n / 10, k - 1);
    }
  }

  lemma NineteenDigits()
    ensures Pow10(19) > I64_MAX
  {
    assert Pow10(5) == 100_000;
    assert Pow10(10) == 100_000 * Pow10(5);
    assert Pow10(15) == 100_000 * Pow10(10);
    assert Pow10(19) == 10_000 * Pow10(15);
  }

  /** A timestamp has one spelling: the parser accepts it exactly when it is the decimal of its value. */
  lemma TimestampCanonical(s: Bytes, n: nat)
    ensures ParseTimestamp(s) == Some(n) <==> n <= I64_MAX && s == DecimalText(n)
  {
    if n <= I64_MAX && s == DecimalText(n) {
      DecimalRoundTrip(n);
      NineteenDigits();
      DecimalShort(n, 19);
      if |s| > 1 { DecimalLong(n); }
    }
    if ParseTimestamp(s) == Some(n) { DecimalSpelling(s); }
  }

  lemma DecimalLong(n: nat)
    requires |DecimalText(n)| > 1
    ensures n >= 10
  {
  }

  lemma {:induction false} DecimalSpelling(s: Bytes)
    requires s != [] && DigitBytes(s) && (|s| > 1 ==> s[0] != 48)
    ensures s == DecimalText(DecimalValue(s)) && (s[0] != 48 ==> DecimalValue(s) >= 1)
  {
    var init, last := s[..|s| - 1], s[|s| - 1];
    assert last in s && s == init + [last];
    if init == [] {
      assert DecimalValue(s) == last - 48;
    } else {
      assert init[0] == s[0] && DigitBytes(init);
      DecimalSpelling(init);
      var v := DecimalValue(init);
      assert DecimalValue(s) == 10 * v + (last - 48);
      assert DecimalValue(s) / 10 == v && DecimalValue(s) % 10 == last - 48;
    }
  }

  // ------------------------------------------------------------- hexadecimal

  predicate IsHexByte(b: Byte) {
    IsDigitByte(b) || 97 <= b <= 102
  }

  function HexDigit(n: nat): Byte
    requires n < 16
  {
    if n < 10 then 48 + n else 87 + n
  }

  function HexValue(b: Byte): (n: nat)
    requires IsHexByte(b)
    ensures n < 16
  {
    if IsDigitByte(b) then b - 48 else b - 87
  }

  function Hex(s: Bytes): (r: Bytes)
    ensures |r| == 2 * |s| && forall b <- r :: IsHexByte(b)
  {
    if s == [] then [] else [HexDigit(s[0] / 16), HexDigit(s[0] % 16)] + Hex(s[1..])
  }

  function Unhex(s: Bytes): (r: Bytes)
    requires |s| % 2 == 0 && forall b <- s :: IsHexByte(b)
    ensures 2 * |r| == |s|
  {
    if s == [] then []
    else
      assert s[0] in s && s[1] in s;
      [16 * HexValue(s[0]) + HexValue(s[1])] + Unhex(s[2..])
  }

  const HEX_DIGITS := "0123456789abcdef"

  /** Each byte is spelled as two lower-case digits, the upper half first. */
  lemma {:induction false} HexAt(s: Bytes, i: nat)
    requires i < |s|
    ensures Hex(s)[2 * i] as char == HEX_DIGITS[s[i] / 16] && Hex(s)[2 * i + 1] as char == HEX_DIGITS[s[i] % 16]
  {
    if i > 0 {
      HexAt(s[1..], i - 1);
      assert Hex(s)[2..] == Hex(s[1..]);
      hide HexDigit;
    }
  }

  lemma {:induction false} HexRoundTrip(s: Bytes)
    ensures Unhex(Hex(s)) == s
  {
    if s != [] {
      assert Hex(s)[2..] == Hex(s[1..]);
      HexRoundTrip(s[1..]);
    }
  }

  lemma HexHalves(s: Bytes)
    requires |s| >= 2 && IsHexByte(s[0]) && IsHexByte(s[1])
    ensures var b := 16 * HexValue(s[0]) + HexValue(s[1]);
            b < 256 && HexDigit(b / 16) == s[0] && HexDigit(b % 16) == s[1]
  {
    var b := 16 * HexValue(s[0]) + HexValue(s[1]);
    assert b / 16 == HexValue(s[0]) && b % 16 == HexValue(s[1]);
  }

  lemma {:induction false} UnhexRoundTrip(s: Bytes)
    requires |s| % 2 == 0 && forall b <- s :: IsHexByte(b)
    ensures Hex(Unhex(s)) == s
    decreases |s|
  {
    if s != [] {
      assert s[0] in s && s[1] in s && forall b <- s[2..] :: b in s;
      HexHalves(s);
      hide HexDigit, HexValue, IsHexByte;
      var u := Unhex(s);
      assert u[0] == 16 * HexValue(s[0]) + HexValue(s[1]) && u[1..] == Unhex(s[2..]);
      UnhexRoundTrip(s[2..]);
      assert Hex(u) == [HexDigit(u[0] / 16), HexDigit(u[0] % 16)] + Hex(u[1..]);
      assert s == [s[0], s[1]] + s[2..];
    }
  }
}
