/** The SigV4 path encoder, and the request path assembled from it. */
module SigV4Path {
  import opened Common

  const PERCENT: Byte := 37
  const SLASH: Byte := 47

  /** The unreserved characters of section 2.3 of RFC 3986. */
  predicate IsUnreserved(b: Byte) {
    65 <= b <= 90 || 97 <= b <= 122 || 48 <= b <= 57 || b == 45 || b == 46 || b == 95 || b == 126
  }

  predicate IsUpperHex(b: Byte) {
    48 <= b <= 57 || 65 <= b <= 70
  }

  function HexDigit(n: nat): Byte
    requires n < 16
  {
    if n < 10 then 48 + n else 55 + n
  }

  function HexValue(b: Byte): (n: nat)
    requires IsUpperHex(b)
    ensures n < 16
  {
    if b <= 57 then b - 48 else b - 55
  }

  function EncodeByte(b: Byte): Bytes {
    if IsUnreserved(b) then [b] else [PERCENT, HexDigit(b / 16), HexDigit(b % 16)]
  }

  function Encode(s: Bytes): Bytes {
    if s == [] then [] else EncodeByte(s[0]) + Encode(s[1..])
  }

  /** Percent-decoding (section 2.1 of RFC 3986) of text that is unreserved bytes and upper-case triplets only. */
  function Decode(s: Bytes): Option<Bytes>
    decreases |s|
  {
    if s == [] then Some([])
    else if IsUnreserved(s[0]) then Prepend(s[0], Decode(s[1..]))
    else if |s| >= 3 && s[0] == PERCENT && IsUpperHex(s[1]) && IsUpperHex(s[2])
    then
      var b := 16 * HexValue(s[1]) + HexValue(s[2]);
      if IsUnreserved(b) then None else Prepend(b, Decode(s[3..]))
    else None
  }

  function Prepend(b: Byte, rest: Option<Bytes>): Option<Bytes> {
    match rest case None => None case Some(r) => Some([b] + r)
  }

  lemma {:induction false} DecodeEncode(s: Bytes)
    ensures Decode(Encode(s)) == Some(s)
  {
    if s != [] {
      var e, n := Encode(s), |EncodeByte(s[0])|;
      assert e[n..] == Encode(s[1..]) && e[..n] == EncodeByte(s[0]);
      DecodeEncode(s[1..]);
      assert s == [s[0]] + s[1..];
      assert n == 3 ==> e[1] == HexDigit(s[0] / 16) && e[2] == HexDigit(s[0] % 16);
    }
  }

  lemma {:induction false} EncodeDecode(e: Bytes)
    requires Decode(e).Some?
    ensures Encode(Decode(e).value) == e
    decreases |e|
  {
    if e != [] {
      var s, n := Decode(e).value, if IsUnreserved(e[0]) then 1 else 3;
      assert s[1..] == Decode(e[n..]).value;
      EncodeDecode(e[n..]);
      assert e == e[..n] + e[n..];
      assert n == 3 ==> s[0] / 16 == HexValue(e[1]) && s[0] % 16 == HexValue(e[2]) && e[..3] == [PERCENT, e[1], e[2]];
    }
  }

  /** Decoding undoes encoding, and accepts nothing but encodings: one spelling for every segment. */
  lemma DecodeIff(s: Bytes, e: Bytes)
    ensures Decode(e) == Some(s) <==> e == Encode(s)
  {
    hide Encode, Decode;
    DecodeEncode(s);
    if Decode(e) == Some(s) { EncodeDecode(e); }
  }

  /** Unreserved bytes, percent signs and upper-case hexadecimal digits only; in particular no slash. */
  lemma {:induction false} EncodedBytes(s: Bytes)
    ensures forall b <- Encode(s) :: IsUnreserved(b) || b == PERCENT
  {
    if s != [] { EncodedBytes(s[1..]); }
  }

  const HEX_DIGITS := "0123456789ABCDEF"

  /** Letters, digits and four marks stand for themselves; any other byte is a percent sign and two upper-case digits. */
  lemma ByteSpelling(b: Byte)
    ensures Encode([b]) ==
            if IsAlphanumeric(b as char) || b as char in "-._~" then [b]
            else ['%' as int, HEX_DIGITS[b / 16] as int, HEX_DIGITS[b % 16] as int]
  {
    assert Encode([b]) == EncodeByte(b) + Encode([]);
  }

  /** Bytes are spelled one by one. */
  lemma {:induction false} EncodeConcat(s: Bytes, t: Bytes)
    ensures Encode(s + t) == Encode(s) + Encode(t)
  {
    hide EncodeByte;
    if s == [] {
      assert s + t == t;
    } else {
      assert (s + t)[0] == s[0] && (s + t)[1..] == s[1..] + t;
      EncodeConcat(s[1..], t);
    }
  }

  // -------------------------------------------------------------------- path

  function Path(segments: seq<Bytes>): Bytes {
    if segments == [] then [] else [SLASH] + Encode(segments[0]) + Path(segments[1..])
  }

  lemma {:induction false} PathAppend(segments: seq<Bytes>, last: Bytes)
    ensures Path(segments + [last]) == Path(segments) + (['/' as int] + Encode(last))
  {
    if segments == [] {
      assert segments + [last] == [last] && Path([]) == [];
      assert Path([last]) == [SLASH] + Encode(last) + Path([]);
    } else {
      assert (segments + [last])[0] == segments[0] && (segments + [last])[1..] == segments[1..] + [last];
      PathAppend(segments[1..], last);
    }
  }

  function FirstSlash(s: Bytes): nat {
    if s == [] || s[0] == SLASH then 0 else 1 + FirstSlash(s[1..])
  }

  lemma {:induction false} FirstSlashAt(a: Bytes, x: Bytes)
    requires SLASH !in a && (x == [] || x[0] == SLASH)
    ensures FirstSlash(a + x) == |a|
  {
    if a == [] {
      assert a + x == x;
    } else {
      assert a[0] in a && (a + x)[1..] == a[1..] + x && forall b <- a[1..] :: b in a;
      FirstSlashAt(a[1..], x);
    }
  }

  lemma SlashesSplit(a: Bytes, b: Bytes, x: Bytes, y: Bytes)
    requires SLASH !in a && SLASH !in b && (x == [] || x[0] == SLASH) && (y == [] || y[0] == SLASH)
    requires a + x == b + y
    ensures a == b && x == y
  {
    FirstSlashAt(a, x);
    FirstSlashAt(b, y);
    assert a == (a + x)[..|a|] && b == (b + y)[..|a|];
    assert x == (a + x)[|a|..] && y == (b + y)[|a|..];
  }

  lemma EncodeInjective(a: Bytes, b: Bytes)
    requires Encode(a) == Encode(b)
    ensures a == b
  {
    DecodeIff(a, Encode(a));
    DecodeIff(b, Encode(a));
  }

  lemma NoSlashInside(s: Bytes)
    ensures SLASH !in Encode(s)
  {
    EncodedBytes(s);
  }

  lemma PathParts(segments: seq<Bytes>)
    requires segments != []
    ensures Path(segments) != [] && Path(segments)[1..] == Encode(segments[0]) + Path(segments[1..])
    ensures Path(segments[1..]) == [] || Path(segments[1..])[0] == SLASH
  {
    hide Encode;
    var rest := Path(segments[1..]);
    assert Path(segments) == [SLASH] + Encode(segments[0]) + rest;
    assert rest == [] || rest[0] == SLASH;
    hide Path;
    assert ([SLASH] + Encode(segments[0]) + rest)[1..] == Encode(segments[0]) + rest;
  }

  /** Different lists of raw segments never give the same path text, whatever bytes they hold. */
  lemma {:induction false} PathInjective(a: seq<Bytes>, b: seq<Bytes>)
    requires Path(a) == Path(b)
    ensures a == b
  {
    if a != [] && b != [] {
      hide Path, Encode;
      PathParts(a);
      PathParts(b);
      NoSlashInside(a[0]);
      NoSlashInside(b[0]);
      SlashesSplit(Encode(a[0]), Encode(b[0]), Path(a[1..]), Path(b[1..]));
      EncodeInjective(a[0], b[0]);
      PathInjective(a[1..], b[1..]);
      assert a == [a[0]] + a[1..] && b == [b[0]] + b[1..];
    }
  }

  /** The base without its trailing slashes. */
  function Trim(base: Bytes): Bytes {
    if base != [] && base[|base| - 1] == SLASH then Trim(base[..|base| - 1]) else base
  }

  /** All trailing slashes go and nothing else does. */
  lemma {:induction false} TrimIff(base: Bytes, t: Bytes)
    ensures Trim(base) == t <==>
            && t <= base && (t != [] ==> t[|t| - 1] != '/' as int)
            && forall i :: |t| <= i < |base| ==> base[i] == '/' as int
  {
    if base != [] && base[|base| - 1] == SLASH { TrimIff(base[..|base| - 1], t); }
  }

  /** For a fixed base, the request text determines the segments. */
  lemma UriInjective(base: Bytes, a: seq<Bytes>, b: seq<Bytes>)
    requires Trim(base) + Path(a) == Trim(base) + Path(b)
    ensures a == b
  {
    hide Path, Trim;
    var n := |Trim(base)|;
    assert (Trim(base) + Path(a))[n..] == Path(a) && (Trim(base) + Path(b))[n..] == Path(b);
    PathInjective(a, b);
  }

  lemma EncodeAppend(s: Bytes, b: Byte)
    ensures Encode(s + [b]) == Encode(s) + EncodeByte(b)
  {
    EncodeConcat(s, [b]);
    assert Encode([b]) == EncodeByte(b) + Encode([]);
    hide EncodeByte;
  }

  // ----------------------------------------------------------------- methods

  method EncodeSegment(value: Bytes) returns (encoded: Bytes)
    ensures encoded == Encode(value)
  {
    hide Encode;
    encoded := [];
    var i := 0;
    EncodeNothing();
    assert value[..0] == [];
    while i < |value|
      invariant 0 <= i <= |value|
      invariant encoded == Encode(value[..i])
    {
      var b := value[i];
      assert value[..i + 1] == value[..i] + [b];
      EncodeAppend(value[..i], b);
      if IsUnreserved(b) {
        encoded := encoded + [b];
      } else {
        assert encoded + [PERCENT] + [HexDigit(b / 16)] + [HexDigit(b % 16)] == encoded + EncodeByte(b);
        encoded := encoded + [PERCENT];
        encoded := encoded + [HexDigit(b / 16)];
        encoded := encoded + [HexDigit(b % 16)];
      }
      i := i + 1;
    }
    assert value[..i] == value;
  }

  lemma EncodeNothing()
    ensures Encode([]) == []
  {
  }

  /** Trailing slashes of the base are dropped, then every segment is added behind a slash. */
  method RequestUri(base: Bytes, parts: seq<Bytes>) returns (uri: Bytes)
    ensures uri == Trim(base) + Path(parts)
  {
    uri := base;
    while uri != [] && uri[|uri| - 1] == SLASH
      invariant Trim(uri) == Trim(base)
    {
      uri := uri[..|uri| - 1];
    }
    assert uri == Trim(base);
    var i := 0;
    assert parts[..0] == [];
    while i < |parts|
      invariant 0 <= i <= |parts|
      invariant uri == Trim(base) + Path(parts[..i])
    {
      assert parts[..i + 1] == parts[..i] + [parts[i]];
      PathAppend(parts[..i], parts[i]);
      uri := uri + [SLASH];
      var segment := EncodeSegment(parts[i]);
      uri := uri + segment;
      i := i + 1;
    }
    assert parts[..i] == parts;
  }
}
