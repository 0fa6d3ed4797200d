/** The scanners recognise exactly the tokens of the grammar. */
module JsonLexing {
  import opened Common
  import opened Lexeme
  import opened JsonGrammar
  import opened JsonParser

  /** What may come after a value in a JSON text. */
  predicate Follow(s: string) {
    s == "" || IsBlank(s[0]) || s[0] == ',' || s[0] == ']' || s[0] == '}'
  }

  lemma Assoc(a: string, b: string, c: string)
    ensures a + b + c == a + (b + c)
  {
  }

  lemma {:induction false} BlanksSkipped(b: string, s: string)
    requires Blank(b) && (s == "" || !IsBlank(s[0]))
    ensures SkipBlanks(b + s) == s
  {
    if b == "" {
      assert b + s == s;
    } else {
      assert b[0] in b && (b + s)[1..] == b[1..] + s && forall c <- b[1..] :: c in b;
      BlanksSkipped(b[1..], s);
    }
  }

  lemma {:induction false} BlanksFound(s: string) returns (b: string)
    ensures Blank(b) && s == b + SkipBlanks(s)
    ensures SkipBlanks(s) == "" || !IsBlank(SkipBlanks(s)[0])
  {
    if s != "" && IsBlank(s[0]) {
      var rest := s[1..];
      var tail := BlanksFound(rest);
      b := [s[0]] + tail;
      Assoc([s[0]], tail, SkipBlanks(rest));
      assert s == [s[0]] + rest;
    } else {
      b := "";
    }
  }

  lemma {:induction false} DigitsSkipped(d: string, s: string)
    requires AllDigits(d) && !StartsWithDigit(s)
    ensures SkipDigits(d + s) == s
  {
    if d == "" {
      assert d + s == s;
    } else {
      assert d[0] in d && (d + s)[1..] == d[1..] + s && forall c <- d[1..] :: c in d;
      DigitsSkipped(d[1..], s);
    }
  }

  lemma {:induction false} DigitsFound(s: string) returns (d: string)
    ensures AllDigits(d) && s == d + SkipDigits(s) && !StartsWithDigit(SkipDigits(s))
    ensures StartsWithDigit(s) ==> d != "" && d[0] == s[0]
  {
    if StartsWithDigit(s) {
      var rest := s[1..];
      var tail := DigitsFound(rest);
      d := [s[0]] + tail;
      Assoc([s[0]], tail, SkipDigits(rest));
      assert s == [s[0]] + rest;
    } else {
      d := "";
    }
  }

  // ----------------------------------------------------------------- strings

  lemma {:induction false} BodyScanned(body: string, s: string)
    requires StringBody(body)
    ensures ScanString(body + "\"" + s, false) == Some(|body| + 1)
    decreases |body|
  {
    var text := body + "\"" + s;
    if body == "" {
    } else if body[0] == '\\' {
      assert text[1..][1..] == body[2..] + "\"" + s;
      BodyScanned(body[2..], s);
    } else {
      assert text[1..] == body[1..] + "\"" + s;
      BodyScanned(body[1..], s);
    }
  }

  lemma {:induction false} BodyFound(s: string)
    requires ScanString(s, false).Some?
    ensures var n := ScanString(s, false).value; s[n - 1] == '"' && StringBody(s[..n - 1])
    decreases |s|
  {
    var n := ScanString(s, false).value;
    if s[0] == '"' {
      assert s[..0] == "";
    } else if s[0] == '\\' {
      assert ScanString(s[1..], true).Some? && s[1..] != "";
      assert s[1..][1..] == s[2..];
      BodyFound(s[2..]);
      assert s[..n - 1][2..] == s[2..][..n - 3];
    } else {
      BodyFound(s[1..]);
      assert s[..n - 1][1..] == s[1..][..n - 2];
    }
  }

  lemma TokenParsed(c: Config, raw: string, s: string)
    requires StringToken(raw)
    ensures StartsWith(raw + s, '"')
    ensures ParseString(c, raw + s) ==
            if c.bounded && |raw| > MAX_STRING_BYTES then None
            else match c.tokens.decode(raw) case None => None case Some(value) => Some((value, s))
  {
    var body := raw[1..|raw| - 1];
    assert (raw + s)[1..] == body + "\"" + s;
    BodyScanned(body, s);
    assert (raw + s)[..|raw|] == raw && (raw + s)[|raw|..] == s;
  }

  lemma TokenFound(c: Config, s: string) returns (raw: string)
    requires StartsWith(s, '"') && ParseString(c, s).Some?
    ensures StringToken(raw) && s == raw + ParseString(c, s).value.1
    ensures c.tokens.decode(raw) == Some(ParseString(c, s).value.0)
  {
    var n := ScanString(s[1..], false).value;
    BodyFound(s[1..]);
    raw := s[..n + 1];
    assert raw[1..|raw| - 1] == s[1..][..n - 1];
  }

  // ----------------------------------------------------------------- numbers

  /** The next character does not continue a number. */
  predicate NumberEnds(s: string) {
    s == "" || (!IsDigit(s[0]) && s[0] != '.' && !IsMarker(s[0]))
  }

  lemma ExponentScanned(n: NumberParts, s: string)
    requires ValidNumber(n) && NumberEnds(s)
    ensures ScanExponent(ExponentText(n) + s) == Some(s)
  {
    if n.exponent.Some? {
      var e := n.exponent.value;
      var digits := e.digits + s;
      assert StartsWithDigit(digits) by { assert e.digits[0] in e.digits; }
      DigitsSkipped(e.digits, s);
      Assoc([e.marker] + SignText(e), e.digits, s);
      if e.sign.Some? {
        SignSkipped(e.marker, e.sign.value, digits);
      } else {
        assert [e.marker] + "" == [e.marker] && ([e.marker] + digits)[1..] == digits;
      }
    } else {
      assert ExponentText(n) + s == s;
    }
  }

  lemma SignSkipped(marker: char, sign: char, digits: string)
    requires IsMarker(marker) && (sign == '+' || sign == '-') && StartsWithDigit(digits)
    ensures ScanExponent([marker] + [sign] + digits) == Some(SkipDigits(digits))
  {
    var text := [marker] + [sign] + digits;
    assert text[2..] == digits && text[1..][0] == sign;
  }

  lemma FractionScanned(n: NumberParts, s: string)
    requires ValidNumber(n) && NumberEnds(s)
    ensures ScanFraction(FractionText(n) + (ExponentText(n) + s)) == Some(ExponentText(n) + s)
  {
    var after := ExponentText(n) + s;
    assert !StartsWithDigit(after) && !StartsWith(after, '.');
    if n.fraction.Some? {
      assert (FractionText(n) + after)[1..] == n.fraction.value + after;
      assert n.fraction.value[0] in n.fraction.value;
      DigitsSkipped(n.fraction.value, after);
    } else {
      assert FractionText(n) + after == after;
    }
  }

  lemma IntegerScanned(n: NumberParts, after: string)
    requires ValidNumber(n) && !StartsWithDigit(after)
    ensures ScanInteger(n.integer + after) == Some(after)
  {
    assert n.integer[0] in n.integer;
    if n.integer[0] == '0' {
      assert (n.integer + after)[1..] == after;
    } else {
      DigitsSkipped(n.integer, after);
    }
  }

  lemma NumberTextSplits(n: NumberParts, s: string)
    ensures NumberText(n) + s ==
            (if n.negative then "-" else "") + (n.integer + (FractionText(n) + (ExponentText(n) + s)))
  {
    var sign := if n.negative then "-" else "";
    Assoc(sign, Unsigned(n), s);
    Assoc(n.integer + FractionText(n), ExponentText(n), s);
    Assoc(n.integer, FractionText(n), ExponentText(n) + s);
  }

  /** Maximal munch reads back every number the grammar can write. */
  lemma NumberScanned(n: NumberParts, s: string)
    requires ValidNumber(n) && NumberEnds(s)
    ensures ScanNumber(NumberText(n) + s) == Some(s)
  {
    var after := FractionText(n) + (ExponentText(n) + s);
    var unsigned := n.integer + after;
    NumberTextSplits(n, s);
    assert !StartsWithDigit(after);
    assert unsigned[0] == n.integer[0] && n.integer[0] in n.integer;
    assert ("-" + unsigned)[1..] == unsigned && "" + unsigned == unsigned;
    IntegerScanned(n, after);
    FractionScanned(n, s);
    ExponentScanned(n, s);
    hide ScanInteger, ScanFraction, ScanExponent, FractionText, ExponentText, NumberText, ValidNumber;
  }

  /** Whatever is scanned as a number is a number of the grammar. */
  lemma NumberFound(s: string) returns (n: NumberParts)
    requires ScanNumber(s).Some?
    ensures ValidNumber(n) && s == NumberText(n) + ScanNumber(s).value
  {
    var negative := StartsWith(s, '-');
    var s1 := if negative then s[1..] else s;
    var s2 := ScanInteger(s1).value;
    var s3 := ScanFraction(s2).value;
    var rest := ScanExponent(s3).value;
    var integer := IntegerFound(s1);
    var fraction := FractionFound(s2);
    var exponent := ExponentFound(s3);
    n := NumberParts(negative, integer, fraction, exponent);
    NumberTextSplits(n, rest);
    assert s == (if negative then "-" else "") + s1;
    hide ScanInteger, ScanFraction, ScanExponent, NumberText;
  }

  lemma IntegerFound(s: string) returns (integer: string)
    requires ScanInteger(s).Some?
    ensures ValidInteger(integer) && s == integer + ScanInteger(s).value
  {
    if StartsWith(s, '0') {
      integer := "0";
    } else {
      integer := DigitsFound(s);
    }
  }

  lemma FractionFound(s: string) returns (fraction: Option<string>)
    requires ScanFraction(s).Some?
    ensures fraction.Some? ==> fraction.value != "" && AllDigits(fraction.value)
    ensures s == (if fraction.Some? then "." + fraction.value else "") + ScanFraction(s).value
  {
    if StartsWith(s, '.') {
      var digits := DigitsFound(s[1..]);
      fraction := Some(digits);
      assert s == "." + s[1..];
    } else {
      fraction := None;
      assert "" + s == s;
    }
  }

  lemma ExponentFound(s: string) returns (exponent: Option<Exponent>)
    requires ScanExponent(s).Some?
    ensures exponent.Some? ==> ValidExponent(exponent.value)
    ensures s == (if exponent.Some? then [exponent.value.marker] + SignText(exponent.value) + exponent.value.digits else "")
                 + ScanExponent(s).value
  {
    if StartsWith(s, 'e') || StartsWith(s, 'E') {
      var signed := StartsWith(s[1..], '+') || StartsWith(s[1..], '-');
      var text := if signed then s[2..] else s[1..];
      var digits := DigitsFound(text);
      var e := Exponent(s[0], if signed then Some(s[1]) else None, digits);
      exponent := Some(e);
      Assoc([s[0]] + SignText(e), digits, SkipDigits(text));
      assert s == [s[0]] + SignText(e) + text;
    } else {
      exponent := None;
      assert "" + s == s;
    }
  }
}
