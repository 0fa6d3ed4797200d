/** The parser as the program runs it: an index into the input and two counters, moved by loops. */
module JsonMachine {
  import opened Common
  import opened JsonValue
  import opened JsonGrammar
  import opened JsonParser

  class Parser {
    const input: string
    const config: Config
    var index: nat
    var nodes: nat
    var collectionItems: nat

    constructor (input: string, config: Config)
      ensures Valid() && index == nodes == collectionItems == 0
      ensures this.input == input && this.config == config
    {
      this.input := input;
      this.config := config;
      index, nodes, collectionItems := 0, 0, 0;
    }

    predicate Valid()
      reads this
    {
      index <= |input|
    }

    function Rest(): string
      requires Valid()
      reads this
    {
      input[index..]
    }

    function At(): Position
      requires Valid()
      reads this
    {
      Position(Rest(), Counts(nodes, collectionItems))
    }

    predicate Peeks(c: char)
      requires Valid()
      reads this
      ensures Peeks(c) == StartsWith(Rest(), c)
    {
      index < |input| && input[index] == c
    }

    method Step(n: nat)
      requires Valid() && index + n <= |input|
      modifies `index
      ensures Valid() && index == old(index) + n && Rest() == old(Rest())[n..]
    {
      index := index + n;
    }

    method Consume(c: char) returns (consumed: bool)
      requires Valid()
      modifies `index
      ensures Valid() && consumed == StartsWith(old(Rest()), c)
      ensures Rest() == if consumed then old(Rest())[1..] else old(Rest())
    {
      consumed := Peeks(c);
      if consumed { Step(1); }
    }

    method SkipWhitespace()
      requires Valid()
      modifies `index
      ensures Valid() && Rest() == SkipBlanks(old(Rest()))
    {
      while index < |input| && IsBlank(input[index])
        invariant Valid() && SkipBlanks(Rest()) == SkipBlanks(old(Rest()))
      {
        Step(1);
      }
    }

    method ConsumeDigits()
      requires Valid()
      modifies `index
      ensures Valid() && Rest() == SkipDigits(old(Rest()))
    {
      while index < |input| && IsDigit(input[index])
        invariant Valid() && SkipDigits(Rest()) == SkipDigits(old(Rest()))
      {
        Step(1);
      }
    }

    method ClaimCollectionItem() returns (ok: bool)
      requires Valid()
      modifies `collectionItems
      ensures var claimed := ClaimItem(config, old(At()).counts);
              ok == claimed.Some? && (ok ==> At() == old(At()).(counts := claimed.value))
    {
      ok := true;
      if config.maxNodes.Some? {
        ok := collectionItems < config.maxNodes.value;
        if ok { collectionItems := collectionItems + 1; }
      }
    }

    method Literal(expected: string, value: Json) returns (r: Option<Json>)
      requires Valid() && expected != ""
      modifies `index
      ensures Valid()
      ensures var result := ParseLiteral(old(Rest()), expected, value);
              r.Some? == result.Some? && (r.Some? ==> result.value == (r.value, Rest()))
    {
      assert index + |expected| <= |input| ==> Rest()[..|expected|] == input[index..index + |expected|];
      r := None;
      if index + |expected| <= |input| && input[index..index + |expected|] == expected {
        Step(|expected|);
        r := Some(value);
      }
    }

    lemma Slices(start: nat, end: nat)
      requires start <= end <= |input|
      ensures input[start..][..end - start] == input[start..end] && input[start..][end - start..] == input[end..]
    {
    }

    method String() returns (r: Option<string>)
      requires Valid() && StartsWith(Rest(), '"')
      modifies `index
      ensures Valid()
      ensures var result := ParseString(config, old(Rest()));
              r.Some? == result.Some? && (r.Some? ==> result.value == (r.value, Rest()))
    {
      var start := index;
      var escaped := false;
      r := None;
      Step(1);
      ghost var scanned := ScanString(Rest(), false);
      while index < |input|
        invariant start < index <= |input|
        invariant match ScanString(Rest(), escaped)
                  case None => scanned == None
                  case Some(n) => scanned == Some(index - start - 1 + n)
      {
        var c := input[index];
        assert Rest()[0] == c;
        Step(1);
        if escaped {
          escaped := false;
        } else if c == '\\' {
          escaped := true;
        } else if c == '"' {
          assert scanned == Some(index - start - 1);
          Slices(start, index);
          var raw := input[start..index];
          if config.bounded && |raw| > MAX_STRING_BYTES {
            return None;
          }
          return config.tokens.decode(raw);
        }
      }
    }

    method Digits() returns (ok: bool)
      requires Valid()
      modifies `index
      ensures Valid() && ok == StartsWithDigit(old(Rest()))
      ensures ok ==> Rest() == SkipDigits(old(Rest()))
    {
      ok := index < |input| && IsDigit(input[index]);
      if ok { ConsumeDigits(); }
    }

    method IntegerPart() returns (ok: bool)
      requires Valid()
      modifies `index
      ensures Valid() && ok == ScanInteger(old(Rest())).Some?
      ensures ok ==> Some(Rest()) == ScanInteger(old(Rest()))
    {
      if Peeks('0') {
        Step(1);
        ok := !(index < |input| && IsDigit(input[index]));
      } else {
        ok := Digits();
      }
    }

    method FractionPart() returns (ok: bool)
      requires Valid()
      modifies `index
      ensures Valid() && ok == ScanFraction(old(Rest())).Some?
      ensures ok ==> Some(Rest()) == ScanFraction(old(Rest()))
    {
      var point := Consume('.');
      ok := true;
      if point { ok := Digits(); }
    }

    method ExponentPart() returns (ok: bool)
      requires Valid()
      modifies `index
      ensures Valid() && ok == ScanExponent(old(Rest())).Some?
      ensures ok ==> Some(Rest()) == ScanExponent(old(Rest()))
    {
      ok := true;
      if Peeks('e') || Peeks('E') {
        Step(1);
        if Peeks('+') || Peeks('-') { Step(1); }
        ok := Digits();
      }
    }

    method Numeral() returns (r: Option<Json>)
      requires Valid()
      modifies `index
      ensures Valid()
      ensures var result := ParseNumber(config, old(Rest()));
              r.Some? == result.Some? && (r.Some? ==> result.value == (r.value, Rest()))
    {
      hide ScanInteger, ScanFraction, ScanExponent;
      var start := index;
      var minus := Consume('-');
      var ok := IntegerPart();
      if ok { ok := FractionPart(); }
      if ok { ok := ExponentPart(); }
      if !ok { return None; }
      assert ScanNumber(old(Rest())) == Some(Rest());
      assert start <= index;
      var lexeme := input[start..index];
      assert lexeme == old(Rest())[..|old(Rest())| - |Rest()|];
      if config.bounded && |lexeme| > MAX_NUMBER_BYTES { return None; }
      var n := config.tokens.convert(lexeme);
      r := if n.Some? then Some(Number(n.value)) else None;
    }

    method Value(depth: nat) returns (r: Option<Json>)
      requires Valid()
      modifies this
      ensures Valid() && r.Some? == ParseValue(config, old(At()), depth).Some?
      ensures r.Some? ==> ParseValue(config, old(At()), depth).value == (r.value, At())
      decreases |Rest()|, 4
    {
      hide SkipBlanks, ParseArray, ParseObject, ParseString, ParseNumber, ParseLiteral;
      ghost var start := At();
      r := None;
      if config.bounded && depth > MAX_NESTING_DEPTH { return; }
      if config.maxNodes.Some? {
        if nodes >= config.maxNodes.value { return; }
        nodes := nodes + 1;
      }
      SkipWhitespace();
      assert ParseValue(config, start, depth) == ParseToken(config, At(), depth);
      if Peeks('n') {
        r := Literal("null", Null);
      } else if Peeks('t') {
        r := Literal("true", Bool(true));
      } else if Peeks('f') {
        r := Literal("false", Bool(false));
      } else if Peeks('"') {
        var s := String();
        r := if s.Some? then Some(Text(s.value)) else None;
      } else if Peeks('[') {
        r := ParseArrayAt(depth + 1);
      } else if Peeks('{') {
        r := ParseObjectAt(depth + 1);
      } else if Peeks('-') || (index < |input| && IsDigit(input[index])) {
        r := Numeral();
      }
    }

    method ParseArrayAt(depth: nat) returns (r: Option<Json>)
      requires Valid() && StartsWith(Rest(), '[')
      modifies this
      ensures Valid() && r.Some? == ParseArray(config, old(At()), depth).Some?
      ensures r.Some? ==> ParseArray(config, old(At()), depth).value == (r.value, At())
      decreases |Rest()|, 2
    {
      hide SkipBlanks, ParseValue;
      ghost var start := At();
      Step(1);
      SkipWhitespace();
      var values := [];
      var closed := Consume(']');
      if closed { return Some(Array(values)); }
      assert ParseArray(config, start, depth) == ParseItems(config, At(), depth, values);
      while true
        invariant Valid() && |Rest()| < |start.rest|
        invariant ParseArray(config, start, depth) == ParseItems(config, At(), depth, values)
        decreases |Rest()|
      {
        var ok := ClaimCollectionItem();
        if !ok { return None; }
        var value := Value(depth);
        if value.None? { return None; }
        values := values + [value.value];
        assert ParseArray(config, start, depth) == ContinueItems(config, At(), depth, values);
        SkipWhitespace();
        closed := Consume(']');
        if closed { return Some(Array(values)); }
        var comma := Consume(',');
        if !comma { return None; }
        SkipWhitespace();
      }
    }

    /** A new member name and the colon after it. */
    method Name(seen: set<string>) returns (r: Option<string>)
      requires Valid()
      modifies `index
      ensures Valid()
      ensures var result := ParseKey(config, old(Rest()), seen);
              r.Some? == result.Some? && (r.Some? ==> result.value == (r.value, Rest()))
    {
      hide SkipBlanks, ParseString;
      if !Peeks('"') { return None; }
      r := String();
      if r.None? { return; }
      if r.value in seen { return None; }
      SkipWhitespace();
      var colon := Consume(':');
      if !colon { return None; }
    }

    method ParseObjectAt(depth: nat) returns (r: Option<Json>)
      requires Valid() && StartsWith(Rest(), '{')
      modifies this
      ensures Valid() && r.Some? == ParseObject(config, old(At()), depth).Some?
      ensures r.Some? ==> ParseObject(config, old(At()), depth).value == (r.value, At())
      decreases |Rest()|, 2
    {
      hide SkipBlanks, ParseValue, ParseKey;
      ghost var start := At();
      Step(1);
      SkipWhitespace();
      var entries, seen := [], {};
      var closed := Consume('}');
      if closed { return Some(Object(entries)); }
      assert ParseObject(config, start, depth) == ParseMembers(config, At(), depth, entries, seen);
      while true
        invariant Valid() && |Rest()| < |start.rest|
        invariant ParseObject(config, start, depth) == ParseMembers(config, At(), depth, entries, seen)
        decreases |Rest()|
      {
        var ok := ClaimCollectionItem();
        if !ok { return None; }
        var key := Name(seen);
        if key.None? { return None; }
        var value := Value(depth);
        if value.None? { return None; }
        entries, seen := entries + [(key.value, value.value)], seen + {key.value};
        assert ParseObject(config, start, depth) == ContinueMembers(config, At(), depth, entries, seen);
        SkipWhitespace();
        closed := Consume('}');
        if closed { return Some(Object(entries)); }
        var comma := Consume(',');
        if !comma { return None; }
        SkipWhitespace();
      }
    }

    method All() returns (r: Option<Json>)
      requires index == nodes == collectionItems == 0
      modifies this
      ensures r == ParseAll(config, input)
    {
      hide SkipBlanks, ParseValue;
      SkipWhitespace();
      r := Value(0);
      if r.Some? {
        SkipWhitespace();
        if index != |input| { r := None; }
      }
    }
  }

  method ParseWithByteBudget(input: string, tokens: Tokens, maxBytes: Option<nat>, maxNodes: Option<nat>)
    returns (r: Option<Json>)
    ensures r == ParseDocument(tokens, maxBytes, maxNodes, input)
  {
    hide ParseAll;
    if maxBytes.Some? && |input| > maxBytes.value { return None; }
    var parser := new Parser(input, Config(tokens, maxBytes.Some?, maxNodes));
    r := parser.All();
  }
}
