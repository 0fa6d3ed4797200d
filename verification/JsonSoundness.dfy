/** Whatever the parser accepts is the text of a syntax tree. */
module JsonSoundness {
  import opened Lexeme
  import opened JsonGrammar
  import opened JsonValue
  import opened JsonParser
  import opened JsonLexing

  lemma SkipTwice(s: string)
    ensures SkipBlanks(SkipBlanks(s)) == SkipBlanks(s)
  {
    var b := BlanksFound(s);
  }

  lemma {:induction false} ValueFound(c: Config, p: Position, depth: nat) returns (t: Syntax)
    requires ParseValue(c, p, depth).Some?
    ensures WellFormed(t) && SkipBlanks(p.rest) == TextOf(t) + ParseValue(c, p, depth).value.1.rest
    decreases |p.rest|, 4
  {
    hide ParseToken, WellFormed, TextOf, SkipBlanks;
    var counts := ClaimNode(c, p.counts, depth).value;
    t := TokenFoundAt(c, Position(SkipBlanks(p.rest), counts), depth);
  }

  lemma {:induction false} TokenFoundAt(c: Config, p: Position, depth: nat) returns (t: Syntax)
    requires ParseToken(c, p, depth).Some?
    ensures WellFormed(t) && p.rest == TextOf(t) + ParseToken(c, p, depth).value.1.rest
    decreases |p.rest|, 3
  {
    hide ParseArray, ParseObject, ParseString, ParseNumber, StringToken, ValidNumber, NumberText, SkipBlanks;
    var s := p.rest;
    if s[0] == 'n' {
      t := SNull;
    } else if s[0] == 't' {
      t := STrue;
    } else if s[0] == 'f' {
      t := SFalse;
    } else if s[0] == '"' {
      var raw := TokenFound(c, s);
      t := SString(raw);
    } else if s[0] == '[' {
      t := ArrayFound(c, p, depth + 1);
    } else if s[0] == '{' {
      t := ObjectFound(c, p, depth + 1);
    } else {
      t := NumberValueFound(c, s);
    }
  }

  lemma NumberValueFound(c: Config, s: string) returns (t: Syntax)
    requires ParseNumber(c, s).Some?
    ensures WellFormed(t) && s == TextOf(t) + ParseNumber(c, s).value.1
  {
    var parts := NumberFound(s);
    t := SNumber(parts);
  }

  lemma {:induction false} ArrayFound(c: Config, p: Position, depth: nat) returns (t: Syntax)
    requires StartsWith(p.rest, '[') && ParseArray(c, p, depth).Some?
    ensures WellFormed(t) && p.rest == TextOf(t) + ParseArray(c, p, depth).value.1.rest
    decreases |p.rest|, 2
  {
    hide ParseItems, WellFormedItems, ItemsText, SkipBlanks;
    var s := p.rest[1..];
    var inner, rest := SkipBlanks(s), ParseArray(c, p, depth).value.1.rest;
    assert p.rest == "[" + s;
    if StartsWith(inner, ']') {
      var blank := BlanksFound(s);
      t := SEmptyArray(blank);
      assert inner == "]" + rest;
      Assoc("[" + blank, "]", rest);
    } else {
      var l := ItemsFound(c, s, p.(rest := inner), depth, []);
      t := SArray(l);
      Assoc("[", ItemsText(l) + "]", rest);
      assert TextOf(t) == "[" + (ItemsText(l) + "]");
    }
  }

  lemma {:induction false} ObjectFound(c: Config, p: Position, depth: nat) returns (t: Syntax)
    requires StartsWith(p.rest, '{') && ParseObject(c, p, depth).Some?
    ensures WellFormed(t) && p.rest == TextOf(t) + ParseObject(c, p, depth).value.1.rest
    decreases |p.rest|, 2
  {
    hide ParseMembers, WellFormedMembers, MembersText, SkipBlanks;
    var s := p.rest[1..];
    var inner, rest := SkipBlanks(s), ParseObject(c, p, depth).value.1.rest;
    assert p.rest == "{" + s;
    if StartsWith(inner, '}') {
      var blank := BlanksFound(s);
      t := SEmptyObject(blank);
      assert inner == "}" + rest;
      Assoc("{" + blank, "}", rest);
    } else {
      var l := MembersFound(c, s, p.(rest := inner), depth, [], {});
      t := SObject(l);
      Assoc("{", MembersText(l) + "}", rest);
      assert TextOf(t) == "{" + (MembersText(l) + "}");
    }
  }

  /** The array loop, started after the blanks of `s`. */
  lemma {:induction false} ItemsFound(c: Config, s: string, p: Position, depth: nat, values: seq<Json>) returns (l: Items)
    requires p.rest == SkipBlanks(s) && ParseItems(c, p, depth, values).Some?
    ensures WellFormedItems(l) && s == ItemsText(l) + "]" + ParseItems(c, p, depth, values).value.1.rest
    decreases |p.rest|, 6
  {
    hide ParseValue, WellFormed, TextOf, SkipBlanks;
    var before := BlanksFound(s);
    SkipTwice(s);
    var counts := ClaimItem(c, p.counts).value;
    var value := ValueFound(c, p.(counts := counts), depth);
    var (v, q) := ParseValue(c, p.(counts := counts), depth).value;
    var after := BlanksFound(q.rest);
    var rest := ParseItems(c, p, depth, values).value.1.rest;
    var tail := SkipBlanks(q.rest);
    assert s == before + (TextOf(value) + (after + tail));
    if StartsWith(tail, ']') {
      l := LastItem(before, value, after);
      assert tail == "]" + rest;
    } else {
      var more := ItemsFound(c, tail[1..], q.(rest := SkipBlanks(tail[1..])), depth, values + [v]);
      l := MoreItems(before, value, after, more);
      assert tail == "," + (ItemsText(more) + "]" + rest);
    }
    ItemsJoined(l, rest, tail);
  }

  lemma ItemsJoined(l: Items, rest: string, tail: string)
    requires tail == if l.MoreItems? then "," + (ItemsText(l.rest) + "]" + rest) else "]" + rest
    ensures ItemsText(l) + "]" + rest == l.before + (TextOf(l.value) + (l.after + tail))
  {
  }

  /** The object loop, started after the blanks of `s`. */
  lemma {:induction false} MembersFound(c: Config, s: string, p: Position, depth: nat, entries: seq<(string, Json)>,
                                        seen: set<string>) returns (l: Members)
    requires p.rest == SkipBlanks(s) && ParseMembers(c, p, depth, entries, seen).Some?
    ensures WellFormedMembers(l)
    ensures s == MembersText(l) + "}" + ParseMembers(c, p, depth, entries, seen).value.1.rest
    decreases |p.rest|, 6
  {
    hide ParseValue, WellFormed, TextOf, SkipBlanks, ParseKey, StringToken;
    var before := BlanksFound(s);
    var counts := ClaimItem(c, p.counts).value;
    var (name, colon) := ParseKey(c, p.rest, seen).value;
    var key, gap := KeyFound(c, p.rest, seen);
    var gap2 := BlanksFound(colon);
    var value := ValueFound(c, Position(colon, counts), depth);
    var (v, q) := ParseValue(c, Position(colon, counts), depth).value;
    var after := BlanksFound(q.rest);
    var rest := ParseMembers(c, p, depth, entries, seen).value.1.rest;
    var tail := SkipBlanks(q.rest);
    assert s == before + (key + gap + ":" + (gap2 + (TextOf(value) + (after + tail))));
    if StartsWith(tail, '}') {
      l := LastMember(before, key, gap, gap2, value, after);
      assert tail == "}" + rest;
    } else {
      var more := MembersFound(c, tail[1..], q.(rest := SkipBlanks(tail[1..])), depth, entries + [(name, v)], seen + {name});
      l := MoreMembers(before, key, gap, gap2, value, after, more);
      assert tail == "," + (MembersText(more) + "}" + rest);
    }
    MembersJoined(l, rest, tail);
  }

  lemma KeyFound(c: Config, s: string, seen: set<string>) returns (key: string, gap: string)
    requires ParseKey(c, s, seen).Some?
    ensures StringToken(key) && Blank(gap) && s == key + gap + ":" + ParseKey(c, s, seen).value.1
  {
    hide ParseString, StringToken, SkipBlanks;
    key := TokenFound(c, s);
    var rest := ParseString(c, s).value.1;
    gap := BlanksFound(rest);
    var tail := SkipBlanks(rest);
    assert tail == ":" + tail[1..];
    Assoc(key, gap, tail);
    Assoc(key + gap, ":", tail[1..]);
  }

  lemma MembersJoined(l: Members, rest: string, tail: string)
    requires tail == if l.MoreMembers? then "," + (MembersText(l.rest) + "}" + rest) else "}" + rest
    ensures MembersText(l) + "}" + rest ==
            l.before + (l.key + l.gap + ":" + (l.gap2 + (TextOf(l.value) + (l.after + tail))))
  {
  }
}
