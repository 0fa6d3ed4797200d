/** On the text of any syntax tree the parser returns exactly the tree's meaning, cut off by the limits. */
module JsonCompleteness {
  import opened Common
  import opened Lexeme
  import opened JsonGrammar
  import opened JsonValue
  import opened JsonParser
  import opened JsonLexing

  predicate CountersFit(c: Config, k: Counts, nodes: nat, items: nat) {
    c.maxNodes.Some? ==> k.nodes + nodes <= c.maxNodes.value && (items > 0 ==> k.items + items <= c.maxNodes.value)
  }

  /** The tree, parsed at `depth` after the claims `k`, stays within every limit. */
  predicate Fits(c: Config, t: Syntax, k: Counts, depth: nat) {
    && (c.bounded ==> depth + Height(t) <= MAX_NESTING_DEPTH && TokensFit(t))
    && CountersFit(c, k, Nodes(t), Children(t))
  }

  predicate ItemsFit(c: Config, l: Items, k: Counts, depth: nat) {
    && (c.bounded ==> depth + ItemsHeight(l) <= MAX_NESTING_DEPTH && ItemsTokensFit(l))
    && CountersFit(c, k, ItemsNodes(l), ItemsChildren(l))
  }

  predicate MembersFit(c: Config, l: Members, k: Counts, depth: nat) {
    && (c.bounded ==> depth + MembersHeight(l) <= MAX_NESTING_DEPTH && MembersTokensFit(l))
    && CountersFit(c, k, MembersNodes(l), MembersChildren(l))
  }

  function Moved(c: Config, k: Counts, nodes: nat, items: nat): Counts {
    if c.maxNodes.Some? then Counts(k.nodes + nodes, k.items + items) else k
  }

  /** What the parser must return for `t`. */
  function Expected(c: Config, t: Syntax, k: Counts, depth: nat, rest: string): Option<(Json, Position)> {
    if Meaning(c.tokens, t).Some? && Fits(c, t, k, depth)
    then Some((Meaning(c.tokens, t).value, Position(rest, Moved(c, k, Nodes(t), Children(t)))))
    else None
  }

  function ExpectedItems(c: Config, l: Items, k: Counts, depth: nat, rest: string, values: seq<Json>):
    Option<(Json, Position)>
  {
    if ItemsMeaning(c.tokens, l).Some? && ItemsFit(c, l, k, depth)
    then Some((Array(values + ItemsMeaning(c.tokens, l).value), Position(rest, Moved(c, k, ItemsNodes(l), ItemsChildren(l)))))
    else None
  }

  function ExpectedMembers(c: Config, l: Members, k: Counts, depth: nat, rest: string, entries: seq<(string, Json)>,
                           seen: set<string>): Option<(Json, Position)>
  {
    var es := MembersMeaning(c.tokens, l);
    if es.Some? && FreshKeys(es.value, seen) && MembersFit(c, l, k, depth)
    then Some((Object(entries + es.value), Position(rest, Moved(c, k, MembersNodes(l), MembersChildren(l)))))
    else None
  }

  // -------------------------------------- the expected results, step by step

  /** The counters once the first element and all it holds are claimed. */
  function AfterFirst(c: Config, value: Syntax, k: Counts): Counts {
    Moved(c, k, Nodes(value), 1 + Children(value))
  }

  lemma ItemsFitSplits(c: Config, l: Items, k: Counts, depth: nat)
    ensures ItemsFit(c, l, k, depth) <==>
            && ClaimItem(c, k).Some? && Fits(c, l.value, ClaimItem(c, k).value, depth)
            && (l.MoreItems? ==> ItemsFit(c, l.rest, AfterFirst(c, l.value, k), depth))
    ensures Moved(c, k, ItemsNodes(l), ItemsChildren(l)) ==
            if l.MoreItems? then Moved(c, AfterFirst(c, l.value, k), ItemsNodes(l.rest), ItemsChildren(l.rest))
            else AfterFirst(c, l.value, k)
  {
    hide Nodes, Children, Height, TokensFit, MAX_NESTING_DEPTH;
  }

  lemma ItemsJoin(values: seq<Json>, v: Json, rest: Option<seq<Json>>)
    ensures rest.Some? ==> values + [v] + rest.value == values + ([v] + rest.value)
  {
  }

  /** `ExpectedItems` follows the array loop. */
  lemma ItemsStep(c: Config, l: Items, k: Counts, depth: nat, rest: string, values: seq<Json>, after: string)
    ensures ExpectedItems(c, l, k, depth, rest, values) ==
            if ClaimItem(c, k).None? then None
            else
              match Expected(c, l.value, ClaimItem(c, k).value, depth, after)
              case None => None
              case Some((v, q)) =>
                if l.MoreItems? then ExpectedItems(c, l.rest, q.counts, depth, rest, values + [v])
                else Some((Array(values + [v]), Position(rest, q.counts)))
  {
    ItemsFitSplits(c, l, k, depth);
    if Meaning(c.tokens, l.value).Some? && l.MoreItems? {
      ItemsJoin(values, Meaning(c.tokens, l.value).value, ItemsMeaning(c.tokens, l.rest));
    }
    hide ItemsFit, Fits, Meaning, Nodes, Children, ItemsNodes, ItemsChildren;
  }

  lemma MembersFitSplits(c: Config, l: Members, k: Counts, depth: nat)
    ensures MembersFit(c, l, k, depth) <==>
            && ClaimItem(c, k).Some? && Fits(c, l.value, ClaimItem(c, k).value, depth)
            && (c.bounded ==> |l.key| <= MAX_STRING_BYTES)
            && (l.MoreMembers? ==> MembersFit(c, l.rest, AfterFirst(c, l.value, k), depth))
    ensures Moved(c, k, MembersNodes(l), MembersChildren(l)) ==
            if l.MoreMembers? then Moved(c, AfterFirst(c, l.value, k), MembersNodes(l.rest), MembersChildren(l.rest))
            else AfterFirst(c, l.value, k)
  {
    hide Nodes, Children, Height, TokensFit, MAX_NESTING_DEPTH;
  }

  /** The decoded member name, if it is short enough, decodes, and is new. */
  function AcceptedKey(c: Config, raw: string, seen: set<string>): Option<string> {
    if c.bounded && |raw| > MAX_STRING_BYTES then None
    else
      match c.tokens.decode(raw)
      case None => None
      case Some(key) => if key in seen then None else Some(key)
  }

  /** `ExpectedMembers` follows the object loop. */
  lemma MembersStep(c: Config, l: Members, k: Counts, depth: nat, rest: string, entries: seq<(string, Json)>,
                    seen: set<string>, after: string)
    ensures ExpectedMembers(c, l, k, depth, rest, entries, seen) ==
            if ClaimItem(c, k).None? then None
            else
              match AcceptedKey(c, l.key, seen)
              case None => None
              case Some(key) =>
                match Expected(c, l.value, ClaimItem(c, k).value, depth, after)
                case None => None
                case Some((v, q)) =>
                  if l.MoreMembers?
                  then ExpectedMembers(c, l.rest, q.counts, depth, rest, entries + [(key, v)], seen + {key})
                  else Some((Object(entries + [(key, v)]), Position(rest, q.counts)))
  {
    MembersFitSplits(c, l, k, depth);
    var key, v := c.tokens.decode(l.key), Meaning(c.tokens, l.value);
    if key.Some? && v.Some? {
      var e := (key.value, v.value);
      if l.LastMember? {
        EntriesJoin(entries, e, [], seen);
        assert [e] + [] == [e] && FreshKeys([], seen + {e.0});
      } else if MembersMeaning(c.tokens, l.rest).Some? {
        EntriesJoin(entries, e, MembersMeaning(c.tokens, l.rest).value, seen);
      }
    }
    hide MembersFit, Fits, Meaning, Nodes, Children, MembersNodes, MembersChildren, FreshKeys;
  }

  // ------------------------------------------------------------------- text

  /** First character of a value; none is blank or closes a bracket. */
  lemma ValueStarts(t: Syntax)
    requires WellFormed(t)
    ensures TextOf(t) != ""
    ensures var c := TextOf(t)[0];
            match t
            case SNull => c == 'n'
            case STrue => c == 't'
            case SFalse => c == 'f'
            case SNumber(_) => c == '-' || IsDigit(c)
            case SString(_) => c == '"'
            case SEmptyArray(_) => c == '['
            case SArray(_) => c == '['
            case SEmptyObject(_) => c == '{'
            case SObject(_) => c == '{'
  {
    if t.SNumber? {
      assert t.parts.integer[0] in t.parts.integer;
      assert Unsigned(t.parts)[0] == t.parts.integer[0];
      assert t.parts.negative ==> NumberText(t.parts)[0] == '-';
    }
  }

  /** Text of the items after the first value, up to and including the bracket. */
  function ItemsTail(l: Items, rest: string): string {
    (if l.MoreItems? then "," + (ItemsText(l.rest) + "]" + rest) else "]" + rest)
  }

  lemma Regroup(a: string, b: string, c: string, d: string, e: string, f: string)
    ensures a + b + c + d + e + f == a + (b + (c + (d + (e + f))))
  {
    Assoc(a + b + c + d, e, f);
    Assoc(a + b + c, d, e + f);
    Assoc(a + b, c, d + (e + f));
    Assoc(a, b, c + (d + (e + f)));
  }

  lemma BlankFollows(after: string, tail: string)
    requires Blank(after) && tail != "" && (tail[0] == ',' || tail[0] == ']' || tail[0] == '}')
    ensures SkipBlanks(after + tail) == tail && Follow(after + tail)
  {
    BlanksSkipped(after, tail);
    assert after == "" ==> after + tail == tail;
    assert after != "" ==> after[0] in after && (after + tail)[0] == after[0];
  }

  lemma ItemsTextSplits(l: Items, rest: string)
    requires WellFormedItems(l)
    ensures SkipBlanks(ItemsText(l) + "]" + rest) == TextOf(l.value) + (l.after + ItemsTail(l, rest))
    ensures SkipBlanks(l.after + ItemsTail(l, rest)) == ItemsTail(l, rest)
    ensures Follow(l.after + ItemsTail(l, rest))
    ensures ItemsTail(l, rest)[1..] == if l.MoreItems? then ItemsText(l.rest) + "]" + rest else rest
    ensures WellFormed(l.value) && (l.MoreItems? ==> WellFormedItems(l.rest))
    ensures !StartsWith(SkipBlanks(ItemsText(l) + "]" + rest), ']')
    ensures ItemsTail(l, rest) != "" && ItemsTail(l, rest)[0] == (if l.MoreItems? then ',' else ']')
    ensures SkipBlanks(SkipBlanks(ItemsText(l) + "]" + rest)) == SkipBlanks(ItemsText(l) + "]" + rest)
  {
    var value := TextOf(l.value);
    var more := if l.MoreItems? then "," + ItemsText(l.rest) else "";
    Regroup(l.before, value, l.after, more, "]", rest);
    if l.MoreItems? {
      Assoc(",", ItemsText(l.rest), "]" + rest);
      Assoc(ItemsText(l.rest), "]", rest);
    }
    assert more + ("]" + rest) == ItemsTail(l, rest);
    ValueStarts(l.value);
    BlanksSkipped(l.before, value + (l.after + ItemsTail(l, rest)));
    BlankFollows(l.after, ItemsTail(l, rest));
  }

  function MembersTail(l: Members, rest: string): string {
    (if l.MoreMembers? then "," + (MembersText(l.rest) + "}" + rest) else "}" + rest)
  }

  /** The text of the first member from its colon on. */
  function FromColon(l: Members, rest: string): string {
    ":" + (l.gap2 + (TextOf(l.value) + (l.after + MembersTail(l, rest))))
  }

  lemma MembersTextSplits(l: Members, rest: string)
    requires WellFormedMembers(l)
    ensures SkipBlanks(MembersText(l) + "}" + rest) == l.key + (l.gap + FromColon(l, rest))
    ensures SkipBlanks(l.gap + FromColon(l, rest)) == FromColon(l, rest)
    ensures SkipBlanks(FromColon(l, rest)[1..]) == TextOf(l.value) + (l.after + MembersTail(l, rest))
    ensures SkipBlanks(l.after + MembersTail(l, rest)) == MembersTail(l, rest)
    ensures Follow(l.after + MembersTail(l, rest))
    ensures MembersTail(l, rest)[1..] == if l.MoreMembers? then MembersText(l.rest) + "}" + rest else rest
    ensures WellFormed(l.value) && StringToken(l.key) && (l.MoreMembers? ==> WellFormedMembers(l.rest))
    ensures StartsWith(SkipBlanks(MembersText(l) + "}" + rest), '"')
    ensures FromColon(l, rest) != "" && FromColon(l, rest)[0] == ':'
    ensures MembersTail(l, rest) != "" && MembersTail(l, rest)[0] == (if l.MoreMembers? then ',' else '}')
  {
    var value := TextOf(l.value);
    var more := if l.MoreMembers? then "," + MembersText(l.rest) else "";
    var head := l.before + l.key + l.gap + ":";
    Regroup(head, l.gap2, value, l.after, more, "}" + rest);
    Assoc(MembersText(l), "}", rest);
    assert head + l.gap2 + value + l.after + more == MembersText(l);
    if l.MoreMembers? {
      Assoc(",", MembersText(l.rest), "}" + rest);
      Assoc(MembersText(l.rest), "}", rest);
    }
    assert more + ("}" + rest) == MembersTail(l, rest);
    var tail := l.gap2 + (value + (l.after + MembersTail(l, rest)));
    Assoc(l.before + l.key + l.gap, ":", tail);
    Assoc(l.before + l.key, l.gap, ":" + tail);
    Assoc(l.before, l.key, l.gap + (":" + tail));
    ValueStarts(l.value);
    BlanksSkipped(l.before, l.key + (l.gap + FromColon(l, rest)));
    BlanksSkipped(l.gap, FromColon(l, rest));
    assert FromColon(l, rest)[1..] == tail;
    BlanksSkipped(l.gap2, value + (l.after + MembersTail(l, rest)));
    BlankFollows(l.after, MembersTail(l, rest));
  }

  // ---------------------------------------------------------------- the proof

  lemma NumberParsed(c: Config, n: NumberParts, rest: string)
    requires ValidNumber(n) && Follow(rest)
    ensures ParseNumber(c, NumberText(n) + rest) ==
            if c.bounded && |NumberText(n)| > MAX_NUMBER_BYTES then None
            else match c.tokens.convert(NumberText(n)) case None => None case Some(v) => Some((Number(v), rest))
  {
    NumberScanned(n, rest);
    var text := NumberText(n) + rest;
    assert text[..|text| - |rest|] == NumberText(n);
  }

  lemma LiteralParsed(literal: string, rest: string, value: Json)
    requires literal != ""
    ensures ParseLiteral(literal + rest, literal, value) == Some((value, rest))
  {
  }

  lemma EmptyParsed(c: Config, open: char, blank: string, close: char, rest: string)
    requires Blank(blank) && (close == ']' || close == '}')
    ensures SkipBlanks(([open] + blank + [close] + rest)[1..]) == [close] + rest
  {
    assert ([open] + blank + [close] + rest)[1..] == blank + ([close] + rest);
    BlanksSkipped(blank, [close] + rest);
  }

  /** A value without elements. */
  lemma LeafParsed(c: Config, t: Syntax, p: Position, rest: string, depth: nat)
    requires WellFormed(t) && Follow(rest) && !t.SArray? && !t.SObject?
    requires p.rest == TextOf(t) + rest
    ensures ParseToken(c, p, depth) ==
            if Meaning(c.tokens, t).Some? && (c.bounded ==> TokensFit(t))
            then Some((Meaning(c.tokens, t).value, p.(rest := rest)))
            else None
  {
    ValueStarts(t);
    match t
    case SNull => LiteralParsed("null", rest, Null);
    case STrue => LiteralParsed("true", rest, Bool(true));
    case SFalse => LiteralParsed("false", rest, Bool(false));
    case SNumber(parts) => NumberParsed(c, parts, rest);
    case SString(raw) => TokenParsed(c, raw, rest);
    case SEmptyArray(blank) => EmptyParsed(c, '[', blank, ']', rest);
    case SEmptyObject(blank) => EmptyParsed(c, '{', blank, '}', rest);
  }

  lemma EmptyPrefix<T>(s: Option<seq<T>>)
    ensures s.Some? ==> [] + s.value == s.value
  {
  }

  lemma {:induction false} ValueParsed(c: Config, t: Syntax, p: Position, rest: string, depth: nat)
    requires WellFormed(t) && Follow(rest)
    requires SkipBlanks(p.rest) == TextOf(t) + rest
    ensures ParseValue(c, p, depth) == Expected(c, t, p.counts, depth, rest)
    decreases t, 1
  {
    var claimed := ClaimNode(c, p.counts, depth);
    if claimed.Some? {
      var q := Position(SkipBlanks(p.rest), claimed.value);
      TokenOfTree(c, t, q, rest, depth);
      ExpectedStep(c, t, p.counts, depth, rest);
    }
    hide ParseToken, TextOf, WellFormed, SkipBlanks, Meaning, Nodes, Children, Height, TokensFit;
  }

  /** What is expected of a tree whose own node is claimed. */
  function ExpectedToken(c: Config, t: Syntax, k: Counts, depth: nat, rest: string): Option<(Json, Position)> {
    match t
    case SArray(items) => ExpectedItems(c, items, k, depth + 1, rest, [])
    case SObject(members) => ExpectedMembers(c, members, k, depth + 1, rest, [], {})
    case _ =>
      if Meaning(c.tokens, t).Some? && (c.bounded ==> TokensFit(t))
      then Some((Meaning(c.tokens, t).value, Position(rest, k)))
      else None
  }

  lemma ExpectedStep(c: Config, t: Syntax, k: Counts, depth: nat, rest: string)
    ensures Expected(c, t, k, depth, rest) ==
            if ClaimNode(c, k, depth).None? then None
            else ExpectedToken(c, t, ClaimNode(c, k, depth).value, depth, rest)
  {
    hide FreshKeys, DistinctKeys, ItemsMeaning, MembersMeaning, ItemsNodes, MembersNodes, ItemsHeight, MembersHeight,
      ItemsTokensFit, MembersTokensFit, ItemsChildren, MembersChildren;
    match t
    case SArray(items) =>
      EmptyPrefix(ItemsMeaning(c.tokens, items));
    case SObject(members) =>
      EmptyPrefix(MembersMeaning(c.tokens, members));
      if MembersMeaning(c.tokens, members).Some? { NoSeenKeys(MembersMeaning(c.tokens, members).value); }
    case _ =>
  }

  lemma {:induction false} TokenOfTree(c: Config, t: Syntax, p: Position, rest: string, depth: nat)
    requires WellFormed(t) && Follow(rest)
    requires p.rest == TextOf(t) + rest
    ensures ParseToken(c, p, depth) == ExpectedToken(c, t, p.counts, depth, rest)
    decreases t, 0
  {
    ValueStarts(t);
    hide ParseArray, ParseObject, SkipBlanks, ParseString, ParseNumber, ParseLiteral, ExpectedItems, ExpectedMembers,
      Meaning, TokensFit;
    match t
    case SArray(items) =>
      Assoc("[", ItemsText(items) + "]", rest);
      ArrayParsed(c, items, p, rest, depth + 1);
    case SObject(members) =>
      Assoc("{", MembersText(members) + "}", rest);
      ObjectParsed(c, members, p, rest, depth + 1);
    case _ => LeafParsed(c, t, p, rest, depth);
  }

  lemma {:induction false} ArrayParsed(c: Config, l: Items, p: Position, rest: string, depth: nat)
    requires WellFormedItems(l)
    requires StartsWith(p.rest, '[') && p.rest[1..] == ItemsText(l) + "]" + rest
    ensures ParseArray(c, p, depth) == ExpectedItems(c, l, p.counts, depth, rest, [])
    decreases l, 1
  {
    hide ParseItems, ItemsText, SkipBlanks, ExpectedItems, WellFormedItems, TextOf, ItemsTail;
    ItemsTextSplits(l, rest);
    ItemsParsed(c, l, p.(rest := SkipBlanks(p.rest[1..])), rest, depth, []);
  }

  lemma {:induction false} ObjectParsed(c: Config, l: Members, p: Position, rest: string, depth: nat)
    requires WellFormedMembers(l)
    requires StartsWith(p.rest, '{') && p.rest[1..] == MembersText(l) + "}" + rest
    ensures ParseObject(c, p, depth) == ExpectedMembers(c, l, p.counts, depth, rest, [], {})
    decreases l, 1
  {
    hide ParseMembers, MembersText, SkipBlanks, ExpectedMembers, WellFormedMembers, FromColon, TextOf, MembersTail;
    MembersTextSplits(l, rest);
    MembersParsed(c, l, p.(rest := SkipBlanks(p.rest[1..])), rest, depth, [], {});
  }

  /** The array loop, started at the first value of `l`. */
  lemma {:induction false} ItemsParsed(c: Config, l: Items, p: Position, rest: string, depth: nat, values: seq<Json>)
    requires WellFormedItems(l)
    requires p.rest == SkipBlanks(ItemsText(l) + "]" + rest)
    ensures ParseItems(c, p, depth, values) == ExpectedItems(c, l, p.counts, depth, rest, values)
    decreases l, 0
  {
    hide ParseValue, ItemsText, TextOf, SkipBlanks, ItemsTail, WellFormedItems, WellFormed, ExpectedItems, Expected, Follow;
    ItemsTextSplits(l, rest);
    var after := l.after + ItemsTail(l, rest);
    ItemsStep(c, l, p.counts, depth, rest, values, after);
    var claimed := ClaimItem(c, p.counts);
    if claimed.Some? {
      ValueParsed(c, l.value, p.(counts := claimed.value), after, depth);
      var parsed := Expected(c, l.value, claimed.value, depth, after);
      if parsed.Some? {
        var (v, q) := parsed.value;
        ExpectedRest(c, l.value, claimed.value, depth, after);
        if l.MoreItems? {
          ItemsParsed(c, l.rest, q.(rest := SkipBlanks(ItemsTail(l, rest)[1..])), rest, depth, values + [v]);
        }
      }
    }
  }

  lemma ExpectedRest(c: Config, t: Syntax, k: Counts, depth: nat, rest: string)
    ensures var r := Expected(c, t, k, depth, rest); r.Some? ==> r.value.1.rest == rest
  {
  }

  lemma KeyParsed(c: Config, l: Members, rest: string, seen: set<string>)
    requires WellFormedMembers(l)
    ensures ParseKey(c, l.key + (l.gap + FromColon(l, rest)), seen) ==
            match AcceptedKey(c, l.key, seen)
            case None => None
            case Some(key) => Some((key, FromColon(l, rest)[1..]))
  {
    hide SkipBlanks, TextOf, MembersTail, ParseString;
    MembersTextSplits(l, rest);
    TokenParsed(c, l.key, l.gap + FromColon(l, rest));
  }

  /** The object loop, started at the first member of `l`. */
  lemma {:induction false} MembersParsed(c: Config, l: Members, p: Position, rest: string, depth: nat,
                                         entries: seq<(string, Json)>, seen: set<string>)
    requires WellFormedMembers(l)
    requires p.rest == SkipBlanks(MembersText(l) + "}" + rest)
    ensures ParseMembers(c, p, depth, entries, seen) == ExpectedMembers(c, l, p.counts, depth, rest, entries, seen)
    decreases l, 0
  {
    hide ParseValue, ParseKey, MembersText, TextOf, SkipBlanks, MembersTail, WellFormedMembers, WellFormed, ExpectedMembers,
      Expected, Follow, FromColon, AcceptedKey;
    MembersTextSplits(l, rest);
    KeyParsed(c, l, rest, seen);
    var after := l.after + MembersTail(l, rest);
    MembersStep(c, l, p.counts, depth, rest, entries, seen, after);
    var claimed, key := ClaimItem(c, p.counts), AcceptedKey(c, l.key, seen);
    if claimed.Some? && key.Some? {
      ValueParsed(c, l.value, Position(FromColon(l, rest)[1..], claimed.value), after, depth);
      var parsed := Expected(c, l.value, claimed.value, depth, after);
      if parsed.Some? {
        var (v, q) := parsed.value;
        ExpectedRest(c, l.value, claimed.value, depth, after);
        if l.MoreMembers? {
          MembersParsed(c, l.rest, q.(rest := SkipBlanks(MembersTail(l, rest)[1..])), rest, depth,
                        entries + [(key.value, v)], seen + {key.value});
        }
      }
    }
  }
}
