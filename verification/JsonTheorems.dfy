/** The parser accepts exactly the JSON grammar, and its limits only cut off what the grammar allows. */
module JsonTheorems {
  import opened Common
  import opened JsonValue
  import opened JsonGrammar
  import opened JsonParser
  import opened JsonLexing
  import opened JsonCompleteness
  import opened JsonSoundness

  /** JSON-text = ws value ws (section 2 of RFC 8259). */
  datatype Document = Document(before: string, value: Syntax, after: string)

  predicate Derives(d: Document, text: string) {
    Blank(d.before) && WellFormed(d.value) && Blank(d.after) && text == d.before + TextOf(d.value) + d.after
  }

  /** The limits, stated on the syntax tree. */
  predicate Within(maxBytes: Option<nat>, maxNodes: Option<nat>, text: string, t: Syntax) {
    && (maxBytes.Some? ==> |text| <= maxBytes.value && Height(t) <= 128 && TokensFit(t))
    && (maxNodes.Some? ==> Nodes(t) <= maxNodes.value)
  }

  /** On any derivable text the result is the meaning of the tree, if the tree is within the limits. */
  lemma DocumentParsed(tokens: Tokens, maxBytes: Option<nat>, maxNodes: Option<nat>, d: Document, text: string)
    requires Derives(d, text)
    ensures ParseDocument(tokens, maxBytes, maxNodes, text) ==
            if Within(maxBytes, maxNodes, text, d.value) then Meaning(tokens, d.value) else None
  {
    var c, p := Config(tokens, maxBytes.Some?, maxNodes), Position(SkipBlanks(text), Counts(0, 0));
    Assoc(d.before, TextOf(d.value), d.after);
    ValueStarts(d.value);
    BlanksSkipped(d.before, TextOf(d.value) + d.after);
    SkipTwice(text);
    assert d.after != "" ==> d.after[0] in d.after;
    ValueParsed(c, d.value, p, d.after, 0);
    BlanksSkipped(d.after, "");
    assert d.after + "" == d.after;
    NodesAndChildren(d.value);
    hide ParseValue, SkipBlanks, TextOf, Meaning, Nodes, Children, Height, TokensFit, WellFormed;
  }

  lemma DocumentFound(tokens: Tokens, maxBytes: Option<nat>, maxNodes: Option<nat>, text: string) returns (d: Document)
    requires ParseDocument(tokens, maxBytes, maxNodes, text).Some?
    ensures Derives(d, text)
  {
    hide ParseValue, SkipBlanks, TextOf, WellFormed;
    var c, p := Config(tokens, maxBytes.Some?, maxNodes), Position(SkipBlanks(text), Counts(0, 0));
    var before := BlanksFound(text);
    SkipTwice(text);
    var t := ValueFound(c, p, 0);
    var rest := ParseValue(c, p, 0).value.1.rest;
    var after := BlanksFound(rest);
    assert rest == after;
    Assoc(before, TextOf(t), after);
    d := Document(before, t, after);
  }

  /** Soundness and completeness, for every choice of limits. */
  lemma AcceptedIffDerived(tokens: Tokens, maxBytes: Option<nat>, maxNodes: Option<nat>, text: string, v: Json)
    ensures ParseDocument(tokens, maxBytes, maxNodes, text) == Some(v) <==>
            exists d :: Derives(d, text) && Meaning(tokens, d.value) == Some(v) && Within(maxBytes, maxNodes, text, d.value)
  {
    hide ParseDocument, Derives, Meaning, Within;
    if ParseDocument(tokens, maxBytes, maxNodes, text) == Some(v) {
      var d := DocumentFound(tokens, maxBytes, maxNodes, text);
      DocumentParsed(tokens, maxBytes, maxNodes, d, text);
    }
    forall d | Derives(d, text) && Meaning(tokens, d.value) == Some(v) && Within(maxBytes, maxNodes, text, d.value)
      ensures ParseDocument(tokens, maxBytes, maxNodes, text) == Some(v)
    {
      DocumentParsed(tokens, maxBytes, maxNodes, d, text);
    }
  }

  /** Two derivations of one text mean the same. */
  lemma GrammarUnambiguous(tokens: Tokens, a: Document, b: Document, text: string)
    requires Derives(a, text) && Derives(b, text)
    ensures Meaning(tokens, a.value) == Meaning(tokens, b.value)
  {
    hide ParseDocument, Derives, Meaning;
    DocumentParsed(tokens, None, None, a, text);
    DocumentParsed(tokens, None, None, b, text);
  }

  // ----------------------------------------------- bounded against unbounded

  lemma {:induction false} MeaningShape(tokens: Tokens, t: Syntax)
    requires Meaning(tokens, t).Some?
    ensures var v := Meaning(tokens, t).value; NodesOf(v) == Nodes(t) && DepthOf(v) == Height(t) && UniqueKeys(v)
  {
    match t
    case SArray(items) => ItemsShape(tokens, items);
    case SObject(members) => MembersShape(tokens, members);
    case _ =>
  }

  lemma {:induction false} ItemsShape(tokens: Tokens, l: Items)
    requires ItemsMeaning(tokens, l).Some?
    ensures var vs := ItemsMeaning(tokens, l).value;
            && NodesOfItems(vs) == ItemsNodes(l) && DepthOfItems(vs) == 1 + ItemsHeight(l)
            && forall v <- vs :: UniqueKeys(v)
  {
    MeaningShape(tokens, l.value);
    var vs := ItemsMeaning(tokens, l).value;
    if l.MoreItems? {
      ItemsShape(tokens, l.rest);
      assert vs[1..] == ItemsMeaning(tokens, l.rest).value;
    } else {
      assert vs[1..] == [];
    }
    hide UniqueKeys, Nodes, Height, NodesOf, DepthOf, Meaning;
  }

  lemma {:induction false} MembersShape(tokens: Tokens, l: Members)
    requires MembersMeaning(tokens, l).Some?
    ensures var es := MembersMeaning(tokens, l).value;
            && NodesOfEntries(es) == MembersNodes(l) && DepthOfEntries(es) == 1 + MembersHeight(l)
            && forall e <- es :: UniqueKeys(e.1)
  {
    MeaningShape(tokens, l.value);
    var es := MembersMeaning(tokens, l).value;
    if l.MoreMembers? {
      MembersShape(tokens, l.rest);
      assert es[1..] == MembersMeaning(tokens, l.rest).value;
    } else {
      assert es[1..] == [];
    }
    hide UniqueKeys, Nodes, Height, NodesOf, DepthOf, Meaning;
  }

  /** The raw string and number tokens of the text are all within the token limits. */
  ghost predicate ShortTokens(text: string) {
    exists d :: Derives(d, text) && TokensFit(d.value)
  }

  /** The bounded parser is the unbounded one, cut off by its limits; every one of them can be read off the result. */
  lemma BoundedCutsUnbounded(tokens: Tokens, maxBytes: nat, maxNodes: Option<nat>, text: string, v: Json)
    ensures ParseDocument(tokens, Some(maxBytes), maxNodes, text) == Some(v) <==>
            && ParseDocument(tokens, None, None, text) == Some(v)
            && |text| <= maxBytes && DepthOf(v) <= 128 && ShortTokens(text)
            && (maxNodes.Some? ==> NodesOf(v) <= maxNodes.value)
    ensures ParseDocument(tokens, Some(maxBytes), maxNodes, text) == Some(v) ==> UniqueKeys(v)
  {
    hide ParseDocument, Derives, Meaning, TokensFit, Nodes, Height, NodesOf, DepthOf, UniqueKeys;
    AcceptedIffDerived(tokens, Some(maxBytes), maxNodes, text, v);
    AcceptedIffDerived(tokens, None, None, text, v);
    forall d | Derives(d, text) && Meaning(tokens, d.value) == Some(v)
      ensures NodesOf(v) == Nodes(d.value) && DepthOf(v) == Height(d.value) && UniqueKeys(v)
    {
      MeaningShape(tokens, d.value);
    }
    if ParseDocument(tokens, None, None, text) == Some(v) && ShortTokens(text) {
      var d :| Derives(d, text) && TokensFit(d.value);
      DocumentParsed(tokens, None, None, d, text);
    }
  }

  /** When counting is on, an accepted text ends with one more node than items, so the item limit never decides. */
  lemma NodesExceedItems(tokens: Tokens, maxBytes: Option<nat>, maxNodes: nat, text: string)
    requires ParseDocument(tokens, maxBytes, Some(maxNodes), text).Some?
    ensures var end := ParseValue(Config(tokens, maxBytes.Some?, Some(maxNodes)), Position(SkipBlanks(text), Counts(0, 0)), 0);
            end.value.1.counts.nodes == end.value.1.counts.items + 1 <= maxNodes
  {
    var c, p := Config(tokens, maxBytes.Some?, Some(maxNodes)), Position(SkipBlanks(text), Counts(0, 0));
    var d := DocumentFound(tokens, maxBytes, Some(maxNodes), text);
    Assoc(d.before, TextOf(d.value), d.after);
    ValueStarts(d.value);
    BlanksSkipped(d.before, TextOf(d.value) + d.after);
    SkipTwice(text);
    assert d.after != "" ==> d.after[0] in d.after;
    ValueParsed(c, d.value, p, d.after, 0);
    NodesAndChildren(d.value);
    hide ParseValue, SkipBlanks, TextOf, Meaning, Nodes, Children, Height, TokensFit, WellFormed;
  }
}
