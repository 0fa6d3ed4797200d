/** What each form of call is captured as, element by element. */
module SerializerForms {
  import opened Common
  import opened JsonValue
  import opened Lexeme
  import opened Serializer
  import opened SerializerProofs
  import opened SerializerCompleteness
  import opened SerializerRoundTrip

  /** The value itself, or the one entry of an object under the name of a variant. */
  ghost predicate Tagged(variant: Option<string>, v: Json, result: Json) {
    match variant
    case None => result == v
    case Some(tag) => result.Object? && result.entries == [(tag, v)]
  }

  /** Element by element: the values are those of the elements, in order. */
  ghost predicate ValuesOf(convert: TypedNumber -> Option<CapturedNumber>, elements: seq<Caller>, vs: seq<Json>) {
    |vs| == |elements| && forall i :: 0 <= i < |vs| ==> Meaning(convert, elements[i]) == Some(vs[i])
  }

  ghost predicate EntriesOf(convert: TypedNumber -> Option<CapturedNumber>, fields: seq<Field>, es: seq<(string, Json)>) {
    |es| == |fields| &&
    forall i :: 0 <= i < |es| ==> es[i].0 == fields[i].name && Meaning(convert, fields[i].value) == Some(es[i].1)
  }

  /** The innermost text of a key. */
  predicate KeyIs(k: KeyCaller, name: string)
  {
    match k
    case KeyText(s) => s == name
    case KeyWrapped(inner) => KeyIs(inner, name)
    case KeyRefused => false
  }

  /** Keys and values alternate, and entry `i` is the `i`-th key with the `i`-th value. */
  ghost predicate PairsOf(convert: TypedNumber -> Option<CapturedNumber>, calls: seq<MapCall>, es: seq<(string, Json)>) {
    |calls| == 2 * |es| &&
    forall i :: 0 <= i < |es| ==>
      && calls[2 * i].MapKey? && KeyIs(calls[2 * i].key, es[i].0)
      && calls[2 * i + 1].MapValue? && Meaning(convert, calls[2 * i + 1].value) == Some(es[i].1)
  }

  lemma {:induction false} ItemsByIndex(convert: TypedNumber -> Option<CapturedNumber>, elements: seq<Caller>, vs: seq<Json>)
    ensures ItemsMeaning(convert, elements) == Some(vs) <==> ValuesOf(convert, elements, vs)
  {
    if elements != [] {
      hide Meaning;
      if vs != [] {
        assert [vs[0]] + vs[1..] == vs;
        ItemsByIndex(convert, elements[1..], vs[1..]);
        assert ValuesOf(convert, elements, vs) <==>
               Meaning(convert, elements[0]) == Some(vs[0]) && ValuesOf(convert, elements[1..], vs[1..])
          by { ValuesStep(convert, elements, vs); }
      }
    }
  }

  lemma ValuesStep(convert: TypedNumber -> Option<CapturedNumber>, elements: seq<Caller>, vs: seq<Json>)
    requires elements != [] && vs != []
    ensures ValuesOf(convert, elements, vs) <==>
            Meaning(convert, elements[0]) == Some(vs[0]) && ValuesOf(convert, elements[1..], vs[1..])
  {
    hide Meaning;
    if Meaning(convert, elements[0]) == Some(vs[0]) && ValuesOf(convert, elements[1..], vs[1..]) {
      forall i | 0 <= i < |vs|
        ensures Meaning(convert, elements[i]) == Some(vs[i])
      {
        if i > 0 { assert elements[1..][i - 1] == elements[i] && vs[1..][i - 1] == vs[i]; }
      }
    }
  }

  lemma {:induction false} FieldsByIndex(convert: TypedNumber -> Option<CapturedNumber>, fields: seq<Field>,
                                         es: seq<(string, Json)>)
    ensures FieldsMeaning(convert, fields) == Some(es) <==> EntriesOf(convert, fields, es)
  {
    if fields != [] && es != [] {
      hide Meaning;
      assert [es[0]] + es[1..] == es && (es[0].0, es[0].1) == es[0];
      FieldsByIndex(convert, fields[1..], es[1..]);
      EntriesStep(convert, fields, es);
    }
  }

  lemma EntriesStep(convert: TypedNumber -> Option<CapturedNumber>, fields: seq<Field>, es: seq<(string, Json)>)
    requires fields != [] && es != []
    ensures EntriesOf(convert, fields, es) <==>
            && es[0].0 == fields[0].name && Meaning(convert, fields[0].value) == Some(es[0].1)
            && EntriesOf(convert, fields[1..], es[1..])
  {
    hide Meaning;
    if es[0].0 == fields[0].name && Meaning(convert, fields[0].value) == Some(es[0].1)
       && EntriesOf(convert, fields[1..], es[1..]) {
      forall i | 0 <= i < |es|
        ensures es[i].0 == fields[i].name && Meaning(convert, fields[i].value) == Some(es[i].1)
      {
        if i > 0 { assert fields[1..][i - 1] == fields[i] && es[1..][i - 1] == es[i]; }
      }
    }
  }

  lemma {:induction false} KeyByText(k: KeyCaller, name: string)
    ensures KeyMeaning(k) == Some(name) <==> KeyIs(k, name)
  {
    if k.KeyWrapped? { KeyByText(k.inner, name); }
  }

  lemma {:induction false} PairsByIndex(convert: TypedNumber -> Option<CapturedNumber>, calls: seq<MapCall>,
                                        es: seq<(string, Json)>)
    ensures EntriesMeaning(convert, calls, None) == Some(es) <==> PairsOf(convert, calls, es)
    decreases |calls|
  {
    if es != [] && PairsOf(convert, calls, es) { FirstPair(convert, calls, es); }
    if |calls| >= 2 && es != [] && calls[0].MapKey? && calls[1].MapValue? {
      hide Meaning;
      var rest := calls[2..];
      assert calls[1..][0] == calls[1] && calls[1..][1..] == rest;
      assert [es[0]] + es[1..] == es && (es[0].0, es[0].1) == es[0];
      KeyByText(calls[0].key, es[0].0);
      PairsByIndex(convert, rest, es[1..]);
      PairsStep(convert, calls, es);
    } else {
      NoPairs(convert, calls, es);
    }
  }

  lemma FirstPair(convert: TypedNumber -> Option<CapturedNumber>, calls: seq<MapCall>, es: seq<(string, Json)>)
    requires es != [] && PairsOf(convert, calls, es)
    ensures |calls| >= 2 && calls[0].MapKey? && calls[1].MapValue?
  {
    assert calls[2 * 0].MapKey? && calls[2 * 0 + 1].MapValue?;
  }

  lemma NoPairs(convert: TypedNumber -> Option<CapturedNumber>, calls: seq<MapCall>, es: seq<(string, Json)>)
    requires !(|calls| >= 2 && es != [] && calls[0].MapKey? && calls[1].MapValue?)
    requires es != [] ==> !PairsOf(convert, calls, es)
    ensures EntriesMeaning(convert, calls, None) == Some(es) <==> PairsOf(convert, calls, es)
  {
    hide Meaning;
    if |calls| >= 2 { assert calls[1..][0] == calls[1]; }
  }

  lemma PairsStep(convert: TypedNumber -> Option<CapturedNumber>, calls: seq<MapCall>, es: seq<(string, Json)>)
    requires |calls| >= 2 && es != [] && calls[0].MapKey? && calls[1].MapValue?
    ensures PairsOf(convert, calls, es) <==>
            && KeyIs(calls[0].key, es[0].0) && Meaning(convert, calls[1].value) == Some(es[0].1)
            && PairsOf(convert, calls[2..], es[1..])
  {
    hide Meaning, KeyIs;
    if PairsOf(convert, calls, es) { PairsAfterFirst(convert, calls, es); }
    if KeyIs(calls[0].key, es[0].0) && Meaning(convert, calls[1].value) == Some(es[0].1)
       && PairsOf(convert, calls[2..], es[1..])
    {
      PairsFromFirst(convert, calls, es);
    }
    hide PairsOf;
  }

  lemma PairsAfterFirst(convert: TypedNumber -> Option<CapturedNumber>, calls: seq<MapCall>, es: seq<(string, Json)>)
    requires |calls| >= 2 && es != [] && calls[0].MapKey? && calls[1].MapValue? && PairsOf(convert, calls, es)
    ensures KeyIs(calls[0].key, es[0].0) && Meaning(convert, calls[1].value) == Some(es[0].1)
    ensures PairsOf(convert, calls[2..], es[1..])
  {
    hide Meaning, KeyIs;
    var rest, tail := calls[2..], es[1..];
    assert calls[2 * 0].MapKey?;
    forall i | 0 <= i < |tail|
      ensures rest[2 * i].MapKey? && KeyIs(rest[2 * i].key, tail[i].0)
      ensures rest[2 * i + 1].MapValue? && Meaning(convert, rest[2 * i + 1].value) == Some(tail[i].1)
    {
      assert calls[2 * (i + 1)].MapKey? && rest[2 * i] == calls[2 * (i + 1)] && rest[2 * i + 1] == calls[2 * (i + 1) + 1];
    }
  }

  lemma PairsFromFirst(convert: TypedNumber -> Option<CapturedNumber>, calls: seq<MapCall>, es: seq<(string, Json)>)
    requires |calls| >= 2 && es != [] && calls[0].MapKey? && calls[1].MapValue?
    requires KeyIs(calls[0].key, es[0].0) && Meaning(convert, calls[1].value) == Some(es[0].1)
    requires PairsOf(convert, calls[2..], es[1..])
    ensures PairsOf(convert, calls, es)
  {
    hide Meaning, KeyIs;
    var rest, tail := calls[2..], es[1..];
    forall i | 0 <= i < |es|
      ensures calls[2 * i].MapKey? && KeyIs(calls[2 * i].key, es[i].0)
      ensures calls[2 * i + 1].MapValue? && Meaning(convert, calls[2 * i + 1].value) == Some(es[i].1)
    {
      if i > 0 {
        assert rest[2 * (i - 1)].MapKey? && rest[2 * (i - 1)] == calls[2 * i] && rest[2 * (i - 1) + 1] == calls[2 * i + 1];
        assert tail[i - 1] == es[i];
      }
    }
  }

  /** What a caller describes, form by form and element by element. */
  ghost predicate Describes(convert: TypedNumber -> Option<CapturedNumber>, c: Caller, v: Json) {
    match c
    case CallNull => v == Null
    case CallBool(b) => v == Bool(b)
    case CallNumber(number) => v.Number? && convert(number) == Some(v.n)
    case CallText(s) => v == Text(s)
    case CallBytes(bytes) =>
      v.Array? && |v.items| == |bytes| && forall i :: 0 <= i < |bytes| ==> v.items[i] == Number(U64(bytes[i]))
    case CallWrapped(inner) => Meaning(convert, inner) == Some(v)
    case CallVariant(tag, inner) => exists w :: Meaning(convert, inner) == Some(w) && Tagged(Some(tag), w, v)
    case CallSequence(_, variant, elements, ended) =>
      ended && exists vs :: ValuesOf(convert, elements, vs) && Tagged(variant, Array(vs), v)
    case CallMap(_, calls, ended) => ended && v.Object? && DistinctKeys(v.entries) && PairsOf(convert, calls, v.entries)
    case CallStruct(_, variant, fields, ended) =>
      ended && exists es :: EntriesOf(convert, fields, es) && DistinctKeys(es) && Tagged(variant, Object(es), v)
    case CallNothing => false
    case CallThenFail(_) => false
  }

  lemma MeaningIff(convert: TypedNumber -> Option<CapturedNumber>, c: Caller, v: Json)
    ensures Meaning(convert, c) == Some(v) <==> Describes(convert, c, v)
  {
    match c
    case CallBytes(bytes) =>
      if Describes(convert, c, v) { assert v.items == ByteValues(bytes); }
    case CallVariant(tag, inner) =>
    case CallSequence(_, variant, elements, ended) => SequenceIff(convert, c, v);
    case CallMap(_, calls, ended) =>
      if v.Object? { PairsByIndex(convert, calls, v.entries); }
      if EntriesMeaning(convert, calls, None).Some? {
        PairsByIndex(convert, calls, EntriesMeaning(convert, calls, None).value);
      }
    case CallStruct(_, variant, fields, ended) => StructIff(convert, c, v);
    case _ =>
  }

  lemma SequenceIff(convert: TypedNumber -> Option<CapturedNumber>, c: Caller, v: Json)
    requires c.CallSequence?
    ensures Meaning(convert, c) == Some(v) <==> Describes(convert, c, v)
  {
    forall vs { ItemsByIndex(convert, c.elements, vs); }
    hide ItemsMeaning, ValuesOf;
    if Meaning(convert, c) == Some(v) {
      assert ValuesOf(convert, c.elements, ItemsMeaning(convert, c.elements).value);
    }
  }

  lemma StructIff(convert: TypedNumber -> Option<CapturedNumber>, c: Caller, v: Json)
    requires c.CallStruct?
    ensures Meaning(convert, c) == Some(v) <==> Describes(convert, c, v)
  {
    forall es { FieldsByIndex(convert, c.fields, es); }
    hide FieldsMeaning, EntriesOf, DistinctKeys;
    if Meaning(convert, c) == Some(v) {
      assert EntriesOf(convert, c.fields, FieldsMeaning(convert, c.fields).value);
    }
  }

  /** Whatever is captured is what the caller described, form by form. */
  lemma CapturedIsDescribed(l: Limits, c: Caller, v: Json)
    requires CaptureWithBudget(l, c) == Some(v)
    ensures Describes(l.convert, c, v)
  {
    hide Capture, Describes;
    CapturedTreeIsPaidFor(l, c, v);
    MeaningIff(l.convert, c, v);
  }

  // -------------------------------------------------------------- byte arrays

  /** The calls that serialize the bytes one by one. */
  function AsSequence(bytes: seq<Byte>): Caller {
    CallSequence(|bytes|, None, seq(|bytes|, i requires 0 <= i < |bytes| => CallNumber(Unsigned(bytes[i]))), true)
  }

  /**
   A byte array is what its bytes give when they are serialized one by one. It claims a byte for each of them besides, so
   it may be refused where they are not, and nothing else differs.
   */
  lemma BytesAreTheirSequence(l: Limits, bytes: seq<Byte>, v: Json)
    requires Stable(l.convert)
    ensures Meaning(l.convert, CallBytes(bytes)) == Meaning(l.convert, AsSequence(bytes))
    ensures CaptureWithBudget(l, CallBytes(bytes)) == Some(v) ==> CaptureWithBudget(l, AsSequence(bytes)) == Some(v)
    ensures l.maxBytes.None? ==>
              (CaptureWithBudget(l, CallBytes(bytes)) == Some(v) <==> CaptureWithBudget(l, AsSequence(bytes)) == Some(v))
  {
    SameMeaning(l.convert, bytes);
    NumbersCost(AsSequence(bytes).elements, 1);
    assert forall e <- AsSequence(bytes).elements :: Truthful(e);
    CaptureIff(l, CallBytes(bytes), v);
    CaptureIff(l, AsSequence(bytes), v);
    hide CaptureWithBudget, Meaning;
  }

  lemma SameMeaning(convert: TypedNumber -> Option<CapturedNumber>, bytes: seq<Byte>)
    requires Stable(convert)
    ensures Meaning(convert, CallBytes(bytes)) == Meaning(convert, AsSequence(bytes))
  {
    var elements, v := AsSequence(bytes).elements, Meaning(convert, CallBytes(bytes)).value;
    MeaningIff(convert, CallBytes(bytes), v);
    assert ValuesOf(convert, elements, v.items);
    ItemsByIndex(convert, elements, v.items);
  }

  lemma {:induction false} NumbersCost(elements: seq<Caller>, depth: nat)
    requires forall e <- elements :: e.CallNumber?
    ensures ElementsBytes(elements) == 0 && ElementsReach(elements, depth) == if elements == [] then 0 else depth
  {
    if elements != [] {
      assert elements[0] in elements && forall e <- elements[1..] :: e in elements;
      NumbersCost(elements[1..], depth);
    }
  }

  /** The length a compound form announces. */
  function Announced(c: Caller): nat {
    match c
    case CallSequence(hint, _, _, _) => hint
    case CallMap(hint, _, _) => hint
    case CallStruct(hint, _, _, _) => hint
    case _ => 0
  }

  /** An announced length is refused, whatever follows, if it exceeds the items that are left. */
  lemma OverannouncedIsRefused(l: Limits, c: Caller, depth: nat, b: Budget)
    requires l.maxNodes.Some? && Announced(c) > 0 && b.items + Announced(c) > l.maxNodes.value
    ensures Capture(l, c, depth, b).value == None
  {
    var variant := if c.CallSequence? || c.CallStruct? then c.variant else None;
    OpenRefuses(l, b, variant, Announced(c), depth);
  }

  lemma OpenRefuses(l: Limits, b: Budget, variant: Option<string>, hint: nat, depth: nat)
    requires l.maxNodes.Some? && hint > 0 && b.items + hint > l.maxNodes.value
    ensures !OpenCompound(l, b, variant, hint, depth).ok
  {
  }
}
