/** A caller that fits is captured: with truthful lengths, limits are the only reason to refuse a consistent caller. */
module SerializerCompleteness {
  import opened Common
  import opened JsonValue
  import opened Lexeme
  import opened Serializer
  import opened SerializerProofs

  function Entries(calls: seq<MapCall>): nat {
    if calls == [] then 0 else (if calls[0].MapValue? then 1 else 0) + Entries(calls[1..])
  }

  /** No announced length is more than what follows. */
  predicate Truthful(c: Caller)
    decreases c
  {
    match c
    case CallWrapped(inner) => Truthful(inner)
    case CallVariant(_, inner) => Truthful(inner)
    case CallSequence(hint, _, elements, _) => hint <= |elements| && forall e <- elements :: Truthful(e)
    case CallMap(hint, calls, _) => hint <= Entries(calls) && forall call <- calls :: call.MapValue? ==> Truthful(call.value)
    case CallStruct(hint, _, fields, _) => hint <= |fields| && forall f <- fields :: Truthful(f.value)
    case _ => true
  }

  predicate Trusted(l: Limits, c: Caller) {
    l.maxNodes.Some? ==> Truthful(c)
  }

  predicate Room(l: Limits, c: Caller, v: Json, depth: nat, b: Budget) {
    Within(l, Plus(b, NodesOf(v), ClaimedBytes(c), NodesOf(v) - 1)) && Bounded(l, Reach(c, depth), v)
  }

  lemma {:induction false} ByteItemsFit(l: Limits, b: Budget, count: nat, depth: nat)
    requires Within(l, Plus(b, count, 0, count)) && (count > 0 ==> DepthAllowed(l, depth))
    ensures ClaimByteItems(l, b, count, depth) == Claim(true, Plus(b, count, 0, count))
    decreases count
  {
    if count > 0 { ByteItemsFit(l, Plus(b, 1, 0, 1), count - 1, depth); }
  }

  lemma BytesComplete(l: Limits, bytes: seq<Byte>, depth: nat, b: Budget)
    requires var c := CallBytes(bytes); Room(l, c, Array(ByteValues(bytes)), depth, b)
    ensures Capture(l, CallBytes(bytes), depth, b) ==
            Outcome(Some(Array(ByteValues(bytes))), Plus(b, 1 + |bytes|, |bytes|, |bytes|))
    ensures NodesOf(Array(ByteValues(bytes))) == 1 + |bytes|
  {
    NumberItems(ByteValues(bytes));
    ByteItemsFit(l, Plus(b, 1, |bytes|, 0), |bytes|, depth + 1);
  }

  lemma OpenComplete(l: Limits, b: Budget, variant: Option<string>, hint: nat, depth: nat)
    requires var t := if variant.Some? then 1 else 0;
             && Within(l, Plus(b, 1 + t, TagBytes(variant), t))
             && (l.maxNodes.Some? ==> b.items + t + hint <= l.maxNodes.value)
    requires l.maxBytes.Some? ==> OwnLevel(variant, depth) <= MAX_CAPTURE_DEPTH && TagBytes(variant) <= MAX_CAPTURE_BYTES
    ensures var t := if variant.Some? then 1 else 0;
            OpenCompound(l, b, variant, hint, depth) == Claim(true, Plus(b, 1 + t, TagBytes(variant), t))
  {
  }

  /** What a compound's total leaves for its children. */
  lemma RoomInside(l: Limits, variant: Option<string>, inner: Json, bytes: nat, deepest: nat, depth: nat, b: Budget)
    requires var v := WrapVariant(variant, inner);
             && Within(l, Plus(b, NodesOf(v), TagBytes(variant) + bytes, NodesOf(v) - 1))
             && Bounded(l, Max(OwnLevel(variant, depth), deepest), v)
    ensures var t := if variant.Some? then 1 else 0;
            var open := Plus(b, 1 + t, TagBytes(variant), t);
            && Within(l, open) && Within(l, Plus(open, NodesOf(inner) - 1, bytes, NodesOf(inner) - 1))
            && Plus(open, NodesOf(inner) - 1, bytes, NodesOf(inner) - 1)
               == Plus(b, NodesOf(WrapVariant(variant, inner)), TagBytes(variant) + bytes,
                       NodesOf(WrapVariant(variant, inner)) - 1)
    ensures l.maxBytes.Some? ==> OwnLevel(variant, depth) <= MAX_CAPTURE_DEPTH && TagBytes(variant) <= MAX_CAPTURE_BYTES
    ensures Bounded(l, deepest, inner)
  {
    hide NodesOf, ShortStrings, WrapVariant;
    WrappedCost(variant, inner);
  }

  lemma {:induction false} CaptureComplete(l: Limits, c: Caller, depth: nat, b: Budget)
    requires Meaning(l.convert, c).Some? && Trusted(l, c) && Room(l, c, Meaning(l.convert, c).value, depth, b)
    ensures var v := Meaning(l.convert, c).value;
            Capture(l, c, depth, b) == Outcome(Some(v), Plus(b, NodesOf(v), ClaimedBytes(c), NodesOf(v) - 1))
    decreases c, 1
  {
    match c
    case CallBytes(bytes) => BytesComplete(l, bytes, depth, b);
    case CallWrapped(inner) => CaptureComplete(l, inner, depth + 1, b);
    case CallVariant(tag, inner) => VariantComplete(l, tag, inner, depth, b);
    case CallSequence(_, _, _, _) => SequenceComplete(l, c, depth, b);
    case CallMap(_, _, _) => MapComplete(l, c, depth, b);
    case CallStruct(_, _, _, _) => StructComplete(l, c, depth, b);
    case _ =>
  }

  lemma {:induction false} VariantComplete(l: Limits, tag: string, inner: Caller, depth: nat, b: Budget)
    requires var c := CallVariant(tag, inner);
             Meaning(l.convert, c).Some? && Trusted(l, c) && Room(l, c, Meaning(l.convert, c).value, depth, b)
    ensures var c := CallVariant(tag, inner);
            var v := Meaning(l.convert, c).value;
            Capture(l, c, depth, b) == Outcome(Some(v), Plus(b, NodesOf(v), ClaimedBytes(c), NodesOf(v) - 1))
    decreases inner, 2
  {
    hide NodesOf, ShortStrings, StringBytes, DepthOf, UniqueKeys;
    var v := Meaning(l.convert, inner).value;
    WrappedCost(Some(tag), v);
    MeaningShape(l.convert, inner, depth + 1);
    var paid := Plus(b, 1, |tag|, 1);
    assert ClaimVariant(l, ClaimNode(l, b, depth).budget, tag) == Claim(true, paid);
    CaptureComplete(l, inner, depth + 1, paid);
  }

  lemma SequenceParts(l: Limits, c: Caller, depth: nat)
    requires c.CallSequence? && Meaning(l.convert, c).Some? && Trusted(l, c)
    ensures c.ended && ItemsMeaning(l.convert, c.elements).Some?
    ensures var ws := ItemsMeaning(l.convert, c.elements).value;
            && Meaning(l.convert, c) == Some(WrapVariant(c.variant, Array(ws)))
            && NodesOf(Array(ws)) == 1 + NodesOfItems(ws) && (ShortStrings(Array(ws)) <==> forall w <- ws :: ShortStrings(w))
            && (l.maxNodes.Some? ==> c.hint <= NodesOfItems(ws) && forall e <- c.elements :: Truthful(e))
    ensures ClaimedBytes(c) == TagBytes(c.variant) + ElementsBytes(c.elements)
    ensures Reach(c, depth) == Max(OwnLevel(c.variant, depth), ElementsReach(c.elements, ChildDepth(c.variant, depth)))
  {
    AsManyItems(l.convert, c.elements);
  }

  lemma {:induction false} SequenceComplete(l: Limits, c: Caller, depth: nat, b: Budget)
    requires c.CallSequence?
    requires Meaning(l.convert, c).Some? && Trusted(l, c) && Room(l, c, Meaning(l.convert, c).value, depth, b)
    ensures var v := Meaning(l.convert, c).value;
            Capture(l, c, depth, b) == Outcome(Some(v), Plus(b, NodesOf(v), ClaimedBytes(c), NodesOf(v) - 1))
    decreases c.elements, 2
  {
    hide NodesOf, NodesOfItems, ShortStrings, WrapVariant, Pushes, OpenCompound, ItemsMeaning, ElementsBytes, ElementsReach,
      Meaning, Reach, ClaimedBytes, Truthful;
    SequenceParts(l, c, depth);
    var ws, child := ItemsMeaning(l.convert, c.elements).value, ChildDepth(c.variant, depth);
    RoomInside(l, c.variant, Array(ws), ElementsBytes(c.elements), ElementsReach(c.elements, child), depth, b);
    OpenComplete(l, b, c.variant, c.hint, depth);
    var open := OpenCompound(l, b, c.variant, c.hint, depth).budget;
    PushesComplete(l, c.elements, child, Sequence([], false, open));
    assert [] + ws == ws;
  }

  lemma {:induction false} AsManyItems(convert: TypedNumber -> Option<CapturedNumber>, elements: seq<Caller>)
    requires ItemsMeaning(convert, elements).Some?
    ensures NodesOfItems(ItemsMeaning(convert, elements).value) >= |elements|
    decreases elements
  {
    if elements != [] {
      AsManyItems(convert, elements[1..]);
      var vs := ItemsMeaning(convert, elements).value;
      assert vs[1..] == ItemsMeaning(convert, elements[1..]).value;
      hide Meaning, NodesOf;
    }
  }

  /** `t` is `s` with exactly `ws` pushed. */
  predicate Pushed(s: Sequence, t: Sequence, ws: seq<Json>, bytes: nat) {
    && !t.failed && t.values == s.values + ws
    && t.budget == Plus(s.budget, NodesOfItems(ws), bytes, NodesOfItems(ws))
  }

  lemma ItemsJoin(values: seq<Json>, v: Json, ws: seq<Json>)
    ensures ws != [] && ws[0] == v ==> values + [v] + ws[1..] == values + ws
  {
  }

  lemma {:induction false} PushesComplete(l: Limits, elements: seq<Caller>, depth: nat, s: Sequence)
    requires !s.failed && ItemsMeaning(l.convert, elements).Some? && (l.maxNodes.Some? ==> forall e <- elements :: Truthful(e))
    requires var ws := ItemsMeaning(l.convert, elements).value;
             && Within(l, Plus(s.budget, NodesOfItems(ws), ElementsBytes(elements), NodesOfItems(ws)))
             && ItemsBounded(l, ElementsReach(elements, depth), ws)
    ensures Pushed(s, Pushes(l, elements, depth, s), ItemsMeaning(l.convert, elements).value, ElementsBytes(elements))
    decreases elements, 1
  {
    var ws := ItemsMeaning(l.convert, elements).value;
    if elements == [] {
      assert s.values + ws == s.values;
    } else {
      hide Meaning, NodesOf, ClaimedBytes, Reach, ShortStrings, Truthful, Capture, Push;
      ElementsParts(l, elements, depth);
      hide ItemsMeaning, NodesOfItems, ElementsBytes, ElementsReach, ItemsBounded, Bounded;
      var e, v, rest := elements[0], ws[0], ws[1..];
      PushComplete(l, e, depth, s);
      ItemsJoin(s.values, v, ws);
      PushesComplete(l, elements[1..], depth, Push(l, e, depth, s));
    }
  }

  lemma ElementsParts(l: Limits, elements: seq<Caller>, depth: nat)
    requires elements != [] && ItemsMeaning(l.convert, elements).Some?
    ensures var ws, e := ItemsMeaning(l.convert, elements).value, elements[0];
            && ws != [] && Meaning(l.convert, e) == Some(ws[0]) && ItemsMeaning(l.convert, elements[1..]) == Some(ws[1..])
            && NodesOfItems(ws) == NodesOf(ws[0]) + NodesOfItems(ws[1..])
            && ElementsBytes(elements) == ClaimedBytes(e) + ElementsBytes(elements[1..])
            && (forall deepest: nat :: ItemsBounded(l, Max(Reach(e, depth), deepest), ws) ==>
                  Bounded(l, Reach(e, depth), ws[0]) && ItemsBounded(l, deepest, ws[1..]))
            && ElementsReach(elements, depth) == Max(Reach(e, depth), ElementsReach(elements[1..], depth))
    ensures (forall f <- elements :: Truthful(f)) ==> Truthful(elements[0]) && forall f <- elements[1..] :: Truthful(f)
  {
    hide Meaning, NodesOf, ClaimedBytes, Reach, ShortStrings, Truthful;
    var ws := ItemsMeaning(l.convert, elements).value;
    assert elements[0] in elements && (forall f <- elements[1..] :: f in elements);
    assert ws[1..] == ItemsMeaning(l.convert, elements[1..]).value && ws[0] in ws && forall w <- ws[1..] :: w in ws;
  }

  lemma {:induction false} PushComplete(l: Limits, c: Caller, depth: nat, s: Sequence)
    requires !s.failed && Meaning(l.convert, c).Some? && Trusted(l, c)
    requires var v := Meaning(l.convert, c).value;
             Within(l, Plus(s.budget, NodesOf(v), ClaimedBytes(c), NodesOf(v))) && Bounded(l, Reach(c, depth), v)
    ensures var v := Meaning(l.convert, c).value;
            Push(l, c, depth, s) == Sequence(s.values + [v], false, Plus(s.budget, NodesOf(v), ClaimedBytes(c), NodesOf(v)))
    decreases c, 2
  {
    CaptureComplete(l, c, depth, Plus(s.budget, 0, 0, 1));
    hide NodesOf, ClaimedBytes, Reach, ShortStrings, Meaning, Capture, Truthful;
  }

  lemma {:induction false} InsertComplete(l: Limits, key: string, c: Caller, depth: nat, m: Members)
    requires !m.failed && key !in m.seen && Meaning(l.convert, c).Some? && Trusted(l, c)
    requires l.maxBytes.Some? ==> |key| <= MAX_CAPTURE_BYTES
    requires var v := Meaning(l.convert, c).value;
             && Within(l, Plus(m.budget, NodesOf(v), |key| + ClaimedBytes(c), NodesOf(v))) && Bounded(l, Reach(c, depth), v)
    ensures var v := Meaning(l.convert, c).value;
            Insert(l, key, c, depth, m) ==
            m.(entries := m.entries + [(key, v)], seen := m.seen + {key},
               budget := Plus(m.budget, NodesOf(v), |key| + ClaimedBytes(c), NodesOf(v)))
    decreases c, 2
  {
    var paid := Plus(m.budget, 0, |key|, 1);
    assert ClaimVariant(l, m.budget, key) == Claim(true, paid);
    CaptureComplete(l, c, depth, paid);
    hide NodesOf, ClaimedBytes, Reach, ShortStrings, Meaning, Capture, Truthful;
  }

  /** What remains to be inserted into `m`, and fits. */
  predicate MembersFit(l: Limits, m: Members, es: seq<(string, Json)>, bytes: nat, deepest: nat) {
    && !m.failed && FreshKeys(es, m.seen)
    && Within(l, Plus(m.budget, NodesOfEntries(es), bytes, NodesOfEntries(es))) && EntriesBounded(l, deepest, es)
  }

  /** `t` is `m` with exactly `es` inserted. */
  predicate Inserted(m: Members, t: Members, es: seq<(string, Json)>, bytes: nat) {
    && !t.failed && t.entries == m.entries + es
    && t.budget == Plus(m.budget, NodesOfEntries(es), bytes, NodesOfEntries(es))
  }

  lemma {:induction false} InsertsComplete(l: Limits, fields: seq<Field>, depth: nat, m: Members)
    requires FieldsMeaning(l.convert, fields).Some? && (l.maxNodes.Some? ==> forall f <- fields :: Truthful(f.value))
    requires MembersFit(l, m, FieldsMeaning(l.convert, fields).value, FieldsBytes(fields), FieldsReach(fields, depth))
    ensures var es, t := FieldsMeaning(l.convert, fields).value, Inserts(l, fields, depth, m);
            Inserted(m, t, es, FieldsBytes(fields)) && t.pending == m.pending
    decreases fields, 1
  {
    var es := FieldsMeaning(l.convert, fields).value;
    if fields == [] {
      assert m.entries + es == m.entries;
    } else {
      hide Meaning, NodesOf, ClaimedBytes, Reach, ShortStrings, Truthful, Capture, FreshKeys, Insert;
      FieldsParts(l, fields, depth);
      hide FieldsMeaning, NodesOfEntries, FieldsBytes, FieldsReach;
      var f, v, rest := fields[0], es[0].1, es[1..];
      EntriesJoin(m.entries, es[0], rest, m.seen);
      InsertComplete(l, f.name, f.value, depth, m);
      InsertsComplete(l, fields[1..], depth, Insert(l, f.name, f.value, depth, m));
    }
  }

  lemma FieldsParts(l: Limits, fields: seq<Field>, depth: nat)
    requires fields != [] && FieldsMeaning(l.convert, fields).Some?
    ensures var es, f := FieldsMeaning(l.convert, fields).value, fields[0];
            && es != [] && es[0].0 == f.name && Meaning(l.convert, f.value) == Some(es[0].1) && [es[0]] + es[1..] == es
            && es[0] == (f.name, es[0].1) && FieldsMeaning(l.convert, fields[1..]) == Some(es[1..])
            && NodesOfEntries(es) == NodesOf(es[0].1) + NodesOfEntries(es[1..])
            && FieldsBytes(fields) == |f.name| + ClaimedBytes(f.value) + FieldsBytes(fields[1..])
            && (forall deepest: nat :: EntriesBounded(l, Max(Reach(f.value, depth), deepest), es) ==>
                  && Bounded(l, Reach(f.value, depth), es[0].1) && (l.maxBytes.Some? ==> |f.name| <= MAX_CAPTURE_BYTES)
                  && EntriesBounded(l, deepest, es[1..]))
            && FieldsReach(fields, depth) == Max(Reach(f.value, depth), FieldsReach(fields[1..], depth))
    ensures (forall f <- fields :: Truthful(f.value)) ==>
              Truthful(fields[0].value) && forall f <- fields[1..] :: Truthful(f.value)
  {
    hide Meaning, NodesOf, ClaimedBytes, Reach, ShortStrings, Truthful;
    var es := FieldsMeaning(l.convert, fields).value;
    assert fields[0] in fields && (forall f <- fields[1..] :: f in fields);
    assert es[1..] == FieldsMeaning(l.convert, fields[1..]).value && es[0] in es && forall e <- es[1..] :: e in es;
  }

  lemma {:induction false} KeyComplete(l: Limits, k: KeyCaller, depth: nat, b: Budget)
    requires KeyMeaning(k).Some? && StringAllowed(l, b, |KeyMeaning(k).value|) && DepthAllowed(l, KeyReach(k, depth))
    ensures KeyOf(l, k, depth, b) == KeyMeaning(k) && KeyReach(k, depth) >= depth
  {
    if k.KeyWrapped? { KeyComplete(l, k.inner, depth + 1, b); }
  }

  lemma {:induction false} MapCallsComplete(l: Limits, calls: seq<MapCall>, depth: nat, m: Members)
    requires EntriesMeaning(l.convert, calls, m.pending).Some?
    requires l.maxNodes.Some? ==> forall call <- calls :: call.MapValue? ==> Truthful(call.value)
    requires MembersFit(l, m, EntriesMeaning(l.convert, calls, m.pending).value, CallsBytes(calls, m.pending),
                        CallsReach(calls, depth))
    ensures var es, t := EntriesMeaning(l.convert, calls, m.pending).value, MapCalls(l, calls, depth, m);
            Inserted(m, t, es, CallsBytes(calls, m.pending)) && t.pending.None?
    decreases calls, 1
  {
    var es := EntriesMeaning(l.convert, calls, m.pending).value;
    if calls == [] {
      assert m.entries + es == m.entries;
    } else {
      var call := calls[0];
      assert (calls decreases to call) && call in calls && forall x <- calls[1..] :: x in calls;
      match call
      case MapKey(key) =>
        KeyStepComplete(l, calls, depth, m);
        hide MembersFit, Inserted, EntriesMeaning, CallsBytes, CallsReach, MapCallStep, Meaning, Truthful;
        MapCallsComplete(l, calls[1..], depth, m.(pending := KeyMeaning(key)));
        SameAfterKey(m, MapCalls(l, calls, depth, m), es, CallsBytes(calls, m.pending), KeyMeaning(key));
      case MapValue(value) =>
        assert (call decreases to value);
        var next := ValueStepComplete(l, calls, depth, m);
        var rest := EntriesMeaning(l.convert, calls[1..], None).value;
        hide MembersFit, Inserted, EntriesMeaning, CallsBytes, CallsReach, MapCallStep, Meaning, Truthful;
        MapCallsComplete(l, calls[1..], depth, next);
        InsertedMore(m, next, MapCalls(l, calls, depth, m), es[0], rest, TagBytes(m.pending) + ClaimedBytes(value),
                     CallsBytes(calls[1..], None));
    }
  }

  lemma SameAfterKey(m: Members, t: Members, es: seq<(string, Json)>, bytes: nat, pending: Option<string>)
    requires Inserted(m.(pending := pending), t, es, bytes)
    ensures Inserted(m, t, es, bytes)
  {
  }

  /** What is inserted after `e` comes after it. */
  lemma InsertedMore(m: Members, next: Members, t: Members, e: (string, Json), rest: seq<(string, Json)>, first: nat, more: nat)
    requires Inserted(m, next, [e], first) && Inserted(next, t, rest, more)
    ensures Inserted(m, t, [e] + rest, first + more)
  {
    assert m.entries + [e] + rest == m.entries + ([e] + rest);
    OneEntry(e, rest);
    OneEntry(e, []);
    assert [e] + [] == [e];
    hide NodesOfEntries;
  }

  lemma OneEntry(e: (string, Json), rest: seq<(string, Json)>)
    ensures NodesOfEntries([e] + rest) == NodesOf(e.1) + NodesOfEntries(rest)
  {
    assert ([e] + rest)[1..] == rest;
    hide NodesOf;
  }

  lemma {:induction false} KeyStepComplete(l: Limits, calls: seq<MapCall>, depth: nat, m: Members)
    requires calls != [] && calls[0].MapKey? && EntriesMeaning(l.convert, calls, m.pending).Some?
    requires MembersFit(l, m, EntriesMeaning(l.convert, calls, m.pending).value, CallsBytes(calls, m.pending),
                        CallsReach(calls, depth))
    ensures var next := m.(pending := KeyMeaning(calls[0].key));
            && MapCallStep(l, calls[0], depth, m) == next
            && EntriesMeaning(l.convert, calls[1..], next.pending) == EntriesMeaning(l.convert, calls, m.pending)
            && CallsBytes(calls[1..], next.pending) == CallsBytes(calls, m.pending)
            && MembersFit(l, next, EntriesMeaning(l.convert, calls, m.pending).value, CallsBytes(calls, m.pending),
                          CallsReach(calls[1..], depth))
  {
    var es := EntriesMeaning(l.convert, calls, m.pending).value;
    PendingPaid(l.convert, calls[1..], KeyMeaning(calls[0].key));
    assert es[0] in es;
    KeyComplete(l, calls[0].key, depth, m.budget);
    hide Meaning, NodesOf, ClaimedBytes, Reach, ShortStrings, FreshKeys;
  }

  lemma {:induction false} ValueStepComplete(l: Limits, calls: seq<MapCall>, depth: nat, m: Members) returns (next: Members)
    requires calls != [] && calls[0].MapValue? && EntriesMeaning(l.convert, calls, m.pending).Some?
    requires l.maxNodes.Some? ==> Truthful(calls[0].value)
    requires MembersFit(l, m, EntriesMeaning(l.convert, calls, m.pending).value, CallsBytes(calls, m.pending),
                        CallsReach(calls, depth))
    ensures next == MapCallStep(l, calls[0], depth, m) && next.pending.None?
    ensures EntriesMeaning(l.convert, calls[1..], None).Some?
    ensures var es, rest := EntriesMeaning(l.convert, calls, m.pending).value, EntriesMeaning(l.convert, calls[1..], None).value;
            && es != [] && [es[0]] + rest == es
            && CallsBytes(calls, m.pending) == TagBytes(m.pending) + ClaimedBytes(calls[0].value) + CallsBytes(calls[1..], None)
            && Inserted(m, next, [es[0]], TagBytes(m.pending) + ClaimedBytes(calls[0].value))
            && MembersFit(l, next, rest, CallsBytes(calls[1..], None), CallsReach(calls[1..], depth))
    decreases calls[0], 3
  {
    var es, value, start := EntriesMeaning(l.convert, calls, m.pending).value, calls[0].value, m.(pending := None);
    assert (calls[0] decreases to value);
    var v, rest := es[0].1, es[1..];
    assert es[0] in es && forall e <- rest :: e in es;
    assert rest == EntriesMeaning(l.convert, calls[1..], None).value && es[0] == (m.pending.value, v) && [es[0]] + rest == es;
    EntriesJoin(m.entries, es[0], rest, m.seen);
    hide Meaning, NodesOf, ClaimedBytes, Reach, ShortStrings, Truthful, Capture, FreshKeys;
    InsertComplete(l, m.pending.value, value, depth, start);
    next := Insert(l, m.pending.value, value, depth, start);
    OneEntry(es[0], rest);
    OneEntry(es[0], []);
    assert [es[0]] + [] == [es[0]];
    hide Insert, NodesOfEntries;
  }

  lemma PendingPaid(convert: TypedNumber -> Option<CapturedNumber>, calls: seq<MapCall>, pending: Option<string>)
    requires pending.Some? && EntriesMeaning(convert, calls, pending).Some?
    ensures var es := EntriesMeaning(convert, calls, pending).value;
            es != [] && es[0].0 == pending.value && CallsBytes(calls, pending) >= |pending.value|
  {
  }

  lemma StructParts(l: Limits, c: Caller, depth: nat)
    requires c.CallStruct? && Meaning(l.convert, c).Some? && Trusted(l, c)
    ensures c.ended && FieldsMeaning(l.convert, c.fields).Some?
    ensures var es := FieldsMeaning(l.convert, c.fields).value;
            && Meaning(l.convert, c) == Some(WrapVariant(c.variant, Object(es))) && DistinctKeys(es)
            && (l.maxNodes.Some? ==> c.hint <= NodesOfEntries(es) && forall f <- c.fields :: Truthful(f.value))
    ensures ClaimedBytes(c) == TagBytes(c.variant) + FieldsBytes(c.fields)
    ensures Reach(c, depth) == Max(OwnLevel(c.variant, depth), FieldsReach(c.fields, ChildDepth(c.variant, depth)))
  {
    AsManyFields(l.convert, c.fields);
  }

  lemma MapParts(l: Limits, c: Caller, depth: nat)
    requires c.CallMap? && Meaning(l.convert, c).Some? && Trusted(l, c)
    ensures c.ended && EntriesMeaning(l.convert, c.calls, None).Some?
    ensures var es := EntriesMeaning(l.convert, c.calls, None).value;
            && Meaning(l.convert, c) == Some(WrapVariant(None, Object(es))) && DistinctKeys(es)
            && (l.maxNodes.Some? ==>
                  c.hint <= NodesOfEntries(es) && forall call <- c.calls :: call.MapValue? ==> Truthful(call.value))
    ensures ClaimedBytes(c) == TagBytes(None) + CallsBytes(c.calls, None)
    ensures Reach(c, depth) == Max(OwnLevel(None, depth), CallsReach(c.calls, depth + 1))
  {
    AsManyEntries(l.convert, c.calls, None);
  }

  lemma {:induction false} StructComplete(l: Limits, c: Caller, depth: nat, b: Budget)
    requires c.CallStruct?
    requires Meaning(l.convert, c).Some? && Trusted(l, c) && Room(l, c, Meaning(l.convert, c).value, depth, b)
    ensures var v := Meaning(l.convert, c).value;
            Capture(l, c, depth, b) == Outcome(Some(v), Plus(b, NodesOf(v), ClaimedBytes(c), NodesOf(v) - 1))
    decreases c.fields, 2
  {
    hide NodesOf, NodesOfEntries, ShortStrings, WrapVariant, Inserts, OpenCompound, FieldsMeaning, FieldsBytes, FieldsReach,
      Meaning, Reach, ClaimedBytes, Truthful, FreshKeys, DistinctKeys;
    StructParts(l, c, depth);
    var es, child := FieldsMeaning(l.convert, c.fields).value, ChildDepth(c.variant, depth);
    ObjectRoom(es);
    RoomInside(l, c.variant, Object(es), FieldsBytes(c.fields), FieldsReach(c.fields, child), depth, b);
    OpenComplete(l, b, c.variant, c.hint, depth);
    NoSeenKeys(es);
    var open := OpenCompound(l, b, c.variant, c.hint, depth).budget;
    InsertsComplete(l, c.fields, child, Members([], {}, None, false, open));
    assert [] + es == es;
  }

  lemma ObjectRoom(es: seq<(string, Json)>)
    ensures NodesOf(Object(es)) == 1 + NodesOfEntries(es)
    ensures ShortStrings(Object(es)) <==> forall e <- es :: |e.0| <= MAX_CAPTURE_BYTES && ShortStrings(e.1)
  {
  }

  lemma {:induction false} AsManyFields(convert: TypedNumber -> Option<CapturedNumber>, fields: seq<Field>)
    requires FieldsMeaning(convert, fields).Some?
    ensures NodesOfEntries(FieldsMeaning(convert, fields).value) >= |fields|
    decreases fields
  {
    if fields != [] {
      AsManyFields(convert, fields[1..]);
      var es := FieldsMeaning(convert, fields).value;
      assert es[1..] == FieldsMeaning(convert, fields[1..]).value;
      hide Meaning, NodesOf;
    }
  }

  lemma {:induction false} AsManyEntries(convert: TypedNumber -> Option<CapturedNumber>, calls: seq<MapCall>,
                                         pending: Option<string>)
    requires EntriesMeaning(convert, calls, pending).Some?
    ensures NodesOfEntries(EntriesMeaning(convert, calls, pending).value) >= Entries(calls)
    decreases calls
  {
    if calls != [] {
      if calls[0].MapKey? {
        AsManyEntries(convert, calls[1..], KeyMeaning(calls[0].key));
      } else {
        AsManyEntries(convert, calls[1..], None);
        var es := EntriesMeaning(convert, calls, pending).value;
        assert es[1..] == EntriesMeaning(convert, calls[1..], None).value;
      }
      hide Meaning, NodesOf;
    }
  }

  lemma {:induction false} MapComplete(l: Limits, c: Caller, depth: nat, b: Budget)
    requires c.CallMap?
    requires Meaning(l.convert, c).Some? && Trusted(l, c) && Room(l, c, Meaning(l.convert, c).value, depth, b)
    ensures var v := Meaning(l.convert, c).value;
            Capture(l, c, depth, b) == Outcome(Some(v), Plus(b, NodesOf(v), ClaimedBytes(c), NodesOf(v) - 1))
    decreases c.calls, 2
  {
    hide NodesOf, NodesOfEntries, ShortStrings, WrapVariant, MapCalls, OpenCompound, EntriesMeaning, CallsBytes, CallsReach,
      Meaning, Reach, ClaimedBytes, Truthful, FreshKeys, DistinctKeys, Entries;
    MapParts(l, c, depth);
    var es, child := EntriesMeaning(l.convert, c.calls, None).value, depth + 1;
    ObjectRoom(es);
    RoomInside(l, None, Object(es), CallsBytes(c.calls, None), CallsReach(c.calls, child), depth, b);
    OpenComplete(l, b, None, c.hint, depth);
    NoSeenKeys(es);
    var open := OpenCompound(l, b, None, c.hint, depth).budget;
    MapCallsComplete(l, c.calls, child, Members([], {}, None, false, open));
    assert [] + es == es;
  }

  // ------------------------------------------------------------- main result

  predicate Fits(l: Limits, c: Caller, v: Json) {
    && (l.maxNodes.Some? ==> NodesOf(v) <= l.maxNodes.value)
    && (l.maxBytes.Some? ==> ClaimedBytes(c) <= l.maxBytes.value)
    && Bounded(l, Reach(c, 0), v)
  }

  /**
   The serializer returns exactly what a caller describes, cut by the limits. Only announced lengths can get a caller
   refused beyond that, and only if they overstate.
   */
  lemma CaptureIff(l: Limits, c: Caller, v: Json)
    requires Trusted(l, c)
    ensures CaptureWithBudget(l, c) == Some(v) <==> Meaning(l.convert, c) == Some(v) && Fits(l, c, v)
  {
    hide Capture, Meaning, NodesOf, ClaimedBytes, Reach, ShortStrings, Truthful, StringBytes, DepthOf, UniqueKeys;
    if CaptureWithBudget(l, c) == Some(v) { CapturedTreeIsPaidFor(l, c, v); }
    if Meaning(l.convert, c) == Some(v) && Fits(l, c, v) { CaptureComplete(l, c, 0, Budget(0, 0, 0)); }
  }
}
