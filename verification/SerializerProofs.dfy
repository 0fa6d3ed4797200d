/** The meaning of a caller, its cost, and the soundness of capturing: what is returned was said, and is paid for exactly. */
module SerializerProofs {
  import opened Common
  import opened JsonValue
  import opened Lexeme
  import opened Serializer

  // ----------------------------------------------------------------- meaning

  /** The tree a caller describes, if it makes a complete and consistent sequence of calls. No limit is involved. */
  function Meaning(convert: TypedNumber -> Option<CapturedNumber>, c: Caller): Option<Json>
    decreases c
  {
    match c
    case CallNull => Some(Null)
    case CallBool(v) => Some(Bool(v))
    case CallNumber(number) => NumberValue(convert, number)
    case CallText(s) => Some(Text(s))
    case CallBytes(bytes) => Some(Array(ByteValues(bytes)))
    case CallWrapped(inner) => Meaning(convert, inner)
    case CallVariant(tag, inner) =>
      (match Meaning(convert, inner) case Some(v) => Some(WrapVariant(Some(tag), v)) case None => None)
    case CallSequence(_, variant, elements, ended) =>
      (match ItemsMeaning(convert, elements)
       case Some(vs) => if ended then Some(WrapVariant(variant, Array(vs))) else None
       case None => None)
    case CallMap(_, calls, ended) => ObjectMeaning(EntriesMeaning(convert, calls, None), None, ended)
    case CallStruct(_, variant, fields, ended) => ObjectMeaning(FieldsMeaning(convert, fields), variant, ended)
    case CallNothing => None
    case CallThenFail(_) => None
  }

  function ItemsMeaning(convert: TypedNumber -> Option<CapturedNumber>, elements: seq<Caller>): Option<seq<Json>>
    decreases elements
  {
    if elements == [] then Some([])
    else
      match Meaning(convert, elements[0])
      case None => None
      case Some(v) =>
        match ItemsMeaning(convert, elements[1..]) case None => None case Some(vs) => Some([v] + vs)
  }

  function ObjectMeaning(entries: Option<seq<(string, Json)>>, variant: Option<string>, ended: bool): Option<Json> {
    match entries
    case None => None
    case Some(es) => if ended && DistinctKeys(es) then Some(WrapVariant(variant, Object(es))) else None
  }

  function FieldsMeaning(convert: TypedNumber -> Option<CapturedNumber>, fields: seq<Field>): Option<seq<(string, Json)>>
    decreases fields
  {
    if fields == [] then Some([])
    else
      match Meaning(convert, fields[0].value)
      case None => None
      case Some(v) =>
        match FieldsMeaning(convert, fields[1..]) case None => None case Some(es) => Some([(fields[0].name, v)] + es)
  }

  function KeyMeaning(k: KeyCaller): Option<string> {
    match k
    case KeyText(s) => Some(s)
    case KeyWrapped(inner) => KeyMeaning(inner)
    case KeyRefused => None
  }

  /** Keys and values must alternate; `pending` is a key without its value. */
  function EntriesMeaning(convert: TypedNumber -> Option<CapturedNumber>, calls: seq<MapCall>, pending: Option<string>):
    Option<seq<(string, Json)>>
    decreases calls
  {
    if calls == [] then if pending.Some? then None else Some([])
    else
      var call := calls[0];
      assert (calls decreases to call) && (call.MapValue? ==> (call decreases to call.value));
      match call
      case MapKey(key) =>
        if pending.Some? || KeyMeaning(key).None? then None else EntriesMeaning(convert, calls[1..], KeyMeaning(key))
      case MapValue(value) =>
        if pending.None? then None
        else
          match Meaning(convert, value)
          case None => None
          case Some(v) =>
            match EntriesMeaning(convert, calls[1..], None)
            case None => None
            case Some(es) => Some([(pending.value, v)] + es)
  }

  // -------------------------------------------------------------------- cost

  /** Bytes of all strings and member names. */
  function StringBytes(v: Json): nat {
    match v
    case Text(s) => |s|
    case Array(items) => ItemsBytes(items)
    case Object(entries) => EntriesBytes(entries)
    case _ => 0
  }

  function ItemsBytes(items: seq<Json>): nat {
    if items == [] then 0 else StringBytes(items[0]) + ItemsBytes(items[1..])
  }

  function EntriesBytes(entries: seq<(string, Json)>): nat {
    if entries == [] then 0
    else
      var e := entries[0];
      assert (entries decreases to e) && (e decreases to e.1);
      |e.0| + StringBytes(e.1) + EntriesBytes(entries[1..])
  }

  /** Every string and member name is within the limit for one string. */
  predicate ShortStrings(v: Json) {
    match v
    case Text(s) => |s| <= 1_048_576
    case Array(items) => forall item <- items :: ShortStrings(item)
    case Object(entries) => forall e <- entries :: |e.0| <= 1_048_576 && ShortStrings(e.1)
    case _ => true
  }

  function TagBytes(variant: Option<string>): nat {
    if variant.Some? then |variant.value| else 0
  }

  /** The bytes a caller claims when nothing is refused: its strings and names, and its byte arrays as bytes. */
  function ClaimedBytes(c: Caller): nat
    decreases c
  {
    match c
    case CallText(s) => |s|
    case CallBytes(bytes) => |bytes|
    case CallWrapped(inner) => ClaimedBytes(inner)
    case CallVariant(tag, inner) => |tag| + ClaimedBytes(inner)
    case CallSequence(_, variant, elements, _) => TagBytes(variant) + ElementsBytes(elements)
    case CallMap(_, calls, _) => CallsBytes(calls, None)
    case CallStruct(_, variant, fields, _) => TagBytes(variant) + FieldsBytes(fields)
    case _ => 0
  }

  function ElementsBytes(elements: seq<Caller>): nat
    decreases elements
  {
    if elements == [] then 0 else ClaimedBytes(elements[0]) + ElementsBytes(elements[1..])
  }

  function FieldsBytes(fields: seq<Field>): nat
    decreases fields
  {
    if fields == [] then 0 else |fields[0].name| + ClaimedBytes(fields[0].value) + FieldsBytes(fields[1..])
  }

  /** A key is paid for with its value. */
  function CallsBytes(calls: seq<MapCall>, pending: Option<string>): nat
    decreases calls
  {
    if calls == [] then 0
    else
      var call := calls[0];
      assert (calls decreases to call) && (call.MapValue? ==> (call decreases to call.value));
      match call
      case MapKey(key) => CallsBytes(calls[1..], KeyMeaning(key))
      case MapValue(value) => TagBytes(pending) + ClaimedBytes(value) + CallsBytes(calls[1..], None)
  }

  /** The deepest level at which the caller is checked, started at `depth`. */
  function Reach(c: Caller, depth: nat): nat
    decreases c
  {
    match c
    case CallBytes(bytes) => if bytes == [] then depth else depth + 1
    case CallWrapped(inner) => Reach(inner, depth + 1)
    case CallVariant(_, inner) => Reach(inner, depth + 1)
    case CallSequence(_, variant, elements, _) =>
      Max(OwnLevel(variant, depth), ElementsReach(elements, ChildDepth(variant, depth)))
    case CallMap(_, calls, _) => Max(depth, CallsReach(calls, depth + 1))
    case CallStruct(_, variant, fields, _) => Max(OwnLevel(variant, depth), FieldsReach(fields, ChildDepth(variant, depth)))
    case _ => depth
  }

  function OwnLevel(variant: Option<string>, depth: nat): nat {
    if variant.Some? then depth + 1 else depth
  }

  function ElementsReach(elements: seq<Caller>, depth: nat): nat
    decreases elements
  {
    if elements == [] then 0 else Max(Reach(elements[0], depth), ElementsReach(elements[1..], depth))
  }

  function FieldsReach(fields: seq<Field>, depth: nat): nat
    decreases fields
  {
    if fields == [] then 0 else Max(Reach(fields[0].value, depth), FieldsReach(fields[1..], depth))
  }

  function CallsReach(calls: seq<MapCall>, depth: nat): nat
    decreases calls
  {
    if calls == [] then 0
    else
      var call := calls[0];
      assert (calls decreases to call) && (call.MapValue? ==> (call decreases to call.value));
      match call
      case MapKey(key) => Max(KeyReach(key, depth), CallsReach(calls[1..], depth))
      case MapValue(value) => Max(Reach(value, depth), CallsReach(calls[1..], depth))
  }

  function KeyReach(k: KeyCaller, depth: nat): nat {
    if k.KeyWrapped? then KeyReach(k.inner, depth + 1) else depth
  }

  // -------------------------------------------------------------------- room

  /** No counter is beyond its limit. */
  predicate Within(l: Limits, b: Budget) {
    && (l.maxNodes.Some? ==> b.nodes <= l.maxNodes.value && b.items <= l.maxNodes.value)
    && (l.maxBytes.Some? ==> b.bytes <= l.maxBytes.value)
  }

  function Plus(b: Budget, nodes: nat, bytes: nat, items: nat): Budget {
    Budget(b.nodes + nodes, b.bytes + bytes, b.items + items)
  }

  /** Going from `a` to `b` claims exactly this much, and no limit is passed. */
  predicate Claimed(l: Limits, a: Budget, b: Budget, nodes: nat, bytes: nat, items: nat) {
    b == Plus(a, nodes, bytes, items) && (Within(l, a) ==> Within(l, b))
  }

  /** The limits that are not counters. */
  predicate Bounded(l: Limits, deepest: nat, v: Json) {
    l.maxBytes.Some? ==> deepest <= MAX_CAPTURE_DEPTH && ShortStrings(v)
  }

  predicate ItemsBounded(l: Limits, deepest: nat, vs: seq<Json>) {
    l.maxBytes.Some? ==> deepest <= MAX_CAPTURE_DEPTH && forall v <- vs :: ShortStrings(v)
  }

  predicate EntriesBounded(l: Limits, deepest: nat, es: seq<(string, Json)>) {
    l.maxBytes.Some? ==>
      deepest <= MAX_CAPTURE_DEPTH && forall e <- es :: |e.0| <= MAX_CAPTURE_BYTES && ShortStrings(e.1)
  }

  // ------------------------------------------------------------------- proof

  /** What a successful capture has established. */
  predicate Sound(l: Limits, c: Caller, depth: nat, b: Budget, r: Outcome) {
    r.value.Some? ==>
      && Meaning(l.convert, c) == r.value
      && Claimed(l, b, r.budget, NodesOf(r.value.value), ClaimedBytes(c), NodesOf(r.value.value) - 1)
      && Bounded(l, Reach(c, depth), r.value.value)
  }

  lemma WrappedCost(variant: Option<string>, v: Json)
    ensures var w, t := WrapVariant(variant, v), if variant.Some? then 1 else 0;
            && NodesOf(w) == t + NodesOf(v)
            && (ShortStrings(w) <==> TagBytes(variant) <= MAX_CAPTURE_BYTES && ShortStrings(v))
  {
    if variant.Some? {
      var es := [(variant.value, v)];
      assert es[1..] == [] && es[0] in es && forall e <- es :: e == (variant.value, v);
      assert NodesOfEntries([]) == 0 && NodesOfEntries(es) == NodesOf(v) + NodesOfEntries(es[1..]);
    }
  }

  lemma {:induction false} ByteItemsClaimed(l: Limits, b: Budget, count: nat, depth: nat)
    requires ClaimByteItems(l, b, count, depth).ok
    ensures Claimed(l, b, ClaimByteItems(l, b, count, depth).budget, count, 0, count)
    ensures count > 0 ==> DepthAllowed(l, depth)
    decreases count
  {
    if count > 0 {
      ByteItemsClaimed(l, ClaimNode(l, ClaimItem(l, b).budget, depth).budget, count - 1, depth);
    }
  }

  lemma {:induction false} NumberItems(vs: seq<Json>)
    requires forall v <- vs :: v.Number?
    ensures NodesOfItems(vs) == |vs|
  {
    if vs != [] {
      assert vs[0] in vs && forall v <- vs[1..] :: v in vs;
      NumberItems(vs[1..]);
    }
  }

  lemma BytesSound(l: Limits, c: Caller, depth: nat, b: Budget)
    requires c.CallBytes?
    ensures Sound(l, c, depth, b, Capture(l, c, depth, b))
  {
    var r := Capture(l, c, depth, b);
    if r.value.Some? {
      var claimed := ClaimBytes(l, ClaimNode(l, b, depth).budget, |c.bytes|);
      ByteItemsClaimed(l, claimed.budget, |c.bytes|, depth + 1);
      NumberItems(ByteValues(c.bytes));
    }
  }

  lemma OpenSound(l: Limits, b: Budget, variant: Option<string>, hint: nat, depth: nat)
    ensures var open, t := OpenCompound(l, b, variant, hint, depth), if variant.Some? then 1 else 0;
            open.ok ==>
              && Claimed(l, b, open.budget, 1 + t, TagBytes(variant), t)
              && (l.maxBytes.Some? ==> OwnLevel(variant, depth) <= MAX_CAPTURE_DEPTH && TagBytes(variant) <= MAX_CAPTURE_BYTES)
  {
  }

  /** A compound, once its children are sound. */
  lemma CompoundSound(l: Limits, c: Caller, variant: Option<string>, hint: nat, inner: Json, bytes: nat, deepest: nat,
                      depth: nat, b: Budget, r: Outcome)
    requires var open := OpenCompound(l, b, variant, hint, depth);
             open.ok && Claimed(l, open.budget, r.budget, NodesOf(inner) - 1, bytes, NodesOf(inner) - 1)
    requires Bounded(l, deepest, inner)
    requires ClaimedBytes(c) == TagBytes(variant) + bytes && Reach(c, depth) == Max(OwnLevel(variant, depth), deepest)
    requires r.value == Some(WrapVariant(variant, inner)) == Meaning(l.convert, c)
    ensures Sound(l, c, depth, b, r)
  {
    hide OpenCompound, NodesOf, ShortStrings, WrapVariant, Meaning, ClaimedBytes, Reach;
    OpenSound(l, b, variant, hint, depth);
    WrappedCost(variant, inner);
  }

  lemma {:induction false} CaptureSound(l: Limits, c: Caller, depth: nat, b: Budget)
    ensures Sound(l, c, depth, b, Capture(l, c, depth, b))
    decreases c, 0
  {
    match c
    case CallWrapped(inner) => CaptureSound(l, inner, depth + 1, b);
    case CallBytes(bytes) => BytesSound(l, c, depth, b);
    case CallVariant(tag, inner) => VariantSound(l, tag, inner, depth, b);
    case CallSequence(_, _, _, _) => SequenceSound(l, c, depth, b);
    case CallMap(_, _, _) => MapSound(l, c, depth, b);
    case CallStruct(_, _, _, _) => StructSound(l, c, depth, b);
    case _ =>
  }

  lemma {:induction false} VariantSound(l: Limits, tag: string, inner: Caller, depth: nat, b: Budget)
    ensures var c := CallVariant(tag, inner); Sound(l, c, depth, b, Capture(l, c, depth, b))
    decreases inner, 1
  {
    var claimed := ClaimVariant(l, ClaimNode(l, b, depth).budget, tag);
    var r := Capture(l, inner, depth + 1, claimed.budget);
    CaptureSound(l, inner, depth + 1, claimed.budget);
    if r.value.Some? { WrappedCost(Some(tag), r.value.value); }
    hide NodesOf, ShortStrings;
  }

  lemma ArrayCost(ws: seq<Json>)
    ensures NodesOf(Array(ws)) == 1 + NodesOfItems(ws)
    ensures ShortStrings(Array(ws)) <==> forall w <- ws :: ShortStrings(w)
  {
  }

  lemma {:induction false} SequenceSound(l: Limits, c: Caller, depth: nat, b: Budget)
    requires c.CallSequence?
    ensures Sound(l, c, depth, b, Capture(l, c, depth, b))
    decreases c.elements, 1
  {
    hide OpenCompound, Pushes, ShortStrings, NodesOf, NodesOfItems, ElementsBytes, ElementsReach, WrapVariant, ItemsMeaning;
    var r, open := Capture(l, c, depth, b), OpenCompound(l, b, c.variant, c.hint, depth);
    if r.value.Some? {
      var s, child := Sequence([], false, open.budget), ChildDepth(c.variant, depth);
      var ws := PushesSound(l, c.elements, child, s);
      assert [] + ws == ws;
      ArrayCost(ws);
      hide Claimed, Sound;
      CompoundSound(l, c, c.variant, c.hint, Array(ws), ElementsBytes(c.elements), ElementsReach(c.elements, child), depth, b, r);
    }
  }

  lemma {:induction false} PushSound(l: Limits, c: Caller, depth: nat, s: Sequence) returns (v: Json)
    requires !Push(l, c, depth, s).failed
    ensures var t := Push(l, c, depth, s);
            && !s.failed && Meaning(l.convert, c) == Some(v) && t.values == s.values + [v]
            && Claimed(l, s.budget, t.budget, NodesOf(v), ClaimedBytes(c), NodesOf(v)) && Bounded(l, Reach(c, depth), v)
    decreases c, 1
  {
    CaptureSound(l, c, depth, ClaimItem(l, s.budget).budget);
    v := Capture(l, c, depth, ClaimItem(l, s.budget).budget).value.value;
    hide Capture, NodesOf, ClaimedBytes, Meaning, Reach;
  }

  lemma {:induction false} PushesSound(l: Limits, elements: seq<Caller>, depth: nat, s: Sequence) returns (ws: seq<Json>)
    requires !Pushes(l, elements, depth, s).failed
    ensures var t := Pushes(l, elements, depth, s);
            && !s.failed && ItemsMeaning(l.convert, elements) == Some(ws) && t.values == s.values + ws
            && Claimed(l, s.budget, t.budget, NodesOfItems(ws), ElementsBytes(elements), NodesOfItems(ws))
            && ItemsBounded(l, ElementsReach(elements, depth), ws)
    decreases elements, 0
  {
    hide Push, Capture, Meaning, NodesOf, ClaimedBytes, Reach, ShortStrings;
    ws := [];
    if elements != [] {
      var rest := PushesSound(l, elements[1..], depth, Push(l, elements[0], depth, s));
      var v := PushSound(l, elements[0], depth, s);
      ws := [v] + rest;
      assert ws[1..] == rest && s.values + [v] + rest == s.values + ws;
    }
  }

  /** After a failed call the serializer captures nothing, spends nothing, and stays failed. */
  lemma {:induction false} FailureIsFinal(l: Limits, before: seq<Caller>, after: seq<Caller>, depth: nat, s: Sequence)
    requires Pushes(l, before, depth, s).failed
    ensures Pushes(l, before + after, depth, s) == Pushes(l, before, depth, s)
  {
    if before != [] {
      assert (before + after)[1..] == before[1..] + after;
      FailureIsFinal(l, before[1..], after, depth, Push(l, before[0], depth, s));
    } else if after != [] {
      assert before + after == after && Push(l, after[0], depth, s) == s;
      FailureIsFinal(l, [], after[1..], depth, s);
      assert [] + after[1..] == after[1..];
    } else {
      assert before + after == [];
    }
  }

  lemma {:induction false} MapFailureIsFinal(l: Limits, before: seq<MapCall>, after: seq<MapCall>, depth: nat, m: Members)
    requires MapCalls(l, before, depth, m).failed
    ensures MapCalls(l, before + after, depth, m) == MapCalls(l, before, depth, m)
  {
    if before != [] {
      assert (before + after)[1..] == before[1..] + after;
      MapFailureIsFinal(l, before[1..], after, depth, MapCallStep(l, before[0], depth, m));
    } else if after != [] {
      assert before + after == after && MapCallStep(l, after[0], depth, m) == m;
      MapFailureIsFinal(l, [], after[1..], depth, m);
      assert [] + after[1..] == after[1..];
    } else {
      assert before + after == [];
    }
  }

  lemma ObjectSound(l: Limits, c: Caller, variant: Option<string>, hint: nat, es: seq<(string, Json)>, bytes: nat, deepest: nat,
                    depth: nat, b: Budget, r: Outcome)
    requires var open := OpenCompound(l, b, variant, hint, depth);
             open.ok && Claimed(l, open.budget, r.budget, NodesOfEntries(es), bytes, NodesOfEntries(es))
    requires EntriesBounded(l, deepest, es)
    requires ClaimedBytes(c) == TagBytes(variant) + bytes && Reach(c, depth) == Max(OwnLevel(variant, depth), deepest)
    requires r.value == Some(WrapVariant(variant, Object(es))) == Meaning(l.convert, c)
    ensures Sound(l, c, depth, b, r)
  {
    assert NodesOf(Object(es)) == 1 + NodesOfEntries(es);
    assert ShortStrings(Object(es)) <==> forall e <- es :: |e.0| <= MAX_CAPTURE_BYTES && ShortStrings(e.1);
    hide OpenCompound, NodesOf, ShortStrings, WrapVariant, Meaning, ClaimedBytes, Reach, Claimed, Sound;
    CompoundSound(l, c, variant, hint, Object(es), bytes, deepest, depth, b, r);
  }

  lemma {:induction false} InsertSound(l: Limits, key: string, c: Caller, depth: nat, m: Members)
    requires !Insert(l, key, c, depth, m).failed
    ensures var t, v := Insert(l, key, c, depth, m), Capture(l, c, depth, ClaimVariant(l, m.budget, key).budget).value;
            && !m.failed && key !in m.seen && v.Some? && Meaning(l.convert, c) == v
            && t == m.(entries := m.entries + [(key, v.value)], seen := m.seen + {key}, budget := t.budget)
            && Claimed(l, m.budget, t.budget, NodesOf(v.value), |key| + ClaimedBytes(c), NodesOf(v.value))
            && (l.maxBytes.Some? ==> |key| <= MAX_CAPTURE_BYTES) && Bounded(l, Reach(c, depth), v.value)
    decreases c, 1
  {
    CaptureSound(l, c, depth, ClaimVariant(l, m.budget, key).budget);
    hide Capture, NodesOf, ClaimedBytes, Meaning, Reach, ShortStrings;
  }

  lemma {:induction false} InsertsSound(l: Limits, fields: seq<Field>, depth: nat, m: Members)
    returns (es: seq<(string, Json)>)
    requires !Inserts(l, fields, depth, m).failed
    ensures var t := Inserts(l, fields, depth, m);
            && !m.failed && FieldsMeaning(l.convert, fields) == Some(es) && t.entries == m.entries + es && t.pending == m.pending
            && Claimed(l, m.budget, t.budget, NodesOfEntries(es), FieldsBytes(fields), NodesOfEntries(es))
            && EntriesBounded(l, FieldsReach(fields, depth), es) && FreshKeys(es, m.seen)
    decreases fields, 0
  {
    es := [];
    if fields != [] {
      var f := fields[0];
      var rest := InsertsSound(l, fields[1..], depth, Insert(l, f.name, f.value, depth, m));
      InsertSound(l, f.name, f.value, depth, m);
      var v := Capture(l, f.value, depth, ClaimVariant(l, m.budget, f.name).budget).value.value;
      es := [(f.name, v)] + rest;
      EntriesJoin(m.entries, (f.name, v), rest, m.seen);
      hide Capture, Inserts, Insert, FreshKeys, NodesOf, ClaimedBytes, Reach, ShortStrings, Meaning, Bounded, DistinctKeys;
      assert es[1..] == rest;
    }
  }

  lemma {:induction false} KeySound(l: Limits, k: KeyCaller, depth: nat, b: Budget)
    ensures KeyOf(l, k, depth, b).Some? ==>
              KeyOf(l, k, depth, b) == KeyMeaning(k) && DepthAllowed(l, KeyReach(k, depth))
  {
    if k.KeyWrapped? { KeySound(l, k.inner, depth + 1, b); }
  }

  lemma {:induction false} MapCallSound(l: Limits, call: MapCall, depth: nat, m: Members) returns (v: Option<Json>)
    requires !MapCallStep(l, call, depth, m).failed
    ensures var t := MapCallStep(l, call, depth, m);
            && !m.failed
            && match call
               case MapKey(key) =>
                 && m.pending.None? && KeyMeaning(key).Some? && t == m.(pending := KeyMeaning(key))
                 && DepthAllowed(l, KeyReach(key, depth))
               case MapValue(value) =>
                 && m.pending.Some? && v.Some? && v == Meaning(l.convert, value)
                 && var key := m.pending.value;
                 && key !in m.seen && t.pending.None?
                 && t.entries == m.entries + [(key, v.value)] && t.seen == m.seen + {key}
                 && Claimed(l, m.budget, t.budget, NodesOf(v.value), |key| + ClaimedBytes(value), NodesOf(v.value))
                 && (l.maxBytes.Some? ==> |key| <= MAX_CAPTURE_BYTES) && Bounded(l, Reach(value, depth), v.value)
    decreases call, 1
  {
    v := None;
    match call
    case MapKey(key) => KeySound(l, key, depth, m.budget);
    case MapValue(value) =>
      assert !m.failed && m.pending.Some?;
      var key := m.pending.value;
      InsertSound(l, key, value, depth, m.(pending := None));
      v := Capture(l, value, depth, ClaimVariant(l, m.budget, key).budget).value;
      hide Insert, Capture, NodesOf, ClaimedBytes, Meaning, Reach, ShortStrings;
  }

  lemma {:induction false} MapCallsSound(l: Limits, calls: seq<MapCall>, depth: nat, m: Members)
    returns (es: seq<(string, Json)>)
    requires var t := MapCalls(l, calls, depth, m); !t.failed && t.pending.None?
    ensures var t := MapCalls(l, calls, depth, m);
            && !m.failed && EntriesMeaning(l.convert, calls, m.pending) == Some(es) && t.entries == m.entries + es
            && Claimed(l, m.budget, t.budget, NodesOfEntries(es), CallsBytes(calls, m.pending), NodesOfEntries(es))
            && EntriesBounded(l, CallsReach(calls, depth), es) && FreshKeys(es, m.seen)
    decreases calls, 0
  {
    es := [];
    if calls != [] {
      var call := calls[0];
      assert (calls decreases to call);
      var next := MapCallStep(l, call, depth, m);
      var rest := MapCallsSound(l, calls[1..], depth, next);
      hide MapCalls, MapCallStep, Capture, FreshKeys, NodesOf, ClaimedBytes, Reach, ShortStrings, Meaning;
      var v := MapCallSound(l, call, depth, m);
      es := rest;
      if call.MapValue? {
        var entry := (m.pending.value, v.value);
        es := [entry] + rest;
        EntriesJoin(m.entries, entry, rest, m.seen);
        assert es[1..] == rest;
      }
    }
  }

  lemma {:induction false} StructSound(l: Limits, c: Caller, depth: nat, b: Budget)
    requires c.CallStruct?
    ensures Sound(l, c, depth, b, Capture(l, c, depth, b))
    decreases c.fields, 1
  {
    hide OpenCompound, Inserts, FreshKeys, DistinctKeys, EntriesBounded, NodesOfEntries, FieldsBytes, FieldsReach, FieldsMeaning;
    var r, open := Capture(l, c, depth, b), OpenCompound(l, b, c.variant, c.hint, depth);
    if r.value.Some? {
      var m, child := Members([], {}, None, false, open.budget), ChildDepth(c.variant, depth);
      var es := InsertsSound(l, c.fields, child, m);
      assert [] + es == es;
      NoSeenKeys(es);
      hide Claimed, Sound;
      ObjectSound(l, c, c.variant, c.hint, es, FieldsBytes(c.fields), FieldsReach(c.fields, child), depth, b, r);
    }
  }

  lemma {:induction false} MapSound(l: Limits, c: Caller, depth: nat, b: Budget)
    requires c.CallMap?
    ensures Sound(l, c, depth, b, Capture(l, c, depth, b))
    decreases c.calls, 1
  {
    hide OpenCompound, MapCalls, FreshKeys, DistinctKeys, EntriesBounded, NodesOfEntries, CallsBytes, CallsReach, EntriesMeaning;
    var r, open := Capture(l, c, depth, b), OpenCompound(l, b, None, c.hint, depth);
    if r.value.Some? {
      var m := Members([], {}, None, false, open.budget);
      var es := MapCallsSound(l, c.calls, depth + 1, m);
      assert [] + es == es;
      NoSeenKeys(es);
      hide Claimed, Sound;
      ObjectSound(l, c, None, c.hint, es, CallsBytes(c.calls, None), CallsReach(c.calls, depth + 1), depth, b, r);
    }
  }

  // ------------------------------------------- what the meaning says by itself

  lemma WrappedShape(variant: Option<string>, v: Json)
    ensures var w, t := WrapVariant(variant, v), if variant.Some? then 1 else 0;
            && StringBytes(w) == TagBytes(variant) + StringBytes(v) && DepthOf(w) == t + DepthOf(v)
            && (UniqueKeys(w) <==> UniqueKeys(v))
  {
    if variant.Some? {
      var es := [(variant.value, v)];
      assert es[1..] == [] && es[0] in es && forall e <- es :: e == (variant.value, v);
      assert EntriesBytes([]) == 0 && EntriesBytes(es) == |variant.value| + StringBytes(v) + EntriesBytes(es[1..]);
      assert DepthOfEntries([]) == 0 && DepthOfEntries(es) == Max(1 + DepthOf(v), DepthOfEntries(es[1..]));
    }
  }

  /** At most this many string bytes, at most this deep, and no name repeats. */
  predicate Shaped(v: Json, bytes: nat, deepest: int) {
    StringBytes(v) <= bytes && DepthOf(v) <= deepest && UniqueKeys(v)
  }

  lemma ArrayShape(vs: seq<Json>, bytes: nat, deepest: int)
    requires ItemsBytes(vs) <= bytes && DepthOfItems(vs) <= deepest && forall v <- vs :: UniqueKeys(v)
    ensures Shaped(Array(vs), bytes, deepest)
  {
  }

  lemma ObjectShape(es: seq<(string, Json)>, bytes: nat, deepest: int)
    requires EntriesBytes(es) <= bytes && DepthOfEntries(es) <= deepest && DistinctKeys(es) && forall e <- es :: UniqueKeys(e.1)
    ensures Shaped(Object(es), bytes, deepest)
  {
  }

  lemma LeafShape(convert: TypedNumber -> Option<CapturedNumber>, c: Caller, depth: nat)
    requires Meaning(convert, c).Some? && (c.CallNull? || c.CallBool? || c.CallNumber? || c.CallText?)
    ensures Reach(c, depth) == depth && Shaped(Meaning(convert, c).value, ClaimedBytes(c), 0)
  {
  }

  lemma {:induction false} MeaningShape(convert: TypedNumber -> Option<CapturedNumber>, c: Caller, depth: nat)
    requires Meaning(convert, c).Some?
    ensures Reach(c, depth) >= depth && Shaped(Meaning(convert, c).value, ClaimedBytes(c), Reach(c, depth) - depth)
    decreases c, 0
  {
    hide StringBytes, DepthOf, UniqueKeys, WrapVariant;
    match c
    case CallBytes(bytes) =>
      NumbersShape(ByteValues(bytes));
      ArrayShape(ByteValues(bytes), |bytes|, Reach(c, depth) - depth);
    case CallWrapped(inner) => MeaningShape(convert, inner, depth + 1);
    case CallVariant(tag, inner) =>
      MeaningShape(convert, inner, depth + 1);
      WrappedShape(Some(tag), Meaning(convert, inner).value);
    case CallSequence(_, variant, elements, _) =>
      var vs := ItemsMeaning(convert, elements).value;
      ElementsShape(convert, elements, ChildDepth(variant, depth));
      ArrayShape(vs, ElementsBytes(elements), DepthOfItems(vs));
      WrappedShape(variant, Array(vs));
    case CallMap(_, calls, _) =>
      var es := EntriesMeaning(convert, calls, None).value;
      CallsShape(convert, calls, None, depth + 1);
      ObjectShape(es, CallsBytes(calls, None), DepthOfEntries(es));
      WrappedShape(None, Object(es));
    case CallStruct(_, variant, fields, _) =>
      var es := FieldsMeaning(convert, fields).value;
      FieldsShape(convert, fields, ChildDepth(variant, depth));
      ObjectShape(es, FieldsBytes(fields), DepthOfEntries(es));
      WrappedShape(variant, Object(es));
    case _ => LeafShape(convert, c, depth);
  }

  lemma {:induction false} NumbersShape(vs: seq<Json>)
    requires forall v <- vs :: v.Number?
    ensures ItemsBytes(vs) == 0 && DepthOfItems(vs) == (if vs == [] then 0 else 1) && forall v <- vs :: UniqueKeys(v)
  {
    if vs != [] {
      assert vs[0] in vs && forall v <- vs[1..] :: v in vs;
      NumbersShape(vs[1..]);
    }
  }

  lemma {:induction false} ElementsShape(convert: TypedNumber -> Option<CapturedNumber>, elements: seq<Caller>, depth: nat)
    requires depth > 0 && ItemsMeaning(convert, elements).Some?
    ensures var vs := ItemsMeaning(convert, elements).value;
            && ItemsBytes(vs) <= ElementsBytes(elements) && (forall v <- vs :: UniqueKeys(v))
            && (vs == [] ==> DepthOfItems(vs) == 0)
            && (vs != [] ==> DepthOfItems(vs) + depth - 1 <= ElementsReach(elements, depth))
    decreases elements, 0
  {
    if elements != [] {
      MeaningShape(convert, elements[0], depth);
      ElementsShape(convert, elements[1..], depth);
      var vs := ItemsMeaning(convert, elements).value;
      assert vs[1..] == ItemsMeaning(convert, elements[1..]).value;
      hide Meaning, UniqueKeys, StringBytes, DepthOf, ClaimedBytes, Reach;
    }
  }

  lemma {:induction false} FieldsShape(convert: TypedNumber -> Option<CapturedNumber>, fields: seq<Field>, depth: nat)
    requires depth > 0 && FieldsMeaning(convert, fields).Some?
    ensures var es := FieldsMeaning(convert, fields).value;
            && EntriesBytes(es) <= FieldsBytes(fields) && (forall e <- es :: UniqueKeys(e.1))
            && (es == [] ==> DepthOfEntries(es) == 0)
            && (es != [] ==> DepthOfEntries(es) + depth - 1 <= FieldsReach(fields, depth))
    decreases fields, 0
  {
    if fields != [] {
      MeaningShape(convert, fields[0].value, depth);
      FieldsShape(convert, fields[1..], depth);
      var es := FieldsMeaning(convert, fields).value;
      assert es[1..] == FieldsMeaning(convert, fields[1..]).value;
      hide Meaning, UniqueKeys, StringBytes, DepthOf, ClaimedBytes, Reach;
    }
  }

  lemma {:induction false} CallsShape(convert: TypedNumber -> Option<CapturedNumber>, calls: seq<MapCall>,
                                      pending: Option<string>, depth: nat)
    requires depth > 0 && EntriesMeaning(convert, calls, pending).Some?
    ensures var es := EntriesMeaning(convert, calls, pending).value;
            && EntriesBytes(es) <= CallsBytes(calls, pending) && (forall e <- es :: UniqueKeys(e.1))
            && (es == [] ==> DepthOfEntries(es) == 0) && (es != [] ==> DepthOfEntries(es) + depth - 1 <= CallsReach(calls, depth))
    decreases calls, 0
  {
    if calls != [] {
      var call := calls[0];
      assert (calls decreases to call);
      var es := EntriesMeaning(convert, calls, pending).value;
      match call
      case MapKey(key) => CallsShape(convert, calls[1..], KeyMeaning(key), depth);
      case MapValue(value) =>
        assert (call decreases to value);
        MeaningShape(convert, value, depth);
        CallsShape(convert, calls[1..], None, depth);
        assert es[1..] == EntriesMeaning(convert, calls[1..], None).value;
        hide Meaning, UniqueKeys, StringBytes, DepthOf, ClaimedBytes, Reach;
    }
  }

  /** Main result: whatever the caller does, a returned tree is fully paid for, within every limit, and what it said. */
  lemma CapturedTreeIsPaidFor(l: Limits, c: Caller, v: Json)
    requires CaptureWithBudget(l, c) == Some(v)
    ensures Meaning(l.convert, c) == Some(v)
    ensures var spent := Capture(l, c, 0, Budget(0, 0, 0)).budget;
            spent.nodes == NodesOf(v) && spent.items == NodesOf(v) - 1 && spent.bytes == ClaimedBytes(c) >= StringBytes(v)
    ensures l.maxNodes.Some? ==> NodesOf(v) <= l.maxNodes.value
    ensures l.maxBytes.Some? ==>
              ClaimedBytes(c) <= l.maxBytes.value && DepthOf(v) <= Reach(c, 0) <= 128 && ShortStrings(v)
    ensures UniqueKeys(v)
  {
    hide Capture, NodesOf, StringBytes, Meaning, DepthOf, ShortStrings, UniqueKeys, ClaimedBytes, Reach;
    CaptureSound(l, c, 0, Budget(0, 0, 0));
    MeaningShape(l.convert, c, 0);
  }
}
