/** Capturing a captured value again gives it back, exactly when it fits the limits. */
module SerializerRoundTrip {
  import opened Common
  import opened JsonValue
  import opened Lexeme
  import opened Serializer
  import opened SerializerProofs
  import opened SerializerCompleteness

  function CallOf(n: CapturedNumber): TypedNumber {
    match n
    case I64(i) => Signed(i)
    case U64(k) => Unsigned(k)
    case F64(r) => Float(r)
  }

  /** The calls a captured value makes when it is serialized itself. */
  function Faithful(v: Json): Caller
    decreases v
  {
    match v
    case Null => CallNull
    case Bool(b) => CallBool(b)
    case Number(n) => CallNumber(CallOf(n))
    case Text(s) => CallText(s)
    case Array(items) => CallSequence(|items|, None, FaithfulItems(items), true)
    case Object(entries) => CallMap(|entries|, FaithfulEntries(entries), true)
  }

  function FaithfulItems(items: seq<Json>): seq<Caller>
    decreases items
  {
    if items == [] then [] else [Faithful(items[0])] + FaithfulItems(items[1..])
  }

  function FaithfulEntries(entries: seq<(string, Json)>): seq<MapCall>
    decreases entries
  {
    if entries == [] then []
    else
      var e := entries[0];
      assert (entries decreases to e) && (e decreases to e.1);
      [MapKey(KeyText(e.0)), MapValue(Faithful(e.1))] + FaithfulEntries(entries[1..])
  }

  /** Every number of the value is one its own typed call gives back. */
  predicate NumbersKept(convert: TypedNumber -> Option<CapturedNumber>, v: Json) {
    match v
    case Number(n) => convert(CallOf(n)) == Some(n)
    case Array(items) => forall item <- items :: NumbersKept(convert, item)
    case Object(entries) => forall e <- entries :: NumbersKept(convert, e.1)
    case _ => true
  }

  // -------------------------------------------------------------------- cost

  /** A captured value announces true lengths, claims exactly its string bytes, and reaches exactly its depth. */
  lemma {:induction false} FaithfulCost(v: Json, depth: nat)
    ensures var c := Faithful(v); Truthful(c) && ClaimedBytes(c) == StringBytes(v) && Reach(c, depth) == depth + DepthOf(v)
    decreases v, 0
  {
    match v
    case Array(items) => FaithfulItemsCost(items, depth + 1);
    case Object(entries) => FaithfulEntriesCost(entries, depth + 1);
    case _ =>
  }

  lemma {:induction false} FaithfulItemsCost(items: seq<Json>, depth: nat)
    requires depth > 0
    ensures var es := FaithfulItems(items);
            && |es| == |items| && (forall e <- es :: Truthful(e)) && ElementsBytes(es) == ItemsBytes(items)
            && ElementsReach(es, depth) == if items == [] then 0 else depth - 1 + DepthOfItems(items)
    decreases items, 0
  {
    if items != [] {
      FaithfulCost(items[0], depth);
      FaithfulItemsCost(items[1..], depth);
      var es := FaithfulItems(items);
      assert es[1..] == FaithfulItems(items[1..]) && es[0] == Faithful(items[0]);
      assert forall e <- es :: e == es[0] || e in es[1..];
      hide Faithful, ClaimedBytes, Reach, Truthful, StringBytes, DepthOf;
    }
  }

  lemma {:induction false} FaithfulEntriesCost(entries: seq<(string, Json)>, depth: nat)
    requires depth > 0
    ensures var calls := FaithfulEntries(entries);
            && Entries(calls) == |entries| && (forall x <- calls :: x.MapValue? ==> Truthful(x.value))
            && CallsBytes(calls, None) == EntriesBytes(entries)
            && CallsReach(calls, depth) == if entries == [] then 0 else depth - 1 + DepthOfEntries(entries)
    decreases entries, 0
  {
    if entries != [] {
      var e, calls := entries[0], FaithfulEntries(entries);
      assert (entries decreases to e) && (e decreases to e.1);
      FaithfulCost(e.1, depth);
      FaithfulEntriesCost(entries[1..], depth);
      hide Faithful, ClaimedBytes, Reach, Truthful, StringBytes, DepthOf;
      assert calls[0] == MapKey(KeyText(e.0)) && calls[1] == MapValue(Faithful(e.1));
      assert calls[1..][0] == calls[1] && calls[1..][1..] == FaithfulEntries(entries[1..]);
      assert forall x <- calls :: x == calls[0] || x == calls[1] || x in calls[1..][1..];
      assert CallsBytes(calls, None) == CallsBytes(calls[1..], Some(e.0)) && Entries(calls) == Entries(calls[1..]);
      assert CallsReach(calls, depth) == Max(depth, CallsReach(calls[1..], depth));
    }
  }

  // ----------------------------------------------------------------- meaning

  lemma {:induction false} MeaningKeepsNumbers(convert: TypedNumber -> Option<CapturedNumber>, v: Json)
    requires Meaning(convert, Faithful(v)) == Some(v)
    ensures NumbersKept(convert, v)
    decreases v, 0
  {
    match v
    case Array(items) => ItemsMeaningKeeps(convert, items);
    case Object(entries) => EntriesMeaningKeeps(convert, entries);
    case _ =>
  }

  lemma {:induction false} ItemsMeaningKeeps(convert: TypedNumber -> Option<CapturedNumber>, vs: seq<Json>)
    requires ItemsMeaning(convert, FaithfulItems(vs)) == Some(vs)
    ensures forall v <- vs :: NumbersKept(convert, v)
    decreases vs, 0
  {
    if vs != [] {
      assert FaithfulItems(vs)[1..] == FaithfulItems(vs[1..]);
      var rest := ItemsMeaning(convert, FaithfulItems(vs[1..])).value;
      assert vs[1..] == rest;
      MeaningKeepsNumbers(convert, vs[0]);
      ItemsMeaningKeeps(convert, vs[1..]);
      assert forall v <- vs :: v == vs[0] || v in vs[1..];
    }
  }

  lemma {:induction false} EntriesMeaningKeeps(convert: TypedNumber -> Option<CapturedNumber>, es: seq<(string, Json)>)
    requires EntriesMeaning(convert, FaithfulEntries(es), None) == Some(es)
    ensures forall e <- es :: NumbersKept(convert, e.1)
    decreases es, 0
  {
    if es != [] {
      var e, calls := es[0], FaithfulEntries(es);
      assert (es decreases to e) && (e decreases to e.1);
      assert calls[1..][1..] == FaithfulEntries(es[1..]);
      assert EntriesMeaning(convert, calls, None) == EntriesMeaning(convert, calls[1..], Some(e.0));
      var rest := EntriesMeaning(convert, FaithfulEntries(es[1..]), None).value;
      assert es[1..] == rest;
      MeaningKeepsNumbers(convert, e.1);
      EntriesMeaningKeeps(convert, es[1..]);
      assert forall f <- es :: f == es[0] || f in es[1..];
    }
  }

  lemma {:induction false} KeptHasMeaning(convert: TypedNumber -> Option<CapturedNumber>, v: Json)
    requires NumbersKept(convert, v) && UniqueKeys(v)
    ensures Meaning(convert, Faithful(v)) == Some(v)
    decreases v, 0
  {
    match v
    case Array(items) => KeptItems(convert, items);
    case Object(entries) => KeptEntries(convert, entries);
    case _ =>
  }

  lemma {:induction false} KeptItems(convert: TypedNumber -> Option<CapturedNumber>, vs: seq<Json>)
    requires forall v <- vs :: NumbersKept(convert, v) && UniqueKeys(v)
    ensures ItemsMeaning(convert, FaithfulItems(vs)) == Some(vs)
    decreases vs, 0
  {
    if vs != [] {
      hide Meaning, Faithful, NumbersKept, UniqueKeys, ItemsMeaning, FaithfulItems;
      assert vs[0] in vs && forall v <- vs[1..] :: v in vs;
      KeptHasMeaning(convert, vs[0]);
      KeptItems(convert, vs[1..]);
      ItemsMeaningStep(convert, vs);
    }
  }

  lemma ItemsMeaningStep(convert: TypedNumber -> Option<CapturedNumber>, vs: seq<Json>)
    requires vs != [] && Meaning(convert, Faithful(vs[0])) == Some(vs[0])
    requires ItemsMeaning(convert, FaithfulItems(vs[1..])) == Some(vs[1..])
    ensures ItemsMeaning(convert, FaithfulItems(vs)) == Some(vs)
  {
    assert FaithfulItems(vs)[1..] == FaithfulItems(vs[1..]) && [vs[0]] + vs[1..] == vs;
    hide Meaning, Faithful;
  }

  lemma {:induction false} KeptEntries(convert: TypedNumber -> Option<CapturedNumber>, es: seq<(string, Json)>)
    requires forall e <- es :: NumbersKept(convert, e.1) && UniqueKeys(e.1)
    ensures EntriesMeaning(convert, FaithfulEntries(es), None) == Some(es)
    decreases es, 0
  {
    if es != [] {
      var e, calls := es[0], FaithfulEntries(es);
      assert (es decreases to e) && (e decreases to e.1) && e in es && forall f <- es[1..] :: f in es;
      KeptHasMeaning(convert, e.1);
      KeptEntries(convert, es[1..]);
      assert calls[1..][1..] == FaithfulEntries(es[1..]) && calls[1..][0] == MapValue(Faithful(e.1));
      assert EntriesMeaning(convert, calls, None) == EntriesMeaning(convert, calls[1..], Some(e.0));
      assert (e.0, e.1) == e && [e] + es[1..] == es;
    }
  }

  // ------------------------------------------------------------ main results

  predicate ValueFits(l: Limits, v: Json) {
    && (l.maxNodes.Some? ==> NodesOf(v) <= l.maxNodes.value)
    && (l.maxBytes.Some? ==> StringBytes(v) <= l.maxBytes.value && DepthOf(v) <= 128 && ShortStrings(v))
  }

  /** A value survives its own serialization exactly when it is within the limits. */
  lemma FaithfulIff(l: Limits, v: Json)
    ensures CaptureWithBudget(l, Faithful(v)) == Some(v) <==> ValueFits(l, v) && UniqueKeys(v) && NumbersKept(l.convert, v)
  {
    hide CaptureWithBudget, Meaning, Faithful, NumbersKept, UniqueKeys, NodesOf, StringBytes, DepthOf, ShortStrings, Truthful,
      ClaimedBytes, Reach;
    FaithfulCost(v, 0);
    CaptureIff(l, Faithful(v), v);
    if Meaning(l.convert, Faithful(v)) == Some(v) {
      MeaningKeepsNumbers(l.convert, v);
      MeaningShape(l.convert, Faithful(v), 0);
    }
    if NumbersKept(l.convert, v) && UniqueKeys(v) { KeptHasMeaning(l.convert, v); }
  }

  /** Numbers that were converted once convert to themselves, and so do bytes. */
  ghost predicate Stable(convert: TypedNumber -> Option<CapturedNumber>) {
    && (forall x: TypedNumber :: convert(x).Some? ==> convert(CallOf(convert(x).value)) == convert(x))
    && (forall k: nat :: k < 256 ==> convert(Unsigned(k)) == Some(U64(k)))
  }

  lemma {:induction false} NumbersOfMeaning(convert: TypedNumber -> Option<CapturedNumber>, c: Caller)
    requires Stable(convert) && Meaning(convert, c).Some?
    ensures NumbersKept(convert, Meaning(convert, c).value)
    decreases c, 0
  {
    match c
    case CallWrapped(inner) => NumbersOfMeaning(convert, inner);
    case CallVariant(tag, inner) => NumbersOfMeaning(convert, inner);
    case CallSequence(_, variant, elements, _) => NumbersOfItems(convert, elements);
    case CallMap(_, calls, _) => NumbersOfEntries(convert, calls, None);
    case CallStruct(_, variant, fields, _) => NumbersOfFields(convert, fields);
    case _ =>
  }

  lemma {:induction false} NumbersOfItems(convert: TypedNumber -> Option<CapturedNumber>, elements: seq<Caller>)
    requires Stable(convert) && ItemsMeaning(convert, elements).Some?
    ensures forall v <- ItemsMeaning(convert, elements).value :: NumbersKept(convert, v)
    decreases elements, 0
  {
    if elements != [] {
      NumbersOfMeaning(convert, elements[0]);
      NumbersOfItems(convert, elements[1..]);
    }
  }

  lemma {:induction false} NumbersOfFields(convert: TypedNumber -> Option<CapturedNumber>, fields: seq<Field>)
    requires Stable(convert) && FieldsMeaning(convert, fields).Some?
    ensures forall e <- FieldsMeaning(convert, fields).value :: NumbersKept(convert, e.1)
    decreases fields, 0
  {
    if fields != [] {
      NumbersOfMeaning(convert, fields[0].value);
      NumbersOfFields(convert, fields[1..]);
    }
  }

  lemma {:induction false} NumbersOfEntries(convert: TypedNumber -> Option<CapturedNumber>, calls: seq<MapCall>,
                                            pending: Option<string>)
    requires Stable(convert) && EntriesMeaning(convert, calls, pending).Some?
    ensures forall e <- EntriesMeaning(convert, calls, pending).value :: NumbersKept(convert, e.1)
    decreases calls, 0
  {
    if calls != [] {
      var call := calls[0];
      assert (calls decreases to call);
      match call
      case MapKey(key) => NumbersOfEntries(convert, calls[1..], KeyMeaning(key));
      case MapValue(value) =>
        assert (call decreases to value);
        NumbersOfMeaning(convert, value);
        NumbersOfEntries(convert, calls[1..], None);
    }
  }

  /** Capturing is idempotent: whatever was captured once is captured again, unchanged, within the same limits. */
  lemma CaptureIsIdempotent(l: Limits, c: Caller, v: Json)
    requires Stable(l.convert) && CaptureWithBudget(l, c) == Some(v)
    ensures CaptureWithBudget(l, Faithful(v)) == Some(v)
  {
    hide CaptureWithBudget, Meaning, Faithful, NumbersKept, UniqueKeys, NodesOf, StringBytes, DepthOf, ShortStrings, Stable,
      ClaimedBytes, Reach;
    CapturedTreeIsPaidFor(l, c, v);
    NumbersOfMeaning(l.convert, c);
    FaithfulIff(l, v);
  }
}
