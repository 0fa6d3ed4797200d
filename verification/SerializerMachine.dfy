/** The budgeted serializer as the program runs it: shared counters and compound serializers that remember a failure. */
module SerializerMachine {
  import opened Common
  import opened JsonValue
  import opened Serializer

  class CaptureBudget {
    const limits: Limits
    var nodes: nat
    var bytes: nat
    var collectionItems: nat

    constructor (limits: Limits)
      ensures this.limits == limits && Spent() == Budget(0, 0, 0)
    {
      this.limits := limits;
      nodes, bytes, collectionItems := 0, 0, 0;
    }

    function Spent(): Budget
      reads this
    {
      Budget(nodes, bytes, collectionItems)
    }

    method ClaimNodeAt(depth: nat) returns (ok: bool)
      modifies this
      ensures Claim(ok, Spent()) == ClaimNode(limits, old(Spent()), depth)
    {
      if limits.maxBytes.Some? && depth > MAX_CAPTURE_DEPTH { return false; }
      if limits.maxNodes.Some? && nodes >= limits.maxNodes.value { return false; }
      nodes := nodes + 1;
      ok := true;
    }

    method ClaimCollectionItem() returns (ok: bool)
      modifies this
      ensures Claim(ok, Spent()) == ClaimItem(limits, old(Spent()))
    {
      if limits.maxNodes.Some? && collectionItems >= limits.maxNodes.value { return false; }
      collectionItems := collectionItems + 1;
      ok := true;
    }

    method EnsureBytes(count: nat) returns (ok: bool)
      ensures ok == BytesAllowed(limits, Spent(), count)
    {
      if limits.maxBytes.None? { return true; }
      var left := if limits.maxBytes.value >= bytes then limits.maxBytes.value - bytes else 0;
      ok := count <= left;
    }

    method EnsureStringBytes(count: nat) returns (ok: bool)
      ensures ok == StringAllowed(limits, Spent(), count)
    {
      if limits.maxBytes.Some? && count > MAX_CAPTURE_BYTES { return false; }
      ok := EnsureBytes(count);
    }

    method ClaimRawBytes(count: nat) returns (ok: bool)
      modifies this
      ensures Claim(ok, Spent()) == ClaimBytes(limits, old(Spent()), count)
    {
      ok := EnsureBytes(count);
      if ok { bytes := bytes + count; }
    }

    method ClaimStringBytes(count: nat) returns (ok: bool)
      modifies this
      ensures Claim(ok, Spent()) == ClaimString(limits, old(Spent()), count)
    {
      ok := EnsureStringBytes(count);
      if ok { ok := ClaimRawBytes(count); }
    }

    method ValidateSizeHint(hint: nat) returns (ok: bool)
      ensures ok == HintAllowed(limits, Spent(), hint)
    {
      if limits.maxNodes.None? { return true; }
      var left := if limits.maxNodes.value >= collectionItems then limits.maxNodes.value - collectionItems else 0;
      ok := hint <= left;
    }

    method ClaimTag(variant: string) returns (ok: bool)
      modifies this
      ensures Claim(ok, Spent()) == ClaimVariant(limits, old(Spent()), variant)
    {
      ok := ClaimCollectionItem();
      if ok { ok := ClaimStringBytes(|variant|); }
    }

    /** The claims of `serialize_seq`, `serialize_map`, `serialize_struct` and their variant forms. */
    method Open(variant: Option<string>, hint: nat, depth: nat) returns (ok: bool)
      modifies this
      ensures Claim(ok, Spent()) == OpenCompound(limits, old(Spent()), variant, hint, depth)
    {
      ok := ClaimNodeAt(depth);
      if ok && variant.Some? {
        ok := ClaimNodeAt(depth + 1);
        if ok { ok := ClaimTag(variant.value); }
      }
      if ok { ok := ValidateSizeHint(hint); }
    }
  }

  class SequenceCapture {
    const budget: CaptureBudget
    const childDepth: nat
    var values: seq<Json>
    const variant: Option<string>
    var failed: bool

    constructor (budget: CaptureBudget, childDepth: nat, variant: Option<string>)
      ensures this.budget == budget && this.childDepth == childDepth && this.variant == variant
      ensures State() == Sequence([], false, budget.Spent())
    {
      this.budget, this.childDepth, this.variant := budget, childDepth, variant;
      values, failed := [], false;
    }

    ghost function State(): Sequence
      reads this, budget
    {
      Sequence(values, failed, budget.Spent())
    }

    method PushValue(value: Caller) returns (ok: bool)
      modifies this, budget
      ensures State() == Push(budget.limits, value, childDepth, old(State())) && ok == !failed
      decreases value, 1
    {
      if failed { return false; }
      ok := budget.ClaimCollectionItem();
      if ok {
        var r := Serialize(budget, value, childDepth);
        if r.Some? { values := values + [r.value]; } else { ok := false; }
      }
      if !ok { failed := true; }
    }

    method Finish(ended: bool) returns (r: Option<Json>)
      ensures Outcome(r, budget.Spent()) == FinishSequence(State(), variant, ended)
    {
      r := if failed || !ended then None else Some(WrapVariant(variant, Array(values)));
    }
  }

  class ObjectCapture {
    const budget: CaptureBudget
    const childDepth: nat
    var entries: seq<(string, Json)>
    var seen: set<string>
    var pendingKey: Option<string>
    const variant: Option<string>
    var failed: bool

    constructor (budget: CaptureBudget, childDepth: nat, variant: Option<string>)
      ensures this.budget == budget && this.childDepth == childDepth && this.variant == variant
      ensures State() == Members([], {}, None, false, budget.Spent())
    {
      this.budget, this.childDepth, this.variant := budget, childDepth, variant;
      entries, seen, pendingKey, failed := [], {}, None, false;
    }

    ghost function State(): Members
      reads this, budget
    {
      Members(entries, seen, pendingKey, failed, budget.Spent())
    }

    method InsertValue(key: string, value: Caller) returns (ok: bool)
      modifies this, budget
      ensures State() == Insert(budget.limits, key, value, childDepth, old(State())) && ok == !failed
      decreases value, 1
    {
      if failed { return false; }
      ok := budget.ClaimTag(key);
      if ok && key !in seen {
        seen := seen + {key};
        var r := Serialize(budget, value, childDepth);
        ok := r.Some?;
        if ok { entries := entries + [(key, r.value)]; }
      } else {
        ok := false;
      }
      if !ok { failed := true; }
    }

    method SerializeKey(key: KeyCaller) returns (ok: bool)
      modifies this
      ensures State() == MapKeyCall(budget.limits, key, childDepth, old(State())) && ok == !failed
    {
      if failed || pendingKey.Some? {
        failed := true;
        return false;
      }
      var k := ReadKey(budget, key, childDepth);
      ok := k.Some?;
      if ok { pendingKey := k; } else { failed := true; }
    }

    method SerializeValue(value: Caller) returns (ok: bool)
      modifies this, budget
      ensures State() == MapValueCall(budget.limits, value, childDepth, old(State())) && ok == !failed
      decreases value, 2
    {
      if failed { return false; }
      if pendingKey.None? {
        failed := true;
        return false;
      }
      var key := pendingKey.value;
      pendingKey := None;
      ok := InsertValue(key, value);
    }

    method Finish(ended: bool) returns (r: Option<Json>)
      ensures Outcome(r, budget.Spent()) == FinishMembers(State(), variant, ended)
    {
      r := if failed || pendingKey.Some? || !ended then None else Some(WrapVariant(variant, Object(entries)));
    }
  }

  method ReadKey(budget: CaptureBudget, key: KeyCaller, depth: nat) returns (r: Option<string>)
    ensures r == KeyOf(budget.limits, key, depth, budget.Spent())
    decreases key
  {
    if budget.limits.maxBytes.Some? && depth > MAX_CAPTURE_DEPTH { return None; }
    match key
    case KeyText(s) =>
      var ok := budget.EnsureStringBytes(|s|);
      r := if ok then Some(s) else None;
    case KeyWrapped(inner) => r := ReadKey(budget, inner, depth + 1);
    case KeyRefused => r := None;
  }

  method SerializeScalar(budget: CaptureBudget, v: Option<Json>, depth: nat) returns (r: Option<Json>)
    modifies budget
    ensures Outcome(r, budget.Spent()) == CaptureScalar(budget.limits, v, depth, old(budget.Spent()))
  {
    var ok := budget.ClaimNodeAt(depth);
    r := if ok then v else None;
  }

  method SerializeText(budget: CaptureBudget, s: string, depth: nat) returns (r: Option<Json>)
    modifies budget
    ensures Outcome(r, budget.Spent()) == CaptureText(budget.limits, s, depth, old(budget.Spent()))
  {
    var ok := budget.ClaimNodeAt(depth);
    if ok { ok := budget.ClaimStringBytes(|s|); }
    r := if ok then Some(Text(s)) else None;
  }

  method SerializeBytes(budget: CaptureBudget, bytes: seq<Byte>, depth: nat) returns (r: Option<Json>)
    modifies budget
    ensures Outcome(r, budget.Spent()) == CaptureBytes(budget.limits, bytes, depth, old(budget.Spent()))
  {
    var ok := budget.ClaimNodeAt(depth);
    if ok { ok := budget.ValidateSizeHint(|bytes|); }
    if !ok { return None; }
    ok := budget.ClaimRawBytes(|bytes|);
    if !ok { return None; }
    var i := 0;
    ghost var claimed := ClaimByteItems(budget.limits, budget.Spent(), |bytes|, depth + 1);
    while i < |bytes|
      invariant 0 <= i <= |bytes|
      invariant ClaimByteItems(budget.limits, budget.Spent(), |bytes| - i, depth + 1) == claimed
    {
      ok := budget.ClaimCollectionItem();
      if !ok { return None; }
      ok := budget.ClaimNodeAt(depth + 1);
      if !ok { return None; }
      i := i + 1;
    }
    r := Some(Array(ByteValues(bytes)));
  }

  /** Lets `c` serialize itself at `depth`. */
  method Serialize(budget: CaptureBudget, c: Caller, depth: nat) returns (r: Option<Json>)
    modifies budget
    ensures Outcome(r, budget.Spent()) == Capture(budget.limits, c, depth, old(budget.Spent()))
    decreases c, 0
  {
    match c
    case CallNull => r := SerializeScalar(budget, Some(Null), depth);
    case CallBool(v) => r := SerializeScalar(budget, Some(Bool(v)), depth);
    case CallNumber(number) => r := SerializeScalar(budget, NumberValue(budget.limits.convert, number), depth);
    case CallText(s) => r := SerializeText(budget, s, depth);
    case CallBytes(bytes) => r := SerializeBytes(budget, bytes, depth);
    case CallWrapped(inner) => r := Serialize(budget, inner, depth + 1);
    case CallVariant(tag, inner) => r := SerializeVariant(budget, tag, inner, depth);
    case CallSequence(_, _, _, _) => r := SerializeSequence(budget, c, depth);
    case CallMap(_, _, _) => r := SerializeMap(budget, c, depth);
    case CallStruct(_, _, _, _) => r := SerializeStruct(budget, c, depth);
    case CallNothing => r := None;
    case CallThenFail(attempt) =>
      r := Serialize(budget, attempt, depth);
      r := None;
  }

  method SerializeVariant(budget: CaptureBudget, tag: string, inner: Caller, depth: nat) returns (r: Option<Json>)
    modifies budget
    ensures Outcome(r, budget.Spent()) == Capture(budget.limits, CallVariant(tag, inner), depth, old(budget.Spent()))
    decreases inner, 1
  {
    var ok := budget.ClaimNodeAt(depth);
    if ok { ok := budget.ClaimTag(tag); }
    if !ok { return None; }
    r := Serialize(budget, inner, depth + 1);
    if r.Some? { r := Some(WrapVariant(Some(tag), r.value)); }
  }

  method SerializeSequence(budget: CaptureBudget, c: Caller, depth: nat) returns (r: Option<Json>)
    requires c.CallSequence?
    modifies budget
    ensures Outcome(r, budget.Spent()) == Capture(budget.limits, c, depth, old(budget.Spent()))
    decreases c.elements, 2
  {
    var ok := budget.Open(c.variant, c.hint, depth);
    if !ok { return None; }
    var s := new SequenceCapture(budget, ChildDepth(c.variant, depth), c.variant);
    ghost var end := Pushes(budget.limits, c.elements, s.childDepth, s.State());
    var i := 0;
    assert c.elements[0..] == c.elements;
    while i < |c.elements|
      invariant 0 <= i <= |c.elements|
      invariant Pushes(budget.limits, c.elements[i..], s.childDepth, s.State()) == end
    {
      assert c.elements[i] in c.elements && c.elements[i..][1..] == c.elements[i + 1..];
      ok := s.PushValue(c.elements[i]);
      i := i + 1;
    }
    r := s.Finish(c.ended);
  }

  method SerializeMap(budget: CaptureBudget, c: Caller, depth: nat) returns (r: Option<Json>)
    requires c.CallMap?
    modifies budget
    ensures Outcome(r, budget.Spent()) == Capture(budget.limits, c, depth, old(budget.Spent()))
    decreases c.calls, 2
  {
    var ok := budget.Open(None, c.hint, depth);
    if !ok { return None; }
    var m := new ObjectCapture(budget, depth + 1, None);
    ghost var end := MapCalls(budget.limits, c.calls, m.childDepth, m.State());
    var i := 0;
    assert c.calls[0..] == c.calls;
    while i < |c.calls|
      invariant 0 <= i <= |c.calls|
      invariant MapCalls(budget.limits, c.calls[i..], m.childDepth, m.State()) == end
    {
      var call := c.calls[i];
      assert (c.calls decreases to call) && c.calls[i..][1..] == c.calls[i + 1..];
      match call {
        case MapKey(key) => ok := m.SerializeKey(key);
        case MapValue(value) => ok := m.SerializeValue(value);
      }
      i := i + 1;
    }
    r := m.Finish(c.ended);
  }

  method SerializeStruct(budget: CaptureBudget, c: Caller, depth: nat) returns (r: Option<Json>)
    requires c.CallStruct?
    modifies budget
    ensures Outcome(r, budget.Spent()) == Capture(budget.limits, c, depth, old(budget.Spent()))
    decreases c.fields, 2
  {
    var ok := budget.Open(c.variant, c.hint, depth);
    if !ok { return None; }
    var m := new ObjectCapture(budget, ChildDepth(c.variant, depth), c.variant);
    ghost var end := Inserts(budget.limits, c.fields, m.childDepth, m.State());
    var i := 0;
    assert c.fields[0..] == c.fields;
    while i < |c.fields|
      invariant 0 <= i <= |c.fields|
      invariant Inserts(budget.limits, c.fields[i..], m.childDepth, m.State()) == end
    {
      var field := c.fields[i];
      assert (c.fields decreases to field) && c.fields[i..][1..] == c.fields[i + 1..];
      ok := m.InsertValue(field.name, field.value);
      i := i + 1;
    }
    r := m.Finish(c.ended);
  }

  method CaptureTyped(limits: Limits, value: Caller) returns (r: Option<Json>)
    ensures r == CaptureWithBudget(limits, value)
  {
    var budget := new CaptureBudget(limits);
    r := Serialize(budget, value, 0);
  }
}
