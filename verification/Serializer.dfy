/** The budgeted serializer, as a function from a caller's behaviour to a value and a new budget. */
module Serializer {
  import opened Common
  import opened JsonValue
  import opened Lexeme

  const MAX_CAPTURE_DEPTH := 128
  const MAX_CAPTURE_BYTES := 1_048_576

  // ----------------------------------------------------------------- callers

  datatype TypedNumber = Signed(i: int) | Unsigned(n: nat) | Float(r: real) | NonFinite

  /**
   * The calls a value makes on the serializer it is given. Each serializer is consumed by one call, a compound
   * serializer takes any number of calls, and nothing obliges the caller to stop at an error, to alternate keys with
   * values, to give a true length, or to finish. What a caller does may depend on earlier results, which earlier calls
   * determine, so every run is the run of one such tree.
   */
  datatype Caller =
    | CallNull
    | CallBool(b: bool)
    | CallNumber(number: TypedNumber)
    | CallText(s: string)
    | CallBytes(bytes: seq<Byte>)
    | CallWrapped(inner: Caller)
    | CallVariant(tag: string, inner: Caller)
    | CallSequence(hint: nat, variant: Option<string>, elements: seq<Caller>, ended: bool)
    | CallMap(hint: nat, calls: seq<MapCall>, ended: bool)
    | CallStruct(hint: nat, variant: Option<string>, fields: seq<Field>, ended: bool)
    | CallNothing
    | CallThenFail(attempt: Caller)

  datatype MapCall = MapKey(key: KeyCaller) | MapValue(value: Caller)

  datatype Field = Field(name: string, value: Caller)

  /** Strings, characters, booleans and integers become text; wrappers go one level down; the rest is refused. */
  datatype KeyCaller = KeyText(s: string) | KeyWrapped(inner: KeyCaller) | KeyRefused

  // ------------------------------------------------------------------ budget

  /** `convert` stands for the profile's treatment of typed numbers. */
  datatype Limits = Limits(maxBytes: Option<nat>, maxNodes: Option<nat>, convert: TypedNumber -> Option<CapturedNumber>)

  datatype Budget = Budget(nodes: nat, bytes: nat, items: nat)

  datatype Claim = Claim(ok: bool, budget: Budget)

  predicate DepthAllowed(l: Limits, depth: nat) {
    l.maxBytes.Some? ==> depth <= MAX_CAPTURE_DEPTH
  }

  predicate BytesAllowed(l: Limits, b: Budget, bytes: nat) {
    l.maxBytes.Some? ==> bytes <= if l.maxBytes.value >= b.bytes then l.maxBytes.value - b.bytes else 0
  }

  predicate StringAllowed(l: Limits, b: Budget, bytes: nat) {
    (l.maxBytes.Some? ==> bytes <= MAX_CAPTURE_BYTES) && BytesAllowed(l, b, bytes)
  }

  predicate HintAllowed(l: Limits, b: Budget, hint: nat) {
    l.maxNodes.Some? ==> hint <= if l.maxNodes.value >= b.items then l.maxNodes.value - b.items else 0
  }

  function ClaimNode(l: Limits, b: Budget, depth: nat): Claim {
    if DepthAllowed(l, depth) && (l.maxNodes.Some? ==> b.nodes < l.maxNodes.value)
    then Claim(true, b.(nodes := b.nodes + 1)) else Claim(false, b)
  }

  function ClaimItem(l: Limits, b: Budget): Claim {
    if l.maxNodes.Some? ==> b.items < l.maxNodes.value then Claim(true, b.(items := b.items + 1)) else Claim(false, b)
  }

  function ClaimBytes(l: Limits, b: Budget, bytes: nat): Claim {
    if BytesAllowed(l, b, bytes) then Claim(true, b.(bytes := b.bytes + bytes)) else Claim(false, b)
  }

  function ClaimString(l: Limits, b: Budget, bytes: nat): Claim {
    if StringAllowed(l, b, bytes) then Claim(true, b.(bytes := b.bytes + bytes)) else Claim(false, b)
  }

  // ----------------------------------------------------------------- capture

  datatype Outcome = Outcome(value: Option<Json>, budget: Budget)

  /** A sequence serializer in use. */
  datatype Sequence = Sequence(values: seq<Json>, failed: bool, budget: Budget)

  /** An object serializer in use. */
  datatype Members =
    Members(entries: seq<(string, Json)>, seen: set<string>, pending: Option<string>, failed: bool, budget: Budget)

  function WrapVariant(variant: Option<string>, v: Json): Json {
    if variant.Some? then Object([(variant.value, v)]) else v
  }

  function CaptureScalar(l: Limits, v: Option<Json>, depth: nat, b: Budget): Outcome {
    var node := ClaimNode(l, b, depth);
    if node.ok then Outcome(v, node.budget) else Outcome(None, b)
  }

  function CaptureText(l: Limits, s: string, depth: nat, b: Budget): Outcome {
    var node := ClaimNode(l, b, depth);
    if !node.ok then Outcome(None, node.budget)
    else
      var text := ClaimString(l, node.budget, |s|);
      Outcome(if text.ok then Some(Text(s)) else None, text.budget)
  }

  /** One item and one node for each byte still to come. */
  function ClaimByteItems(l: Limits, b: Budget, count: nat, depth: nat): Claim
    decreases count
  {
    if count == 0 then Claim(true, b)
    else
      var item := ClaimItem(l, b);
      if !item.ok then item
      else
        var node := ClaimNode(l, item.budget, depth);
        if !node.ok then node else ClaimByteItems(l, node.budget, count - 1, depth)
  }

  function ByteValues(bytes: seq<Byte>): seq<Json> {
    seq(|bytes|, i requires 0 <= i < |bytes| => Number(U64(bytes[i])))
  }

  function CaptureBytes(l: Limits, bytes: seq<Byte>, depth: nat, b: Budget): Outcome {
    var node := ClaimNode(l, b, depth);
    if !node.ok || !HintAllowed(l, node.budget, |bytes|) then Outcome(None, node.budget)
    else
      var claimed := ClaimBytes(l, node.budget, |bytes|);
      if !claimed.ok then Outcome(None, claimed.budget)
      else
        var items := ClaimByteItems(l, claimed.budget, |bytes|, depth + 1);
        Outcome(if items.ok then Some(Array(ByteValues(bytes))) else None, items.budget)
  }

  /** The claims for the one entry of an externally tagged variant. */
  function ClaimVariant(l: Limits, b: Budget, variant: string): Claim {
    var item := ClaimItem(l, b);
    if item.ok then ClaimString(l, item.budget, |variant|) else item
  }

  /** The claims before a compound serializer exists. */
  function OpenCompound(l: Limits, b: Budget, variant: Option<string>, hint: nat, depth: nat): Claim {
    var node := ClaimNode(l, b, depth);
    var tag :=
      if !node.ok || variant.None? then node
      else
        var inner := ClaimNode(l, node.budget, depth + 1);
        if inner.ok then ClaimVariant(l, inner.budget, variant.value) else inner;
    if tag.ok && !HintAllowed(l, tag.budget, hint) then Claim(false, tag.budget) else tag
  }

  function ChildDepth(variant: Option<string>, depth: nat): nat {
    if variant.Some? then depth + 2 else depth + 1
  }

  function Capture(l: Limits, c: Caller, depth: nat, b: Budget): Outcome
    decreases c, 0
  {
    match c
    case CallNull => CaptureScalar(l, Some(Null), depth, b)
    case CallBool(v) => CaptureScalar(l, Some(Bool(v)), depth, b)
    case CallNumber(number) => CaptureScalar(l, NumberValue(l.convert, number), depth, b)
    case CallText(s) => CaptureText(l, s, depth, b)
    case CallBytes(bytes) => CaptureBytes(l, bytes, depth, b)
    case CallWrapped(inner) => Capture(l, inner, depth + 1, b)
    case CallVariant(tag, inner) =>
      var node := ClaimNode(l, b, depth);
      var claimed := if node.ok then ClaimVariant(l, node.budget, tag) else node;
      if !claimed.ok then Outcome(None, claimed.budget)
      else
        var r := Capture(l, inner, depth + 1, claimed.budget);
        if r.value.Some? then Outcome(Some(WrapVariant(Some(tag), r.value.value)), r.budget) else r
    case CallSequence(hint, variant, elements, ended) =>
      var open := OpenCompound(l, b, variant, hint, depth);
      if !open.ok then Outcome(None, open.budget)
      else FinishSequence(Pushes(l, elements, ChildDepth(variant, depth), Sequence([], false, open.budget)), variant, ended)
    case CallMap(hint, calls, ended) =>
      var open := OpenCompound(l, b, None, hint, depth);
      if !open.ok then Outcome(None, open.budget)
      else FinishMembers(MapCalls(l, calls, depth + 1, Members([], {}, None, false, open.budget)), None, ended)
    case CallStruct(hint, variant, fields, ended) =>
      var open := OpenCompound(l, b, variant, hint, depth);
      if !open.ok then Outcome(None, open.budget)
      else
        var m := Inserts(l, fields, ChildDepth(variant, depth), Members([], {}, None, false, open.budget));
        FinishMembers(m, variant, ended)
    case CallNothing => Outcome(None, b)
    case CallThenFail(attempt) => Capture(l, attempt, depth, b).(value := None)
  }

  function NumberValue(convert: TypedNumber -> Option<CapturedNumber>, number: TypedNumber): Option<Json> {
    match convert(number) case Some(n) => Some(Number(n)) case None => None
  }

  function FinishSequence(s: Sequence, variant: Option<string>, ended: bool): Outcome {
    Outcome(if s.failed || !ended then None else Some(WrapVariant(variant, Array(s.values))), s.budget)
  }

  function FinishMembers(m: Members, variant: Option<string>, ended: bool): Outcome {
    Outcome(if m.failed || m.pending.Some? || !ended then None else Some(WrapVariant(variant, Object(m.entries))), m.budget)
  }

  /** `SequenceCapture::push`: a failure is remembered, and nothing is captured after it. */
  function Push(l: Limits, c: Caller, depth: nat, s: Sequence): Sequence
    decreases c, 1
  {
    if s.failed then s
    else
      var item := ClaimItem(l, s.budget);
      if !item.ok then s.(failed := true)
      else
        var r := Capture(l, c, depth, item.budget);
        if r.value.None? then s.(failed := true, budget := r.budget)
        else s.(values := s.values + [r.value.value], budget := r.budget)
  }

  function Pushes(l: Limits, elements: seq<Caller>, depth: nat, s: Sequence): Sequence
    decreases elements
  {
    if elements == [] then s else Pushes(l, elements[1..], depth, Push(l, elements[0], depth, s))
  }

  /** `ObjectCapture::insert`. */
  function Insert(l: Limits, key: string, c: Caller, depth: nat, m: Members): Members
    decreases c, 1
  {
    if m.failed then m
    else
      var entry := ClaimVariant(l, m.budget, key);
      if !entry.ok || key in m.seen then m.(failed := true, budget := entry.budget)
      else
        var r, seen := Capture(l, c, depth, entry.budget), m.seen + {key};
        if r.value.None? then m.(failed := true, seen := seen, budget := r.budget)
        else m.(entries := m.entries + [(key, r.value.value)], seen := seen, budget := r.budget)
  }

  function Inserts(l: Limits, fields: seq<Field>, depth: nat, m: Members): Members
    decreases fields
  {
    if fields == [] then m
    else Inserts(l, fields[1..], depth, Insert(l, fields[0].name, fields[0].value, depth, m))
  }

  /** `MapKeySerializer`: the text of a key, checked against the limits but not yet claimed. */
  function KeyOf(l: Limits, k: KeyCaller, depth: nat, b: Budget): Option<string> {
    if !DepthAllowed(l, depth) then None
    else
      match k
      case KeyText(s) => if StringAllowed(l, b, |s|) then Some(s) else None
      case KeyWrapped(inner) => KeyOf(l, inner, depth + 1, b)
      case KeyRefused => None
  }

  function MapKeyCall(l: Limits, k: KeyCaller, depth: nat, m: Members): Members {
    if m.failed || m.pending.Some? then m.(failed := true)
    else
      var key := KeyOf(l, k, depth, m.budget);
      if key.None? then m.(failed := true) else m.(pending := key)
  }

  function MapValueCall(l: Limits, c: Caller, depth: nat, m: Members): Members
    decreases c, 2
  {
    if m.failed then m
    else if m.pending.None? then m.(failed := true)
    else Insert(l, m.pending.value, c, depth, m.(pending := None))
  }

  function MapCallStep(l: Limits, call: MapCall, depth: nat, m: Members): Members
    decreases call
  {
    match call
    case MapKey(key) => MapKeyCall(l, key, depth, m)
    case MapValue(value) => MapValueCall(l, value, depth, m)
  }

  function MapCalls(l: Limits, calls: seq<MapCall>, depth: nat, m: Members): Members
    decreases calls
  {
    if calls == [] then m else MapCalls(l, calls[1..], depth, MapCallStep(l, calls[0], depth, m))
  }

  /** `capture_with_byte_budget`. */
  function CaptureWithBudget(l: Limits, c: Caller): Option<Json> {
    Capture(l, c, 0, Budget(0, 0, 0)).value
  }
}
