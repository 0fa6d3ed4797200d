/** Durable event records, and the attestation that binds one to its producer. */
module Attestation {
  import opened Common
  import opened Framing

  type I64 = i: int | -0x8000_0000_0000_0000 <= i <= 0x7fff_ffff_ffff_ffff

  // ----------------------------------------------------------------- records

  const MAX_DURABLE_TENANT_ID_BYTES := 256
  const MAX_DURABLE_KEY_BYTES := 4096
  const MAX_DURABLE_PAYLOAD_BYTES := 16_777_216
  const MAX_DURABLE_HEADERS := 32
  const MAX_DURABLE_HEADER_VALUE_BYTES := 4096
  const MAX_TOPIC_BYTES := 249
  const MAX_HEADER_NAME_BYTES := 64

  datatype Header = Header(name: string, value: Bytes)

  datatype Record = Record(topic: Bytes, tenant: Bytes, key: Bytes, payload: Bytes, headers: seq<Header>)

  predicate IsAlphanumericByte(b: Byte) {
    48 <= b <= 57 || 65 <= b <= 90 || 97 <= b <= 122
  }

  predicate IsHeaderChar(c: char) {
    'a' <= c <= 'z' || '0' <= c <= '9' || c == '-' || c == '_'
  }

  /** Alphanumeric, `.`, `_` or `-`; not `.` or `..`. */
  predicate ValidTopic(topic: Bytes) {
    && topic != [] && topic != [46] && topic != [46, 46] && |topic| <= MAX_TOPIC_BYTES
    && forall b <- topic :: IsAlphanumericByte(b) || b == 46 || b == 95 || b == 45
  }

  /** The test `DurableEventHeader::new` makes. */
  predicate ValidHeader(h: Header) {
    && h.name != "" && |h.name| <= MAX_HEADER_NAME_BYTES && (forall c <- h.name :: IsHeaderChar(c))
    && h.value != [] && |h.value| <= MAX_DURABLE_HEADER_VALUE_BYTES
  }

  predicate DistinctNames(headers: seq<Header>) {
    forall i, j :: 0 <= i < j < |headers| ==> headers[i].name != headers[j].name
  }

  /** `clean` stands for: the bytes are UTF-8, without a control character, and without outer white space. */
  predicate ValidTenant(clean: Bytes -> bool, tenant: Bytes) {
    tenant != [] && |tenant| <= MAX_DURABLE_TENANT_ID_BYTES && clean(tenant)
  }

  predicate ValidRecord(clean: Bytes -> bool, r: Record) {
    && ValidTopic(r.topic) && ValidTenant(clean, r.tenant)
    && 0 < |r.key| <= MAX_DURABLE_KEY_BYTES && 0 < |r.payload| <= MAX_DURABLE_PAYLOAD_BYTES
    && |r.headers| <= MAX_DURABLE_HEADERS && DistinctNames(r.headers)
  }

  /** A record as the constructors can leave it: every header came from `DurableEventHeader::new`. */
  predicate WellMade(clean: Bytes -> bool, r: Record) {
    ValidRecord(clean, r) && forall h <- r.headers :: ValidHeader(h)
  }

  function WithHeaders(clean: Bytes -> bool, r: Record, headers: seq<Header>): Option<Record> {
    var replaced := r.(headers := headers);
    if ValidRecord(clean, replaced) then Some(replaced) else None
  }

  // ---------------------------------------------------------- reserved names

  datatype Slot = Version | Producer | Tenant | KeyId | EventId | IssuedAt | ExpiresAt | Signature

  function Name(s: Slot): string {
    match s
    case Version => "x-warpin-attestation-version"
    case Producer => "x-warpin-producer-service"
    case Tenant => "x-warpin-tenant-id"
    case KeyId => "x-warpin-signing-key-id"
    case EventId => "x-warpin-event-id"
    case IssuedAt => "x-warpin-issued-at-ms"
    case ExpiresAt => "x-warpin-expires-at-ms"
    case Signature => "x-warpin-signature-ed25519"
  }

  function Lower(c: char): char {
    if 'A' <= c <= 'Z' then c + 32 as char else c
  }

  predicate EqualIgnoringCase(a: string, b: string) {
    |a| == |b| && forall i :: 0 <= i < |a| ==> Lower(a[i]) == Lower(b[i])
  }

  /** The first reserved name that `name` equals but for case. */
  function FindReserved(name: string): Option<Slot> {
    if EqualIgnoringCase(name, Name(Version)) then Some(Version)
    else if EqualIgnoringCase(name, Name(Producer)) then Some(Producer)
    else if EqualIgnoringCase(name, Name(Tenant)) then Some(Tenant)
    else if EqualIgnoringCase(name, Name(KeyId)) then Some(KeyId)
    else if EqualIgnoringCase(name, Name(EventId)) then Some(EventId)
    else if EqualIgnoringCase(name, Name(IssuedAt)) then Some(IssuedAt)
    else if EqualIgnoringCase(name, Name(ExpiresAt)) then Some(ExpiresAt)
    else if EqualIgnoringCase(name, Name(Signature)) then Some(Signature)
    else None
  }

  predicate IsReserved(name: string) {
    exists s: Slot :: name == Name(s)
  }

  // -------------------------------------------------------------- statements

  const MAX_PRODUCER_SERVICE_BYTES := 128
  const MAX_KEY_ID_BYTES := 128
  const MAX_EVENT_ID_BYTES := 256
  const ED25519_PUBLIC_KEY_BYTES := 32
  const ED25519_PRIVATE_KEY_BYTES := 32
  const ED25519_SIGNATURE_BYTES := 64

  /** "1" */
  const ATTESTATION_VERSION: Bytes := [49]

  /** "warpin.durable-event-attestation.v1" */
  const DOMAIN_SEPARATOR: Bytes := [
    119, 97, 114, 112, 105, 110, 46, 100, 117, 114, 97, 98, 108, 101, 45, 101, 118, 101, 110, 116, 45, 97, 116, 116, 101, 115,
    116, 97, 116, 105, 111, 110, 46, 118, 49]

  predicate ValidIdentifier(id: Bytes, max: nat) {
    && id != [] && |id| <= max && IsAlphanumericByte(id[0])
    && forall b <- id :: IsAlphanumericByte(b) || b == 95 || b == 46 || b == 58 || b == 45
  }

  /** What a signature covers. */
  datatype Statement = Statement(topic: Bytes, tenant: Bytes, key: Bytes, payloadDigest: Bytes, producer: Bytes, keyId: Bytes,
                                 eventId: Bytes, issuedAt: I64, expiresAt: I64)

  function Fields(st: Statement): seq<Bytes> {
    [st.topic, st.tenant, st.key, st.payloadDigest, st.producer, st.keyId, st.eventId, I64Bytes(st.issuedAt),
     I64Bytes(st.expiresAt)]
  }

  /** `signing_projection`; it fails when a length overflows. */
  function Projection(st: Statement): Option<Bytes> {
    if |DOMAIN_SEPARATOR| + FramedLength(Fields(st)) >= U64_LIMIT then None else Some(DOMAIN_SEPARATOR + Frames(Fields(st)))
  }

  /** Ed25519 and SHA-256, by what they are used for; keys and messages are bytes. */
  datatype Scheme = Scheme(sign: (Bytes, Bytes) -> Bytes, verify: (Bytes, Bytes, Bytes) -> bool, publicKey: Bytes -> Bytes,
                           validKey: Bytes -> bool, digest: Bytes -> Bytes, clean: Bytes -> bool)

  // ------------------------------------------------------------------ attest

  /** A signer as its constructor leaves it. */
  datatype Signer = Signer(producer: Bytes, keyId: Bytes, secret: Bytes) {
    predicate Valid() {
      && ValidIdentifier(producer, MAX_PRODUCER_SERVICE_BYTES) && ValidIdentifier(keyId, MAX_KEY_ID_BYTES)
      && |secret| == ED25519_PRIVATE_KEY_BYTES
    }
  }

  datatype Request = Request(record: Record, eventId: Bytes, issuedAt: I64, expiresAt: I64)

  function StatementOf(scheme: Scheme, signer: Signer, q: Request): Statement {
    Statement(q.record.topic, q.record.tenant, q.record.key, scheme.digest(q.record.payload), signer.producer, signer.keyId,
              q.eventId, q.issuedAt, q.expiresAt)
  }

  /** What the eight headers carry. */
  datatype Attested = Attested(producer: Bytes, tenant: Bytes, keyId: Bytes, eventId: Bytes, issuedAt: I64, expiresAt: I64,
                               signature: Bytes)

  function AttestedBy(signer: Signer, q: Request, signature: Bytes): Attested {
    Attested(signer.producer, q.record.tenant, signer.keyId, q.eventId, q.issuedAt, q.expiresAt, signature)
  }

  function SlotValue(a: Attested, s: Slot): Bytes
    requires a.issuedAt >= 0 && a.expiresAt >= 0
  {
    match s
    case Version => ATTESTATION_VERSION
    case Producer => a.producer
    case Tenant => a.tenant
    case KeyId => a.keyId
    case EventId => a.eventId
    case IssuedAt => DecimalText(a.issuedAt)
    case ExpiresAt => DecimalText(a.expiresAt)
    case Signature => Hex(a.signature)
  }

  const SLOTS := [Version, Producer, Tenant, KeyId, EventId, IssuedAt, ExpiresAt, Signature]

  lemma SlotIndex(s: Slot) returns (k: nat)
    ensures k < 8 && SLOTS[k] == s
  {
    k := match s
      case Version => 0
      case Producer => 1
      case Tenant => 2
      case KeyId => 3
      case EventId => 4
      case IssuedAt => 5
      case ExpiresAt => 6
      case Signature => 7;
  }

  /** The eight headers, in the order they are pushed. */
  function AttestationHeaders(a: Attested): seq<Header>
    requires a.issuedAt >= 0 && a.expiresAt >= 0
  {
    seq(8, i requires 0 <= i < 8 => Header(Name(SLOTS[i]), SlotValue(a, SLOTS[i])))
  }

  predicate Attestable(q: Request) {
    && ValidIdentifier(q.eventId, MAX_EVENT_ID_BYTES) && 0 <= q.issuedAt < q.expiresAt
    && forall h <- q.record.headers :: !IsReserved(h.name)
  }

  ghost function Attest(scheme: Scheme, signer: Signer, q: Request): Option<Record> {
    if !Attestable(q) then None
    else
      match Projection(StatementOf(scheme, signer, q))
      case None => None
      case Some(message) =>
        var added := AttestationHeaders(AttestedBy(signer, q, scheme.sign(signer.secret, message)));
        if forall h <- added :: ValidHeader(h) then WithHeaders(scheme.clean, q.record, q.record.headers + added) else None
  }

  // ------------------------------------------------------------------ verify

  /** A header as the broker hands it over. */
  datatype RawHeader = RawHeader(name: string, value: Option<Bytes>)

  function CollectStep(m: map<Slot, Bytes>, h: RawHeader): Option<map<Slot, Bytes>> {
    match FindReserved(h.name)
    case None => Some(m)
    case Some(s) => if h.name != Name(s) || h.value.None? || s in m then None else Some(m[s := h.value.value])
  }

  /** `collect_reserved_headers`. */
  function Collect(hs: seq<RawHeader>): Option<map<Slot, Bytes>> {
    if hs == [] then Some(map[])
    else
      match Collect(hs[..|hs| - 1])
      case None => None
      case Some(m) => if |hs| > MAX_DURABLE_HEADERS then None else CollectStep(m, hs[|hs| - 1])
  }

  function ParseSignature(value: Bytes): Option<Bytes> {
    if |value| == 2 * ED25519_SIGNATURE_BYTES && forall b <- value :: IsHexByte(b) then Some(Unhex(value)) else None
  }

  /** The values of the eight headers, if all are there and well formed. */
  function ParseHeaders(clean: Bytes -> bool, m: map<Slot, Bytes>): Option<Attested> {
    if !(forall s: Slot :: s in m) || m[Version] != ATTESTATION_VERSION then None
    else if !ValidIdentifier(m[Producer], MAX_PRODUCER_SERVICE_BYTES) || !ValidTenant(clean, m[Tenant])
            || !ValidIdentifier(m[KeyId], MAX_KEY_ID_BYTES) || !ValidIdentifier(m[EventId], MAX_EVENT_ID_BYTES)
    then None
    else
      var issuedAt, expiresAt, signature :=
        ParseTimestamp(m[IssuedAt]), ParseTimestamp(m[ExpiresAt]), ParseSignature(m[Signature]);
      if issuedAt.None? || expiresAt.None? || signature.None? then None
      else Some(Attested(m[Producer], m[Tenant], m[KeyId], m[EventId], issuedAt.value, expiresAt.value, signature.value))
  }

  datatype Delivery = Delivery(topic: Bytes, key: Bytes, payload: Bytes, headers: seq<RawHeader>)

  datatype Policy = Policy(maxValidity: I64, maxFutureSkew: I64) {
    predicate Valid() {
      maxValidity > 0 && maxFutureSkew >= 0
    }
  }

  type Keys = map<Bytes, map<Bytes, Bytes>>

  datatype Identity = Identity(producer: Bytes, keyId: Bytes, eventId: Bytes, tenant: Bytes, issuedAt: I64, expiresAt: I64)

  function SaturatingAdd(a: int, b: int): int {
    if a + b > I64_MAX then I64_MAX else a + b
  }

  /** The checks made after the signature, in order. */
  predicate ClockAllows(policy: Policy, issuedAt: int, expiresAt: int, now: int) {
    && expiresAt > issuedAt && issuedAt <= SaturatingAdd(now, policy.maxFutureSkew) && expiresAt > now
    && expiresAt - issuedAt <= policy.maxValidity
  }

  function ReceivedStatement(scheme: Scheme, d: Delivery, a: Attested): Statement {
    Statement(d.topic, a.tenant, d.key, scheme.digest(d.payload), a.producer, a.keyId, a.eventId, a.issuedAt, a.expiresAt)
  }

  predicate ValidTransport(d: Delivery, now: I64) {
    && ValidTopic(d.topic) && 0 < |d.key| <= MAX_DURABLE_KEY_BYTES && 0 < |d.payload| <= MAX_DURABLE_PAYLOAD_BYTES
    && now >= 0
  }

  /** The key lookup, the signature and the clock. */
  function Authenticate(scheme: Scheme, policy: Policy, keys: Keys, d: Delivery, a: Attested, now: I64): Option<Identity> {
    if a.producer !in keys || a.keyId !in keys[a.producer] then None
    else
      match Projection(ReceivedStatement(scheme, d, a))
      case None => None
      case Some(message) =>
        if !scheme.verify(keys[a.producer][a.keyId], message, a.signature) then None
        else if !ClockAllows(policy, a.issuedAt, a.expiresAt, now) then None
        else Some(Identity(a.producer, a.keyId, a.eventId, a.tenant, a.issuedAt, a.expiresAt))
  }

  function Verify(scheme: Scheme, policy: Policy, keys: Keys, d: Delivery, now: I64): Option<Identity> {
    if !ValidTransport(d, now) then None
    else
      match Collect(d.headers)
      case None => None
      case Some(m) =>
        match ParseHeaders(scheme.clean, m)
        case None => None
        case Some(a) => Authenticate(scheme, policy, keys, d, a, now)
  }

  /** `insert_verifying_key`; a key that is present is never replaced. */
  function InsertKey(scheme: Scheme, keys: Keys, producer: Bytes, keyId: Bytes, key: Bytes): Option<Keys> {
    if !ValidIdentifier(producer, MAX_PRODUCER_SERVICE_BYTES) || !ValidIdentifier(keyId, MAX_KEY_ID_BYTES)
       || |key| != ED25519_PUBLIC_KEY_BYTES || !scheme.validKey(key)
    then None
    else
      var known := if producer in keys then keys[producer] else map[];
      if keyId in known then None else Some(keys[producer := known[keyId := key]])
  }
}
