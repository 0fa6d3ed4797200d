/** Verified reads and immutable writes over a create-only object store. */
module Storage {
  import opened Common
  import opened Identity

  datatype Error =
    | NotFound | Backend | SizeLimitExceeded | DigestMismatch | VersionMismatch
    | ImmutableConflict | InvalidMetadata | InvalidKey | EvidenceRejected

  datatype Result<+T> = Ok(value: T) | Err(error: Error)

  /** Limits and backend features. `hash` stands for SHA-256 in its textual form. */
  datatype StorageConfig = StorageConfig(
    hash: Bytes -> Digest,
    prefix: string,
    managed: bool,
    supportsAttributes: bool,
    maxObjectBytes: u64,
    maxStreamedBytes: u64)

  type Tag = Option<string>

  /** What fits into memory: lengths are 64-bit. */
  type Content = c: Bytes | |c| < U64_LIMIT

  datatype StoredObject = StoredObject(
    content: Content, contentType: Option<string>, declaredDigest: Option<string>, eTag: Tag, version: Tag)

  /** One item of a response body. */
  datatype Piece = Data(bytes: Bytes) | Broken

  /** What one `get_opts` call answered; nothing is assumed about it. */
  datatype GetReply =
    | Absent
    | Failed
    | Got(size: u64, contentType: Option<string>, declaredDigest: Option<string>, eTag: Tag, version: Tag,
          evidenceOk: bool, body: seq<Piece>)

  /** What one create-only `put_opts` call answered. */
  datatype PutReply = Created(eTag: Tag, version: Tag) | AlreadyExists | PutFailed

  datatype VerifiedObject = VerifiedObject(content: Bytes, contentType: Option<string>, eTag: Tag, version: Tag)

  datatype WriteReceipt = WriteReceipt(
    key: ObjectKey, context: Digest, size: u64, digest: Digest, eTag: Tag, version: Tag, replay: bool)

  datatype ImmutableWrite = ImmutableWrite(
    key: ObjectKey, context: Digest, content: Content, digest: Digest, contentType: string)

  // ---------------------------------------------------------------- reading

  /** The read loop: grow the buffer piece by piece, never beyond `limit`. */
  function Absorb(buffer: Bytes, body: seq<Piece>, limit: nat): Result<Bytes>
    decreases |body|
  {
    if body == [] then Ok(buffer)
    else if body[0].Broken? then Err(Backend)
    else if |buffer| + |body[0].bytes| > limit then Err(SizeLimitExceeded)
    else Absorb(buffer + body[0].bytes, body[1..], limit)
  }

  predicate Intact(body: seq<Piece>) {
    forall p <- body :: p.Data?
  }

  function Payload(body: seq<Piece>): Bytes
    requires Intact(body)
  {
    if body == [] then [] else body[0].bytes + Payload(body[1..])
  }

  /** The loop accepts exactly the unbroken bodies within the limit, and returns their bytes. */
  lemma {:induction false} AbsorbMeaning(buffer: Bytes, body: seq<Piece>, limit: nat)
    requires |buffer| <= limit
    ensures Absorb(buffer, body, limit).Ok? <==> Intact(body) && |buffer| + |Payload(body)| <= limit
    ensures Absorb(buffer, body, limit).Ok? ==> Absorb(buffer, body, limit).value == buffer + Payload(body)
    decreases |body|
  {
    if body == [] {
    } else if body[0].Data? {
      assert body == [body[0]] + body[1..];
      assert Intact(body) <==> Intact(body[1..]);
      if |buffer| + |body[0].bytes| <= limit {
        AbsorbMeaning(buffer + body[0].bytes, body[1..], limit);
        if Intact(body) {
          assert buffer + Payload(body) == buffer + body[0].bytes + Payload(body[1..]);
        }
      }
    } else {
      assert body[0] in body;
    }
  }

  predicate DeclaredDigestMatches(cfg: StorageConfig, declared: Option<string>, expected: Digest) {
    cfg.supportsAttributes ==> declared == Some(expected)
  }

  /** `read_verified_internal_bounded`, as a function of the backend's answer. */
  function ReadVerified(cfg: StorageConfig, expected: Digest, version: Tag, maxBytes: nat, reply: GetReply):
    Result<VerifiedObject>
  {
    match reply
    case Absent => Err(NotFound)
    case Failed => Err(Backend)
    case Got(size, contentType, declared, eTag, actualVersion, _, body) =>
      if size > Min(cfg.maxObjectBytes, maxBytes) then Err(SizeLimitExceeded)
      else if !DeclaredDigestMatches(cfg, declared, expected) then Err(DigestMismatch)
      else if version.Some? && actualVersion != version then Err(VersionMismatch)
      else
        match Absorb([], body, size)
        case Err(e) => Err(e)
        case Ok(content) =>
          if |content| != size || cfg.hash(content) != expected then Err(DigestMismatch)
          else Ok(VerifiedObject(content, contentType, eTag, actualVersion))
  }

  predicate NonEmptyTag(t: Tag) {
    t.Some? && t.value != ""
  }

  type TagLimit = Option<Positive>
  type Positive = n: nat | n > 0 witness 1

  predicate TagWithin(limit: TagLimit, t: Tag) {
    limit.Some? && t.Some? ==> |t.value| <= limit.value
  }

  /** Tags a managed store pins, none longer than the limit. */
  predicate ProperTags(cfg: StorageConfig, limit: TagLimit, eTag: Tag, version: Tag) {
    && TagWithin(limit, eTag) && TagWithin(limit, version)
    && (cfg.managed ==> NonEmptyTag(eTag) && NonEmptyTag(version))
  }

  /** `read_receipt_bounded`: the read must reproduce every field the receipt pins. */
  function ReadReceipt(cfg: StorageConfig, receipt: WriteReceipt, maxBytes: nat, reply: GetReply): Result<Bytes> {
    if receipt.size > maxBytes then Err(SizeLimitExceeded)
    else if cfg.managed && !(NonEmptyTag(receipt.version) && NonEmptyTag(receipt.eTag)) then Err(VersionMismatch)
    else
      match ReadVerified(cfg, receipt.digest, receipt.version, maxBytes, reply)
      case Err(e) => Err(e)
      case Ok(held) =>
        if held.eTag != receipt.eTag || held.version != receipt.version || |held.content| != receipt.size
        then Err(VersionMismatch)
        else if cfg.managed && !reply.evidenceOk then Err(EvidenceRejected)
        else Ok(held.content)
  }

  /** Whatever the backend answers, a released object has the pinned digest and size. */
  lemma ReadReceiptAuthentic(cfg: StorageConfig, receipt: WriteReceipt, maxBytes: nat, reply: GetReply)
    requires ReadReceipt(cfg, receipt, maxBytes, reply).Ok?
    ensures var bytes := ReadReceipt(cfg, receipt, maxBytes, reply).value;
            && cfg.hash(bytes) == receipt.digest && |bytes| == receipt.size <= maxBytes
            && reply.Got? && Intact(reply.body) && bytes == Payload(reply.body)
  {
    AbsorbMeaning([], reply.body, reply.size);
    assert Absorb([], reply.body, reply.size).value == Payload(reply.body);
  }

  /** Exactly when a pinned read releases `bytes`: everything the receipt pins is there, in size, digest, tags and evidence. */
  lemma ReadReceiptIff(cfg: StorageConfig, receipt: WriteReceipt, maxBytes: nat, reply: GetReply, bytes: Bytes)
    ensures ReadReceipt(cfg, receipt, maxBytes, reply) == Ok(bytes) <==>
            && reply.Got? && Intact(reply.body) && Payload(reply.body) == bytes
            && |bytes| == receipt.size == reply.size && |bytes| <= maxBytes && |bytes| <= cfg.maxObjectBytes
            && cfg.hash(bytes) == receipt.digest && reply.eTag == receipt.eTag && reply.version == receipt.version
            && (cfg.supportsAttributes ==> reply.declaredDigest == Some(receipt.digest))
            && (cfg.managed ==>
                  reply.evidenceOk && receipt.version !in {None, Some("")} && receipt.eTag !in {None, Some("")})
  {
    if reply.Got? {
      AbsorbMeaning([], reply.body, reply.size);
      if Intact(reply.body) { assert [] + Payload(reply.body) == Payload(reply.body); }
    }
  }

  // ---------------------------------------------------------- honest answers

  /** `reply` delivers exactly `object`, in pieces of any size. */
  predicate Delivers(held: StoredObject, reply: GetReply) {
    && reply.Got?
    && reply.size == |held.content|
    && reply.contentType == held.contentType && reply.declaredDigest == held.declaredDigest
    && reply.eTag == held.eTag && reply.version == held.version
    && reply.evidenceOk
    && Intact(reply.body) && Payload(reply.body) == held.content
  }

  /** The object delivered in one piece. */
  function DeliveryOf(held: StoredObject): (reply: GetReply)
    ensures Delivers(held, reply)
  {
    assert [Data(held.content)][1..] == [] && held.content + Payload([]) == held.content;
    Got(|held.content|, held.contentType, held.declaredDigest, held.eTag, held.version, true, [Data(held.content)])
  }

  /** The answer of a backend that holds `objects` and has one live version of each. */
  predicate HonestGet(objects: map<string, StoredObject>, location: string, version: Tag, reply: GetReply) {
    if location in objects && (version.Some? ==> objects[location].version == version)
    then Delivers(objects[location], reply)
    else reply.Absent?
  }

  /** A delivered object passes verification exactly when it fits and carries the expected identity. */
  lemma DeliveredVerifies(cfg: StorageConfig, held: StoredObject, expected: Digest, version: Tag, maxBytes: nat,
                          reply: GetReply)
    requires Delivers(held, reply)
    ensures ReadVerified(cfg, expected, version, maxBytes, reply) ==
            if |held.content| > Min(cfg.maxObjectBytes, maxBytes) then Err(SizeLimitExceeded)
            else if !DeclaredDigestMatches(cfg, held.declaredDigest, expected) then Err(DigestMismatch)
            else if version.Some? && held.version != version then Err(VersionMismatch)
            else if cfg.hash(held.content) != expected then Err(DigestMismatch)
            else Ok(VerifiedObject(held.content, held.contentType, held.eTag, held.version))
  {
    AbsorbMeaning([], reply.body, reply.size);
    assert [] + Payload(reply.body) == held.content;
  }

  /** `objects` holds an object that a later read of `receipt` accepts, apart from its length. */
  predicate Holds(cfg: StorageConfig, objects: map<string, StoredObject>, receipt: WriteReceipt) {
    var location := Location(cfg.prefix, receipt.context, receipt.key);
    && location in objects
    && var held := objects[location];
    && cfg.hash(held.content) == receipt.digest
    && |held.content| <= cfg.maxObjectBytes
    && DeclaredDigestMatches(cfg, held.declaredDigest, receipt.digest)
    && held.eTag == receipt.eTag && held.version == receipt.version
  }

  /** Round trip of one receipt on an honest store. */
  lemma HeldReceiptReads(cfg: StorageConfig, objects: map<string, StoredObject>, receipt: WriteReceipt, maxBytes: nat,
                         reply: GetReply)
    requires Holds(cfg, objects, receipt)
    requires HonestGet(objects, Location(cfg.prefix, receipt.context, receipt.key), receipt.version, reply)
    requires cfg.managed ==> NonEmptyTag(receipt.version) && NonEmptyTag(receipt.eTag)
    requires receipt.size <= maxBytes
    requires |objects[Location(cfg.prefix, receipt.context, receipt.key)].content| == receipt.size
    ensures ReadReceipt(cfg, receipt, maxBytes, reply) ==
            Ok(objects[Location(cfg.prefix, receipt.context, receipt.key)].content)
  {
    var held := objects[Location(cfg.prefix, receipt.context, receipt.key)];
    DeliveredVerifies(cfg, held, receipt.digest, receipt.version, maxBytes, reply);
  }

  /** Create-only stores grow: nothing present is ever replaced. */
  predicate Extends(before: map<string, StoredObject>, after: map<string, StoredObject>) {
    forall location <- before :: location in after && after[location] == before[location]
  }

  // ---------------------------------------------------------------- writing

  predicate ValidContentType(s: string) {
    && 0 < |s| <= 255
    && s[0] != ' ' && s[|s| - 1] != ' '
    && forall c <- s :: IsAlphanumeric(c) || c in "/+-.;= "
  }

  function WriteAccepted(cfg: StorageConfig, write: ImmutableWrite): Option<Error> {
    if !ValidContentType(write.contentType) then Some(InvalidMetadata)
    else if |write.content| > cfg.maxObjectBytes then Some(SizeLimitExceeded)
    else if cfg.hash(write.content) != write.digest then Some(DigestMismatch)
    else None
  }

  /** A write is accepted exactly for a proper content type, a content that is not too long, and its own digest. */
  lemma WriteAcceptedIff(cfg: StorageConfig, write: ImmutableWrite)
    ensures WriteAccepted(cfg, write).None? <==>
            && 1 <= |write.contentType| <= 255
            && write.contentType[0] != ' ' && write.contentType[|write.contentType| - 1] != ' '
            && (forall c <- write.contentType :: IsAlphanumeric(c) || c in " +-./;=")
            && |write.content| <= cfg.maxObjectBytes && cfg.hash(write.content) == write.digest
  {
  }

  function NewObject(cfg: StorageConfig, write: ImmutableWrite, eTag: Tag, version: Tag): StoredObject {
    if cfg.supportsAttributes
    then StoredObject(write.content, Some(write.contentType), Some(write.digest), eTag, version)
    else StoredObject(write.content, None, None, eTag, version)
  }

  /** How `put_immutable` turns the create and readback answers into its result. */
  function PutOutcome(cfg: StorageConfig, write: ImmutableWrite, put: PutReply, reply: GetReply): Result<WriteReceipt>
    requires WriteAccepted(cfg, write).None?
  {
    if put.PutFailed? then Err(Backend)
    else
      var replay := put.AlreadyExists?;
      var putETag: Tag := if replay then None else put.eTag;
      var putVersion: Tag := if replay then None else put.version;
      match ReadVerified(cfg, write.digest, putVersion, cfg.maxObjectBytes, reply)
      case Err(e) => Err(if replay && e == DigestMismatch then ImmutableConflict else e)
      case Ok(held) =>
        if putETag.Some? && putETag != held.eTag then Err(EvidenceRejected)
        else if putVersion.Some? && putVersion != held.version then Err(VersionMismatch)
        else if cfg.supportsAttributes && held.contentType != Some(write.contentType) then Err(ImmutableConflict)
        else if cfg.managed && !reply.evidenceOk then Err(EvidenceRejected)
        else Ok(WriteReceipt(write.key, write.context, |write.content|, write.digest,
                             held.eTag, held.version, replay))
  }

  /** Exactly when a write gets a receipt, and which: the backend serves the written content under what its put answered. */
  lemma PutOutcomeIff(cfg: StorageConfig, write: ImmutableWrite, put: PutReply, reply: GetReply, r: WriteReceipt)
    requires WriteAccepted(cfg, write).None?
    ensures PutOutcome(cfg, write, put, reply) == Ok(r) <==>
            && !put.PutFailed? && reply.Got? && Intact(reply.body)
            && |Payload(reply.body)| == reply.size <= cfg.maxObjectBytes && cfg.hash(Payload(reply.body)) == write.digest
            && (cfg.supportsAttributes ==>
                  reply.declaredDigest == Some(write.digest) && reply.contentType == Some(write.contentType))
            && (put.Created? ==> put.eTag in {None, reply.eTag} && put.version in {None, reply.version})
            && (cfg.managed ==> reply.evidenceOk)
            && r == WriteReceipt(write.key, write.context, |write.content|, write.digest, reply.eTag, reply.version,
                                 put.AlreadyExists?)
  {
    if reply.Got? {
      AbsorbMeaning([], reply.body, reply.size);
      if Intact(reply.body) { assert [] + Payload(reply.body) == Payload(reply.body); }
    }
  }

  /** The effect of a create-only put on an honest store, including a lost answer after the effect. */
  predicate HonestPut(cfg: StorageConfig, write: ImmutableWrite, location: string,
                      before: map<string, StoredObject>, put: PutReply, after: map<string, StoredObject>)
  {
    match put
    case Created(eTag, version) => location !in before && after == before[location := NewObject(cfg, write, eTag, version)]
    case AlreadyExists => location in before && after == before
    case PutFailed =>
      || after == before
      || (location !in before && location in after
          && after == before[location := NewObject(cfg, write, after[location].eTag, after[location].version)])
  }

  lemma NothingExtends(objects: map<string, StoredObject>)
    ensures Extends(objects, objects)
  {
  }

  lemma HonestPutExtends(cfg: StorageConfig, write: ImmutableWrite, location: string, before: map<string, StoredObject>,
                         put: PutReply, after: map<string, StoredObject>)
    requires HonestPut(cfg, write, location, before, put, after)
    ensures Extends(before, after) && forall l <- after :: l in before || l == location
  {
  }

  /** The object is what a write of this digest and content type leaves behind. */
  predicate Matches(cfg: StorageConfig, held: StoredObject, digest: Digest, contentType: string) {
    && |held.content| <= cfg.maxObjectBytes && cfg.hash(held.content) == digest
    && DeclaredDigestMatches(cfg, held.declaredDigest, digest)
    && (cfg.supportsAttributes ==> held.contentType == Some(contentType))
  }

  /** On an honest store a receipt is issued only for an object that is really held. */
  lemma ReceiptIsHeld(cfg: StorageConfig, write: ImmutableWrite, before: map<string, StoredObject>, put: PutReply,
                      after: map<string, StoredObject>, reply: GetReply)
    requires WriteAccepted(cfg, write).None?
    requires HonestPut(cfg, write, Location(cfg.prefix, write.context, write.key), before, put, after)
    requires !put.PutFailed? ==>
      || reply.Failed?
      || HonestGet(after, Location(cfg.prefix, write.context, write.key),
                   if put.Created? then put.version else None, reply)
    requires PutOutcome(cfg, write, put, reply).Ok?
    ensures Holds(cfg, after, PutOutcome(cfg, write, put, reply).value)
    ensures Matches(cfg, after[Location(cfg.prefix, write.context, write.key)], write.digest, write.contentType)
    ensures Extends(before, after)
    ensures PutOutcome(cfg, write, put, reply).value.replay <==>
            Location(cfg.prefix, write.context, write.key) in before
  {
    var location := Location(cfg.prefix, write.context, write.key);
    DeliveredVerifies(cfg, after[location], write.digest, if put.Created? then put.version else None,
                      cfg.maxObjectBytes, reply);
  }

  /** On an honest, answering store a write is refused only for an object already there that differs. */
  lemma FirstWriteSucceeds(cfg: StorageConfig, write: ImmutableWrite, before: map<string, StoredObject>, put: PutReply,
                           after: map<string, StoredObject>, reply: GetReply)
    requires WriteAccepted(cfg, write).None?
    requires HonestPut(cfg, write, Location(cfg.prefix, write.context, write.key), before, put, after)
    requires !put.PutFailed?
    requires HonestGet(after, Location(cfg.prefix, write.context, write.key),
                       if put.Created? then put.version else None, reply)
    ensures PutOutcome(cfg, write, put, reply).Ok? <==>
            (Location(cfg.prefix, write.context, write.key) in before ==>
               Matches(cfg, before[Location(cfg.prefix, write.context, write.key)], write.digest, write.contentType))
  {
    var location := Location(cfg.prefix, write.context, write.key);
    DeliveredVerifies(cfg, after[location], write.digest, if put.Created? then put.version else None,
                      cfg.maxObjectBytes, reply);
  }
}
