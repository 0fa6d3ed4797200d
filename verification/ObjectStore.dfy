/** `VerifiedObjectStorage` over a backend whose answers are chosen freely, or honestly. */
module ObjectStore {
  import opened Common
  import opened Identity
  import opened Storage

  datatype Intent = Intent(key: ObjectKey, context: Digest, digest: Digest, size: u64, contentType: string)

  /** What happened outside the process, in order. */
  datatype Event =
    | IntentRecorded(intent: Intent)
    | PutAttempted(intent: Intent)
    | ReceiptRecorded(receipt: WriteReceipt)

  function IntentOf(write: ImmutableWrite): Intent {
    Intent(write.key, write.context, write.digest, |write.content|, write.contentType)
  }

  datatype DeleteRequest = DeleteRequest(key: ObjectKey, context: Digest, digest: Digest, version: Tag)
  datatype DeleteOutcome = Deleted | AlreadyAbsent
  datatype DeleteReply = Removed | NothingThere | DeleteFailed

  class VerifiedObjectStorage {
    const cfg: StorageConfig
    /** An honest backend serves what it holds or fails; otherwise its answers are arbitrary. */
    const honest: bool
    /** Every call to an available backend, journal or input is answered. */
    const available: bool
    /** The tags a proper backend hands out are complete if it is managed, and none is longer than `tagLimit`. */
    const proper: bool
    const tagLimit: TagLimit
    var objects: map<string, StoredObject>
    ghost var log: seq<Event>

    constructor (cfg: StorageConfig, honest: bool, available: bool, proper: bool, tagLimit: TagLimit)
      ensures this.cfg == cfg && this.honest == honest && this.available == available
      ensures this.proper == proper && this.tagLimit == tagLimit && objects == map[] && log == []
    {
      this.cfg, this.honest, this.available, this.proper, this.tagLimit := cfg, honest, available, proper, tagLimit;
      objects, log := map[], [];
    }

    /** Nothing outside fails. */
    predicate Answers() {
      honest && available && proper
    }

    /** What is at the location has proper tags. */
    predicate TaggedAt(location: string)
      reads this
    {
      location in objects && ProperTags(cfg, tagLimit, objects[location].eTag, objects[location].version)
    }

    method GetOpts(location: string, version: Tag) returns (reply: GetReply)
      ensures honest ==> (reply.Failed? && !available) || HonestGet(objects, location, version, reply)
    {
      reply := *;
      if honest && !HonestGet(objects, location, version, reply) {
        reply := Failed;
        if available { reply := HonestAnswer(location, version); }
      }
    }

    function HonestAnswer(location: string, version: Tag): (reply: GetReply)
      reads this
      ensures HonestGet(objects, location, version, reply)
    {
      if location in objects && (version.Some? ==> objects[location].version == version)
      then DeliveryOf(objects[location]) else Absent
    }

    method PutOpts(write: ImmutableWrite, location: string) returns (put: PutReply)
      modifies this`objects
      ensures honest ==> HonestPut(cfg, write, location, old(objects), put, objects)
      ensures honest && available ==> !put.PutFailed?
      ensures honest && proper && objects != old(objects) ==> TaggedAt(location)
    {
      put := *;
      if !honest {
        objects := *;
        return;
      }
      if location in objects {
        if put.Created? || available { put := AlreadyExists; }
        return;
      }
      var eTag: Tag := *;
      var version: Tag := *;
      if proper && !ProperTags(cfg, tagLimit, eTag, version) { eTag, version := Some("e"), Some("v"); }
      if put.Created? || available {
        put := Created(eTag, version);
        objects := objects[location := NewObject(cfg, write, eTag, version)];
      } else {
        put := PutFailed;
        var effect: bool := *;
        if effect {
          objects := objects[location := NewObject(cfg, write, eTag, version)];
        }
      }
    }

    method DeleteOpts(location: string) returns (reply: DeleteReply)
      modifies this`objects
      ensures honest ==>
        match reply
        case Removed => location in old(objects) && objects == old(objects) - {location}
        case NothingThere => location !in old(objects) && objects == old(objects)
        case DeleteFailed => !available && (objects == old(objects) || objects == old(objects) - {location})
    {
      reply := *;
      if !honest {
        objects := *;
        return;
      }
      if location !in objects {
        assert objects - {location} == objects;
        if reply.Removed? || available { reply := NothingThere; }
      } else if available {
        reply := Removed;
        objects := objects - {location};
      } else if reply.NothingThere? {
        reply := DeleteFailed;
      } else {
        objects := objects - {location};
      }
    }

    /** `read_verified_internal_bounded`, with its read loop. */
    method ReadVerifiedBounded(key: ObjectKey, context: Digest, expected: Digest, version: Tag, maxBytes: u64)
      returns (r: Result<VerifiedObject>, reply: GetReply)
      ensures r == ReadVerified(cfg, expected, version, maxBytes, reply)
      ensures honest ==>
        (reply.Failed? && !available) || HonestGet(objects, Location(cfg.prefix, context, key), version, reply)
    {
      var answer := GetOpts(Location(cfg.prefix, context, key), version);
      reply := answer;
      match answer
      case Absent => r := Err(NotFound);
      case Failed => r := Err(Backend);
      case Got(size, contentType, declared, eTag, actualVersion, evidenceOk, body) =>
        if size > Min(cfg.maxObjectBytes, maxBytes) { return Err(SizeLimitExceeded), reply; }
        if !DeclaredDigestMatches(cfg, declared, expected) { return Err(DigestMismatch), reply; }
        if version.Some? && actualVersion != version { return Err(VersionMismatch), reply; }
        var buffer: Bytes := [];
        var i := 0;
        while i < |body|
          invariant 0 <= i <= |body| && |buffer| <= size
          invariant Absorb([], body, size) == Absorb(buffer, body[i..], size)
        {
          if body[i].Broken? { return Err(Backend), reply; }
          if |buffer| + |body[i].bytes| > size || |buffer| + |body[i].bytes| > Min(cfg.maxObjectBytes, maxBytes) {
            return Err(SizeLimitExceeded), reply;
          }
          buffer := buffer + body[i].bytes;
          i := i + 1;
        }
        if |buffer| != size || cfg.hash(buffer) != expected { return Err(DigestMismatch), reply; }
        r := Ok(VerifiedObject(buffer, contentType, eTag, actualVersion));
    }

    /** `read_receipt_bounded`. */
    method ReadReceiptBounded(receipt: WriteReceipt, maxBytes: u64) returns (r: Result<Bytes>, reply: GetReply)
      ensures r == ReadReceipt(cfg, receipt, maxBytes, reply)
      ensures honest ==>
        || r.Err?
        || HonestGet(objects, Location(cfg.prefix, receipt.context, receipt.key), receipt.version, reply)
    {
      reply := Failed;
      if receipt.size > maxBytes { return Err(SizeLimitExceeded), reply; }
      if cfg.managed && !(NonEmptyTag(receipt.version) && NonEmptyTag(receipt.eTag)) { return Err(VersionMismatch), reply; }
      var found;
      found, reply := ReadVerifiedBounded(receipt.key, receipt.context, receipt.digest, receipt.version, maxBytes);
      match found
      case Err(e) => r := Err(e);
      case Ok(held) =>
        if held.eTag != receipt.eTag || held.version != receipt.version || |held.content| != receipt.size {
          return Err(VersionMismatch), reply;
        }
        if cfg.managed && !reply.evidenceOk { return Err(EvidenceRejected), reply; }
        r := Ok(held.content);
    }

    /** `put_immutable`: create, then verify what the backend now serves. */
    method PutImmutable(write: ImmutableWrite)
      returns (r: Result<WriteReceipt>, ghost put: PutReply, ghost reply: GetReply)
      modifies this`objects, this`log
      ensures WriteAccepted(cfg, write).Some? ==> r.Err? && objects == old(objects) && log == old(log)
      ensures WriteAccepted(cfg, write).None? ==> r == PutOutcome(cfg, write, put, reply)
      ensures WriteAccepted(cfg, write).None? ==> log == old(log) + [PutAttempted(IntentOf(write))]
      ensures r.Ok? ==>
        && WriteAccepted(cfg, write).None?
        && r.value.key == write.key && r.value.context == write.context
        && r.value.digest == write.digest && r.value.size == |write.content|
      ensures honest ==> Extends(old(objects), objects)
      ensures honest && r.Ok? ==>
        var location := Location(cfg.prefix, write.context, write.key);
        && Holds(cfg, objects, r.value) && Matches(cfg, objects[location], write.digest, write.contentType)
        && (r.value.replay <==> location in old(objects))
      ensures honest && WriteAccepted(cfg, write).None? ==>
        && HonestPut(cfg, write, Location(cfg.prefix, write.context, write.key), old(objects), put, objects)
        && (reply.Failed? || HonestGet(objects, Location(cfg.prefix, write.context, write.key),
                                       if put.Created? then put.version else None, reply))
      ensures honest && proper && objects != old(objects) ==> TaggedAt(Location(cfg.prefix, write.context, write.key))
      ensures honest ==>
        forall l <- objects :: l in old(objects) || Placed(cfg.prefix, write.context, write.key, l)
      ensures honest && available && WriteAccepted(cfg, write).None? ==>
        var location := Location(cfg.prefix, write.context, write.key);
        && !put.PutFailed?
        && (r.Ok? <==>
              (location in old(objects) ==> Matches(cfg, old(objects)[location], write.digest, write.contentType)))
    {
      LocationPlaced(cfg.prefix, write.context, write.key);
      hide Location, Placed, HonestGet, HonestPut, Matches, Holds, ProperTags, Extends;
      NothingExtends(objects);
      put, reply := PutFailed, Failed;
      var refused := WriteAccepted(cfg, write);
      if refused.Some? { return Err(refused.value), put, reply; }
      var location := Location(cfg.prefix, write.context, write.key);
      log := log + [PutAttempted(IntentOf(write))];
      var created := PutOpts(write, location);
      put := created;
      if honest { HonestPutExtends(cfg, write, location, old(objects), put, objects); }
      if created.PutFailed? { return Err(Backend), put, reply; }
      var putETag: Tag := if created.Created? then created.eTag else None;
      var putVersion: Tag := if created.Created? then created.version else None;
      var found, answer := ReadVerifiedBounded(write.key, write.context, write.digest, putVersion, cfg.maxObjectBytes);
      reply := answer;
      match found {
        case Err(e) =>
          r := Err(if created.AlreadyExists? && e == DigestMismatch then ImmutableConflict else e);
        case Ok(held) =>
          if putETag.Some? && putETag != held.eTag {
            r := Err(EvidenceRejected);
          } else if putVersion.Some? && putVersion != held.version {
            r := Err(VersionMismatch);
          } else if cfg.supportsAttributes && held.contentType != Some(write.contentType) {
            r := Err(ImmutableConflict);
          } else if cfg.managed && !answer.evidenceOk {
            r := Err(EvidenceRejected);
          } else {
            r := Ok(WriteReceipt(write.key, write.context, |write.content|, write.digest,
                                 held.eTag, held.version, created.AlreadyExists?));
          }
      }
      if honest && r.Ok? {
        ReceiptIsHeld(cfg, write, old(objects), put, objects, reply);
      }
      if honest && available { FirstWriteSucceeds(cfg, write, old(objects), put, objects, reply); }
    }

    /** The live object at the request's location has the requested digest and version. */
    predicate Identified(held: map<string, StoredObject>, request: DeleteRequest) {
      var location := Location(cfg.prefix, request.context, request.key);
      && location in held
      && cfg.hash(held[location].content) == request.digest
      && (request.version.Some? ==> held[location].version == request.version)
    }

    /** The object is within the size limit, and what it declares about itself agrees with the digest. */
    predicate Readable(held: StoredObject, digest: Digest) {
      |held.content| <= cfg.maxObjectBytes && DeclaredDigestMatches(cfg, held.declaredDigest, digest)
    }

    /** `delete_verified`; `removing` is set once verification has succeeded and the removal is requested. */
    method DeleteVerified(request: DeleteRequest) returns (r: Result<DeleteOutcome>, ghost removing: bool)
      modifies this`objects
      ensures !removing ==> objects == old(objects) && r != Ok(Deleted)
      ensures removing && r.Err? ==> r.error == Backend
      ensures honest ==>
        forall l <- old(objects) :: l in objects || Placed(cfg.prefix, request.context, request.key, l)
      ensures honest && removing ==>
        && Identified(old(objects), request)
        && Readable(old(objects)[Location(cfg.prefix, request.context, request.key)], request.digest)
      ensures honest ==>
        var location := Location(cfg.prefix, request.context, request.key);
        && (objects == old(objects) ||
            (objects == old(objects) - {location} && Identified(old(objects), request)))
        && (r.Ok? ==> location !in objects)
        && (r == Ok(Deleted) ==> Identified(old(objects), request))
        && (r == Ok(AlreadyAbsent) ==> location !in old(objects))
        && (r.Err? && r.error !in {Backend} ==> objects == old(objects) && location in old(objects))
        && (location in old(objects) && !Identified(old(objects), request) ==> r.Err?)
        && (location !in old(objects) ==> r == Ok(AlreadyAbsent) || r == Err(Backend))
        && (available && (location in old(objects) ==> Readable(old(objects)[location], request.digest)) ==>
              (r.Ok? <==> (location in old(objects) ==> Identified(old(objects), request))))
    {
      var location := Location(cfg.prefix, request.context, request.key);
      removing := false;
      LocationPlaced(cfg.prefix, request.context, request.key);
      var found, reply := ReadVerifiedBounded(request.key, request.context, request.digest, request.version,
                                              cfg.maxObjectBytes);
      if honest && location in objects && reply.Got? {
        DeliveredVerifies(cfg, objects[location], request.digest, request.version, cfg.maxObjectBytes, reply);
      }
      if found == Err(NotFound) {
        if request.version.Some? {
          var again, second := ReadVerifiedBounded(request.key, request.context, request.digest, None, cfg.maxObjectBytes);
          if honest && location in objects && second.Got? {
            DeliveredVerifies(cfg, objects[location], request.digest, None, cfg.maxObjectBytes, second);
          }
          if again.Ok? || again == Err(DigestMismatch) { return Err(VersionMismatch), removing; }
          if again != Err(NotFound) { return Err(again.error), removing; }
        }
        var synced: bool := *;
        if !synced && !available { return Err(Backend), removing; }
        return Ok(AlreadyAbsent), removing;
      }
      if found.Err? { return Err(found.error), removing; }
      removing := true;
      var removed := DeleteOpts(location);
      if removed.DeleteFailed? { return Err(Backend), removing; }
      var synced: bool := *;
      if !synced && !available { return Err(Backend), removing; }
      r := Ok(if removed.Removed? then Deleted else AlreadyAbsent);
    }
  }
}
