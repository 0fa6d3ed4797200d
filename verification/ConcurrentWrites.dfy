/**
 Any number of writers and deleters sharing one honest store. A writer performs a create step and later a readback
 step, a deleter a verification step and later a delete step; steps of different parties interleave freely.
 */
module ConcurrentWrites {
  import opened Common
  import opened Identity
  import opened Storage

  // ----------------------------------------------------------------- writers

  datatype Phase = Waiting | Answered(put: PutReply) | Finished(put: PutReply, result: Result<WriteReceipt>)

  datatype World = World(objects: map<string, StoredObject>, phases: seq<Phase>)

  function Target(cfg: StorageConfig, write: ImmutableWrite): string {
    Location(cfg.prefix, write.context, write.key)
  }

  /** Writer `w` performs its create-only put. */
  predicate CreateStep(cfg: StorageConfig, writes: seq<ImmutableWrite>, a: World, b: World, w: nat) {
    && w < |writes| == |a.phases| == |b.phases|
    && WriteAccepted(cfg, writes[w]).None?
    && a.phases[w].Waiting? && b.phases[w].Answered? && b.phases == a.phases[w := b.phases[w]]
    && HonestPut(cfg, writes[w], Target(cfg, writes[w]), a.objects, b.phases[w].put, b.objects)
  }

  /** Writer `w` reads back and finishes; the read may fail. */
  predicate ReadbackStep(cfg: StorageConfig, writes: seq<ImmutableWrite>, a: World, b: World, w: nat, reply: GetReply) {
    && w < |writes| == |a.phases| == |b.phases|
    && WriteAccepted(cfg, writes[w]).None?
    && a.phases[w].Answered? && b.objects == a.objects
    && var put := a.phases[w].put;
    && (reply.Failed? || HonestGet(a.objects, Target(cfg, writes[w]), if put.Created? then put.version else None, reply))
    && b.phases == a.phases[w := Finished(put, PutOutcome(cfg, writes[w], put, reply))]
  }

  datatype Step = Create(writer: nat) | Readback(writer: nat, reply: GetReply)

  predicate Next(cfg: StorageConfig, writes: seq<ImmutableWrite>, a: World, b: World, step: Step) {
    match step
    case Create(w) => CreateStep(cfg, writes, a, b, w)
    case Readback(w, reply) => ReadbackStep(cfg, writes, a, b, w, reply)
  }

  /** `worlds` is a run: every world follows from its predecessor by one step. */
  ghost predicate IsRun(cfg: StorageConfig, writes: seq<ImmutableWrite>, worlds: seq<World>, steps: seq<Step>) {
    && |worlds| == |steps| + 1
    && |worlds[0].phases| == |writes| && (forall p <- worlds[0].phases :: p.Waiting?)
    && forall i :: 0 <= i < |steps| ==> Next(cfg, writes, worlds[i], worlds[i + 1], steps[i])
  }

  predicate CreatedBy(s: World, w: nat) {
    && w < |s.phases|
    && (s.phases[w].Answered? || s.phases[w].Finished?) && s.phases[w].put.Created?
  }

  ghost predicate Inv(cfg: StorageConfig, writes: seq<ImmutableWrite>, s: World) {
    && |s.phases| == |writes|
    && (forall w :: 0 <= w < |writes| && CreatedBy(s, w) ==> Target(cfg, writes[w]) in s.objects)
    && (forall w :: 0 <= w < |writes| && s.phases[w].Answered? && s.phases[w].put.AlreadyExists? ==>
          Target(cfg, writes[w]) in s.objects)
    && (forall v, w :: 0 <= v < w < |writes| && CreatedBy(s, v) && CreatedBy(s, w) ==>
          Target(cfg, writes[v]) != Target(cfg, writes[w]))
    && (forall w :: 0 <= w < |writes| && s.phases[w].Finished? && s.phases[w].result.Ok? ==>
          && Issued(writes[w], s.phases[w].put, s.phases[w].result.value)
          && Holds(cfg, s.objects, s.phases[w].result.value))
  }

  predicate Issued(write: ImmutableWrite, put: PutReply, receipt: WriteReceipt) {
    && receipt.key == write.key && receipt.context == write.context && receipt.digest == write.digest
    && (receipt.replay <==> put.AlreadyExists?) && (put.Created? || put.AlreadyExists?)
  }

  /** A writer puts once and finishes once: an answer to its put and its result stay what they are. */
  lemma {:induction false} WritersKeepAnswers(cfg: StorageConfig, writes: seq<ImmutableWrite>, worlds: seq<World>,
                                              steps: seq<Step>, w: nat, m: nat, n: nat)
    requires IsRun(cfg, writes, worlds, steps) && m <= n < |worlds| && w < |worlds[m].phases|
    ensures w < |worlds[n].phases|
    ensures worlds[m].phases[w].Finished? ==> worlds[n].phases[w] == worlds[m].phases[w]
    ensures worlds[m].phases[w].Answered? ==> !worlds[n].phases[w].Waiting? && worlds[n].phases[w].put == worlds[m].phases[w].put
  {
    if m < n {
      WritersKeepAnswers(cfg, writes, worlds, steps, w, m, n - 1);
      assert Next(cfg, writes, worlds[n - 1], worlds[n], steps[n - 1]);
      hide HonestPut, HonestGet, PutOutcome, WriteAccepted;
    }
  }

  /** What the store answers to the put of a writer that nobody disturbs, and what it holds then. */
  function CreateAnswer(cfg: StorageConfig, write: ImmutableWrite, objects: map<string, StoredObject>):
    (PutReply, map<string, StoredObject>)
  {
    var location := Target(cfg, write);
    if location in objects then (AlreadyExists, objects)
    else (Created(None, None), objects[location := NewObject(cfg, write, None, None)])
  }

  /**
   Nobody is locked out: from every reachable world a waiting writer can finish in two steps, and then it has a receipt
   exactly if its location was free or held a matching object.
   */
  lemma WriterCanFinish(cfg: StorageConfig, writes: seq<ImmutableWrite>, worlds: seq<World>, steps: seq<Step>, w: nat)
    returns (reply: GetReply, created: World, finished: World)
    requires IsRun(cfg, writes, worlds, steps) && w < |writes| && WriteAccepted(cfg, writes[w]).None?
    requires |worlds[|steps|].phases| == |writes| && worlds[|steps|].phases[w].Waiting?
    ensures IsRun(cfg, writes, worlds + [created, finished], steps + [Create(w), Readback(w, reply)])
    ensures |finished.phases| == |writes| && finished.phases[w].Finished?
    ensures var last := worlds[|steps|].objects;
            finished.phases[w].result.Ok? <==>
              (Target(cfg, writes[w]) in last ==>
                 Matches(cfg, last[Target(cfg, writes[w])], writes[w].digest, writes[w].contentType))
  {
    var a, location := worlds[|steps|], Target(cfg, writes[w]);
    var (put, objects) := CreateAnswer(cfg, writes[w], a.objects);
    reply := DeliveryOf(objects[location]);
    created := World(objects, a.phases[w := Answered(put)]);
    finished := World(objects, a.phases[w := Finished(put, PutOutcome(cfg, writes[w], put, reply))]);
    FirstWriteSucceeds(cfg, writes[w], a.objects, put, objects, reply);
    assert Next(cfg, writes, a, created, Create(w)) && Next(cfg, writes, created, finished, Readback(w, reply));
    Extended(cfg, writes, worlds, steps, created, finished, Create(w), Readback(w, reply));
  }

  lemma Extended(cfg: StorageConfig, writes: seq<ImmutableWrite>, worlds: seq<World>, steps: seq<Step>, x: World, y: World,
                 first: Step, second: Step)
    requires IsRun(cfg, writes, worlds, steps)
    requires Next(cfg, writes, worlds[|steps|], x, first) && Next(cfg, writes, x, y, second)
    ensures IsRun(cfg, writes, worlds + [x, y], steps + [first, second])
  {
    hide Next;
    var all, more := worlds + [x, y], steps + [first, second];
    forall i | 0 <= i < |more|
      ensures Next(cfg, writes, all[i], all[i + 1], more[i])
    {
      if i < |steps| { assert all[i] == worlds[i] && all[i + 1] == worlds[i + 1] && more[i] == steps[i]; }
    }
  }

  lemma NextExtends(cfg: StorageConfig, writes: seq<ImmutableWrite>, a: World, b: World, step: Step)
    requires Next(cfg, writes, a, b, step)
    ensures Extends(a.objects, b.objects)
    ensures forall location :: location in b.objects && location !in a.objects ==>
      step.Create? && step.writer < |writes| && location == Target(cfg, writes[step.writer])
  {
  }

  lemma HeldStays(cfg: StorageConfig, a: map<string, StoredObject>, b: map<string, StoredObject>, receipt: WriteReceipt)
    requires Extends(a, b) && Holds(cfg, a, receipt)
    ensures Holds(cfg, b, receipt)
  {
  }

  lemma CreateKeepsInv(cfg: StorageConfig, writes: seq<ImmutableWrite>, a: World, b: World, w: nat)
    requires Inv(cfg, writes, a) && CreateStep(cfg, writes, a, b, w)
    ensures Inv(cfg, writes, b)
  {
    NextExtends(cfg, writes, a, b, Create(w));
    forall v | 0 <= v < |writes| && b.phases[v].Finished? && b.phases[v].result.Ok?
      ensures Holds(cfg, b.objects, b.phases[v].result.value)
    {
      HeldStays(cfg, a.objects, b.objects, a.phases[v].result.value);
    }
  }

  lemma ReadbackKeepsInv(cfg: StorageConfig, writes: seq<ImmutableWrite>, a: World, b: World, w: nat, reply: GetReply)
    requires Inv(cfg, writes, a) && ReadbackStep(cfg, writes, a, b, w, reply)
    ensures Inv(cfg, writes, b)
  {
    var put, result := a.phases[w].put, b.phases[w].result;
    if result.Ok? {
      var location := Target(cfg, writes[w]);
      DeliveredVerifies(cfg, a.objects[location], writes[w].digest, if put.Created? then put.version else None,
                        cfg.maxObjectBytes, reply);
    }
    forall v | 0 <= v < |writes|
      ensures CreatedBy(b, v) <==> CreatedBy(a, v)
    {
    }
  }

  lemma {:induction false} RunInvariant(cfg: StorageConfig, writes: seq<ImmutableWrite>, worlds: seq<World>,
                                        steps: seq<Step>, n: nat)
    requires IsRun(cfg, writes, worlds, steps) && n < |worlds|
    ensures Inv(cfg, writes, worlds[n])
  {
    if n == 0 {
      assert forall w :: 0 <= w < |writes| ==> worlds[0].phases[w] in worlds[0].phases;
    } else {
      RunInvariant(cfg, writes, worlds, steps, n - 1);
      match steps[n - 1]
      case Create(w) => CreateKeepsInv(cfg, writes, worlds[n - 1], worlds[n], w);
      case Readback(w, reply) => ReadbackKeepsInv(cfg, writes, worlds[n - 1], worlds[n], w, reply);
    }
  }

  /** Immutability: whatever a location holds at some moment it holds at every later moment. */
  lemma {:induction false} ContentNeverChanges(cfg: StorageConfig, writes: seq<ImmutableWrite>, worlds: seq<World>,
                                               steps: seq<Step>, i: nat, j: nat)
    requires IsRun(cfg, writes, worlds, steps) && i <= j < |worlds|
    ensures Extends(worlds[i].objects, worlds[j].objects)
  {
    if i < j {
      ContentNeverChanges(cfg, writes, worlds, steps, i, j - 1);
      NextExtends(cfg, writes, worlds[j - 1], worlds[j], steps[j - 1]);
    }
  }

  /**
   Agreement. Two writers that both obtained receipts for one key and context agree on digest, version and ETag,
   and at most one of them is told that it wrote the object first.
   */
  lemma ReceiptsAgree(cfg: StorageConfig, writes: seq<ImmutableWrite>, worlds: seq<World>, steps: seq<Step>, n: nat,
                      v: nat, w: nat)
    requires IsRun(cfg, writes, worlds, steps) && n < |worlds|
    requires v < w < |writes| && writes[v].key == writes[w].key && writes[v].context == writes[w].context
    requires |worlds[n].phases| == |writes|
    requires worlds[n].phases[v].Finished? && worlds[n].phases[v].result.Ok?
    requires worlds[n].phases[w].Finished? && worlds[n].phases[w].result.Ok?
    ensures var first, second := worlds[n].phases[v].result.value, worlds[n].phases[w].result.value;
            && first.digest == second.digest && first.version == second.version && first.eTag == second.eTag
            && (first.replay || second.replay)
  {
    RunInvariant(cfg, writes, worlds, steps, n);
    var s := worlds[n];
    assert Issued(writes[v], s.phases[v].put, s.phases[v].result.value);
    assert Issued(writes[w], s.phases[w].put, s.phases[w].result.value);
    assert Holds(cfg, s.objects, s.phases[v].result.value) && Holds(cfg, s.objects, s.phases[w].result.value);
    assert !s.phases[v].result.value.replay ==> CreatedBy(s, v);
    assert !s.phases[w].result.value.replay ==> CreatedBy(s, w);
  }

  /** Isolation: what is readable under one key and context is touched only by writers of that key and context. */
  lemma {:induction false} ContextsAreIsolated(cfg: StorageConfig, writes: seq<ImmutableWrite>, worlds: seq<World>,
                                               steps: seq<Step>, n: nat, context: Digest, key: ObjectKey)
    requires IsRun(cfg, writes, worlds, steps) && n < |worlds|
    requires forall w :: 0 <= w < |writes| ==> writes[w].context != context || writes[w].key != key
    ensures var location := Location(cfg.prefix, context, key);
            && (location in worlds[n].objects <==> location in worlds[0].objects)
            && (location in worlds[0].objects ==> worlds[n].objects[location] == worlds[0].objects[location])
  {
    if n > 0 {
      ContextsAreIsolated(cfg, writes, worlds, steps, n - 1, context, key);
      NextExtends(cfg, writes, worlds[n - 1], worlds[n], steps[n - 1]);
      if steps[n - 1].Create? && Location(cfg.prefix, context, key) == Target(cfg, writes[steps[n - 1].writer]) {
        var write := writes[steps[n - 1].writer];
        LocationInjective(cfg.prefix, context, key, write.context, write.key);
      }
    }
  }

  // ---------------------------------------------------------------- deleters

  datatype DeletePhase = Idle | Verified | Gone(removed: bool) | Refused

  datatype DeleteWorld = DeleteWorld(objects: map<string, StoredObject>, phases: seq<DeletePhase>)

  predicate Identified(cfg: StorageConfig, objects: map<string, StoredObject>, location: string, digest: Digest, version: Tag) {
    && location in objects && cfg.hash(objects[location].content) == digest
    && (version.Some? ==> objects[location].version == version)
  }

  /** Deleter `d` of one pinned object verifies it, finds it absent, or is refused. */
  predicate VerifyStep(cfg: StorageConfig, location: string, digest: Digest, version: Tag, a: DeleteWorld, b: DeleteWorld,
                       d: nat)
  {
    && d < |a.phases| == |b.phases| && a.phases[d].Idle? && b.objects == a.objects
    && b.phases == a.phases[d := b.phases[d]]
    && match b.phases[d]
       case Verified => Identified(cfg, a.objects, location, digest, version)
       case Gone(removed) => !removed && location !in a.objects
       case Refused => true
       case Idle => false
  }

  /** Deleter `d` deletes what it verified; the answer, or the effect, may be lost. */
  predicate RemoveStep(location: string, a: DeleteWorld, b: DeleteWorld, d: nat) {
    && d < |a.phases| == |b.phases| && a.phases[d].Verified?
    && b.phases == a.phases[d := b.phases[d]]
    && match b.phases[d]
       case Gone(removed) => (removed <==> location in a.objects) && b.objects == a.objects - {location}
       case Refused => b.objects == a.objects || b.objects == a.objects - {location}
       case _ => false
  }

  ghost predicate IsDeleteRun(cfg: StorageConfig, location: string, digest: Digest, version: Tag, worlds: seq<DeleteWorld>,
                              movers: seq<nat>)
  {
    && |worlds| == |movers| + 1 && (forall p <- worlds[0].phases :: p.Idle?)
    && forall i :: 0 <= i < |movers| ==>
       || VerifyStep(cfg, location, digest, version, worlds[i], worlds[i + 1], movers[i])
       || RemoveStep(location, worlds[i], worlds[i + 1], movers[i])
  }

  /**
   Concurrent deletes. As soon as one deleter of a pinned object has succeeded the object is absent and stays absent;
   an object that does not match the pins is never removed; at most one deleter removed it; nothing else changes.
   */
  lemma {:induction false} ConcurrentDeletes(cfg: StorageConfig, location: string, digest: Digest, version: Tag,
                                             worlds: seq<DeleteWorld>, movers: seq<nat>, n: nat)
    requires IsDeleteRun(cfg, location, digest, version, worlds, movers) && n < |worlds|
    ensures |worlds[n].phases| == |worlds[0].phases|
    ensures forall d :: 0 <= d < |worlds[n].phases| && worlds[n].phases[d].Gone? ==> location !in worlds[n].objects
    ensures forall d :: 0 <= d < |worlds[n].phases| && worlds[n].phases[d].Verified? ==>
      Identified(cfg, worlds[0].objects, location, digest, version)
    ensures worlds[n].objects == worlds[0].objects ||
            (&& location in worlds[0].objects && cfg.hash(worlds[0].objects[location].content) == digest
             && (version.Some? ==> worlds[0].objects[location].version == version)
             && worlds[n].objects == worlds[0].objects - {location})
    ensures forall c, d :: 0 <= c < d < |worlds[n].phases| && worlds[n].phases[c].Gone? && worlds[n].phases[d].Gone? ==>
      !(worlds[n].phases[c].removed && worlds[n].phases[d].removed)
  {
    if n == 0 {
      assert forall d :: 0 <= d < |worlds[0].phases| ==> worlds[0].phases[d] in worlds[0].phases;
    } else {
      ConcurrentDeletes(cfg, location, digest, version, worlds, movers, n - 1);
      var a, b, d := worlds[n - 1], worlds[n], movers[n - 1];
      if VerifyStep(cfg, location, digest, version, a, b, d) {
        assert b.objects == a.objects;
      } else {
        assert RemoveStep(location, a, b, d);
        assert worlds[0].objects - {location} - {location} == worlds[0].objects - {location};
      }
    }
  }

  /** A deleter that has an answer keeps it. */
  lemma {:induction false} DeletersKeepAnswers(cfg: StorageConfig, location: string, digest: Digest, version: Tag,
                                               worlds: seq<DeleteWorld>, movers: seq<nat>, d: nat, m: nat, n: nat)
    requires IsDeleteRun(cfg, location, digest, version, worlds, movers) && m <= n < |worlds| && d < |worlds[m].phases|
    requires worlds[m].phases[d].Gone? || worlds[m].phases[d].Refused?
    ensures d < |worlds[n].phases| && worlds[n].phases[d] == worlds[m].phases[d]
  {
    if m < n {
      DeletersKeepAnswers(cfg, location, digest, version, worlds, movers, d, m, n - 1);
      var a, b, mover := worlds[n - 1], worlds[n], movers[n - 1];
      assert VerifyStep(cfg, location, digest, version, a, b, mover) || RemoveStep(location, a, b, mover);
    }
  }

  /** And a deleter of a pinned object can always finish: it removes a matching object, or finds nothing to remove. */
  lemma DeleterCanFinish(cfg: StorageConfig, location: string, digest: Digest, version: Tag, a: DeleteWorld, d: nat)
    returns (verified: DeleteWorld, removed: DeleteWorld)
    requires d < |a.phases| && a.phases[d].Idle?
    ensures location !in a.objects ==>
              VerifyStep(cfg, location, digest, version, a, verified, d) && verified.phases[d] == Gone(false)
    ensures location in a.objects && cfg.hash(a.objects[location].content) == digest
            && (version.Some? ==> a.objects[location].version == version) ==>
              && VerifyStep(cfg, location, digest, version, a, verified, d) && RemoveStep(location, verified, removed, d)
              && removed.phases[d] == Gone(true) && location !in removed.objects
  {
    if location !in a.objects {
      verified := DeleteWorld(a.objects, a.phases[d := Gone(false)]);
      removed := verified;
    } else {
      verified := DeleteWorld(a.objects, a.phases[d := Verified]);
      removed := DeleteWorld(a.objects - {location}, a.phases[d := Gone(true)]);
    }
  }
}
