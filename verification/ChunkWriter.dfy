/** `put_chunked`: a bounded-memory writer that commits a file by one final root. */
module ChunkWriter {
  import opened Common
  import opened Identity
  import opened Storage
  import opened ChunkFormat
  import opened ObjectStore
  import opened ChunkParts
  import opened Decimal

  // --------------------------------------------------------------- the log

  /** Each attempted PUT directly follows the journal's acknowledgement of its own intent. */
  ghost predicate PutsHaveIntents(log: seq<Event>) {
    forall i :: 0 <= i < |log| && log[i].PutAttempted? ==> i > 0 && log[i - 1] == IntentRecorded(log[i].intent)
  }

  predicate IsRootPut(e: Event) {
    e.PutAttempted? && e.intent.contentType == ROOT_TYPE
  }

  /** Everything that must be true before the root may be written. */
  ghost predicate ReadyForRoot(cfg: StorageConfig, codec: Codec, write: ChunkedWrite, input: Bytes, root: Root,
                               pages: seq<Page>, log: seq<Event>)
  {
    && |input| == write.size && cfg.hash(input) == write.digest
    && IsTree(cfg, codec, write.key, input, root, pages)
    && (forall p <- root.pages :: Journalled(log, write.context, p))
    && (forall q, j :: 0 <= q < |pages| && 0 <= j < |pages[q].chunks| ==>
          Journalled(log, write.context, pages[q].chunks[j]))
  }

  /** A root is only ever put once its whole tree is journalled and the input is verified. */
  ghost predicate RootsGuarded(cfg: StorageConfig, codec: Codec, write: ChunkedWrite, input: Bytes, root: Root,
                               pages: seq<Page>, log: seq<Event>)
  {
    forall i :: 0 <= i < |log| && IsRootPut(log[i]) ==>
      && ReadyForRoot(cfg, codec, write, input, root, pages, log[..i])
      && log[i].intent.key == write.key && log[i].intent.digest == cfg.hash(codec.encodeRoot(root))
  }

  /** The guarantees hold at every moment of a run, so a run cut off at any await keeps them. */
  lemma CutRunsAreGuarded(cfg: StorageConfig, codec: Codec, write: ChunkedWrite, input: Bytes, root: Root,
                          pages: seq<Page>, log: seq<Event>, n: nat)
    requires n <= |log|
    requires PutsHaveIntents(log) && RootsGuarded(cfg, codec, write, input, root, pages, log)
    ensures PutsHaveIntents(log[..n]) && RootsGuarded(cfg, codec, write, input, root, pages, log[..n])
  {
    forall i | 0 <= i < n
      ensures log[..n][i] == log[i] && log[..n][..i] == log[..i]
    {
    }
  }

  /** The events of writing one part, of which a failing or cancelled write performs a prefix. */
  function PartEvents(intent: Intent, receipt: WriteReceipt): seq<Event> {
    [IntentRecorded(intent), PutAttempted(intent), ReceiptRecorded(receipt)]
  }

  lemma AppendPart(log: seq<Event>, intent: Intent, receipt: WriteReceipt, events: seq<Event>)
    requires PutsHaveIntents(log) && events <= PartEvents(intent, receipt)
    ensures PutsHaveIntents(log + events)
  {
    var all := log + events;
    forall i | 0 <= i < |all| && all[i].PutAttempted?
      ensures i > 0 && all[i - 1] == IntentRecorded(all[i].intent)
    {
      if i >= |log| {
        assert all[i] == events[i - |log|] == PartEvents(intent, receipt)[i - |log|];
        assert i - |log| == 1 && all[i - 1] == events[0] == PartEvents(intent, receipt)[0];
      }
    }
  }

  // ------------------------------------------------------------ one part

  lemma PartNames()
    ensures Segment("chunks") && Segment("pages") && |"chunks"| == 6 && |"pages"| == 5
  {
  }

  lemma PartTypes()
    ensures ValidContentType(CHUNK_TYPE) && ValidContentType(PAGE_TYPE) && ValidContentType(ROOT_TYPE)
  {
  }

  /** `write_chunk_part`: journal the intent, write, require complete pins, journal the receipt. */
  method WriteChunkPart(storage: VerifiedObjectStorage, key: ObjectKey, context: Digest, bytes: Bytes, contentType: string)
    returns (r: Result<WriteReceipt>, ghost events: seq<Event>, ghost intent: Intent, ghost recorded: WriteReceipt)
    requires |bytes| < U64_LIMIT
    modifies storage
    ensures intent == Intent(key, context, storage.cfg.hash(bytes), |bytes|, contentType)
    ensures events <= PartEvents(intent, recorded) && storage.log == old(storage.log) + events
    ensures r.Ok? ==>
      && events == PartEvents(intent, recorded) && recorded == r.value
      && r.value.key == key && r.value.context == context
      && r.value.digest == storage.cfg.hash(bytes) && r.value.size == |bytes| <= storage.cfg.maxObjectBytes
      && (storage.cfg.managed ==> NonEmptyTag(r.value.version) && NonEmptyTag(r.value.eTag))
    ensures storage.honest ==> Extends(old(storage.objects), storage.objects)
    ensures storage.honest && r.Ok? ==>
      && Holds(storage.cfg, storage.objects, r.value)
      && (r.value.replay <==> Location(storage.cfg.prefix, context, key) in old(storage.objects))
    ensures storage.Answers() && r.Err? && ValidContentType(contentType) ==>
      && storage.log != old(storage.log) && Refused(storage.cfg, storage.objects, storage.log)
      && storage.log[|storage.log| - 1].intent == intent && storage.objects == old(storage.objects)
    ensures storage.honest && Location(storage.cfg.prefix, context, key) in old(storage.objects) ==>
      storage.objects == old(storage.objects)
    ensures storage.honest && storage.proper && storage.objects != old(storage.objects) ==>
      Adds(storage.cfg, storage.tagLimit, old(storage.objects), intent, storage.objects)
  {
    var digest := storage.cfg.hash(bytes);
    events, intent := [], Intent(key, context, digest, |bytes|, contentType);
    recorded := WriteReceipt(key, context, |bytes|, digest, None, None, false);
    var journalled: bool := *;
    if !journalled && !storage.available { return Err(Backend), events, intent, recorded; }
    storage.log := storage.log + [IntentRecorded(intent)];
    events := [IntentRecorded(intent)];
    var write := ImmutableWrite(key, context, bytes, digest, contentType);
    ghost var put, reply;
    r, put, reply := storage.PutImmutable(write);
    if WriteAccepted(storage.cfg, write).None? { events := events + [PutAttempted(intent)]; }
    if r.Err? { return r, events, intent, recorded; }
    if storage.cfg.managed && !(NonEmptyTag(r.value.version) && NonEmptyTag(r.value.eTag)) {
      return Err(VersionMismatch), events, intent, recorded;
    }
    var acknowledged: bool := *;
    if !acknowledged && !storage.available { return Err(Backend), events, intent, recorded; }
    recorded := r.value;
    storage.log := storage.log + [ReceiptRecorded(recorded)];
    events := events + [ReceiptRecorded(recorded)];
  }

  // ------------------------------------------------------- the whole write

  /** The tree built after `index` chunks: full pages so far, then the chunks of the page being filled. */
  ghost predicate Built(cfg: StorageConfig, codec: Codec, key: ObjectKey, chunkBytes: u64, data: Bytes, index: nat,
                        chunks: seq<Pointer>, pointers: seq<Pointer>, pages: seq<Page>)
  {
    && ValidChunkSize(chunkBytes)
    && index <= ChunkCount(|data|, chunkBytes)
    && (|| index == |pages| * PAGE_ENTRIES + |chunks|
        || (index == ChunkCount(|data|, chunkBytes) && chunks == [] && |pages| == PageCount(|data|, chunkBytes)))
    && |chunks| <= PAGE_ENTRIES
    && |pointers| == |pages|
    && (forall p :: 0 <= p < |pages| ==>
          && PointsTo(cfg, pointers[p], key, "pages", codec.encodePage(pages[p]))
          && pointers[p].size <= INDEX_BYTES
          && IsPage(cfg, key, data, chunkBytes, p, pages[p]))
    && (forall j :: 0 <= j < |chunks| ==> IsChunk(cfg, key, data, chunkBytes, |pages| * PAGE_ENTRIES + j, chunks[j]))
  }

  lemma ChunkBuilt(cfg: StorageConfig, codec: Codec, key: ObjectKey, chunkBytes: u64, data: Bytes, index: nat,
                   chunks: seq<Pointer>, pointers: seq<Pointer>, pages: seq<Page>, p: Pointer)
    requires Built(cfg, codec, key, chunkBytes, data, index, chunks, pointers, pages)
    requires |chunks| < PAGE_ENTRIES && IsChunk(cfg, key, data, chunkBytes, index, p)
    ensures Built(cfg, codec, key, chunkBytes, data, index + 1, chunks + [p], pointers, pages)
  {
    ChunkExists(|data|, chunkBytes, index);
  }

  /** A page is written when it is full or when it is the last one, and then it lists what its place demands. */
  lemma PageComplete(cfg: StorageConfig, codec: Codec, key: ObjectKey, chunkBytes: u64, data: Bytes, index: u64,
                     chunks: seq<Pointer>, pointers: seq<Pointer>, pages: seq<Page>)
    requires Built(cfg, codec, key, chunkBytes, data, index, chunks, pointers, pages) && chunks != []
    requires |chunks| == PAGE_ENTRIES || index == ChunkCount(|data|, chunkBytes)
    ensures IsPage(cfg, key, data, chunkBytes, |pages|, Page(PAGE_FORMAT, index - |chunks|, chunks))
  {
  }

  lemma PageBuilt(cfg: StorageConfig, codec: Codec, key: ObjectKey, chunkBytes: u64, data: Bytes, index: nat,
                  chunks: seq<Pointer>, pointers: seq<Pointer>, pages: seq<Page>, page: Page, p: Pointer)
    requires Built(cfg, codec, key, chunkBytes, data, index, chunks, pointers, pages)
    requires IsPage(cfg, key, data, chunkBytes, |pages|, page)
    requires PointsTo(cfg, p, key, "pages", codec.encodePage(page)) && p.size <= INDEX_BYTES
    requires |chunks| == PAGE_ENTRIES || index == ChunkCount(|data|, chunkBytes)
    requires |page.chunks| == |chunks|
    requires chunks != []
    ensures Built(cfg, codec, key, chunkBytes, data, index, [], pointers + [p], pages + [page])
  {
  }

  lemma BuiltIsTree(cfg: StorageConfig, codec: Codec, key: ObjectKey, data: Bytes, index: nat, pages: seq<Page>, root: Root)
    requires Built(cfg, codec, key, root.chunkBytes, data, index, [], root.pages, pages)
    requires index == ChunkCount(|data|, root.chunkBytes)
    ensures IsTree(cfg, codec, key, data, root, pages)
  {
  }

  predicate ValidFileType(s: string) {
    0 < |s| <= 256 && forall c <- s :: ' ' <= c <= '~'
  }

  /** The bytes a complete input would start with; only what was read matters. */
  ghost function Padded(input: Bytes, size: nat): (data: Bytes)
    ensures |data| == size
    ensures |input| >= size ==> data == input[..size]
  {
    if |input| >= size then input[..size] else input + seq(size - |input|, _ => 0)
  }

  /** After `index` chunks, none of them beyond the end, the input has been read up to `offset`. */
  ghost predicate Cursor(size: nat, chunkBytes: nat, index: nat, offset: nat) {
    offset == Min(size, index * chunkBytes) && (index > 0 ==> (index - 1) * chunkBytes < size)
  }

  /** The end is reached with the last chunk. */
  lemma CursorMeaning(size: nat, chunkBytes: nat, index: nat, offset: nat)
    requires chunkBytes > 0
    ensures Cursor(size, chunkBytes, index, offset) ==> (offset == size <==> index == ChunkCount(size, chunkBytes))
  {
    ChunkExists(size, chunkBytes, index);
    if index > 0 { ChunkExists(size, chunkBytes, index - 1); }
  }

  /** Reading the next piece of the input reads the next chunk. */
  lemma CursorAdvance(input: Bytes, size: u64, chunkBytes: u64, index: nat, offset: u64, length: u64)
    requires chunkBytes > 0 && offset < size && Cursor(size, chunkBytes, index, offset)
    requires length == Min(size - offset, chunkBytes) && offset + length <= |input|
    ensures index < ChunkCount(size, chunkBytes) && index * chunkBytes < size
    ensures Chunk(Padded(input, size), index, chunkBytes) == input[offset..offset + length]
    ensures Cursor(size, chunkBytes, index + 1, offset + length)
    ensures offset + length == size <==> index + 1 == ChunkCount(size, chunkBytes)
    ensures input[..offset] + input[offset..offset + length] == input[..offset + length]
  {
    ChunkExists(size, chunkBytes, index);
    assert (index + 1) * chunkBytes == index * chunkBytes + chunkBytes;
    CursorMeaning(size, chunkBytes, index + 1, offset + length);
  }

  ghost predicate NoRootPut(log: seq<Event>) {
    forall e <- log :: !IsRootPut(e)
  }

  ghost function View(storage: VerifiedObjectStorage, run: seq<Event>): Outside
    reads storage
  {
    Outside(storage.cfg, storage.honest, storage.objects, run)
  }

  lemma PartPutsNoRoot(run: seq<Event>, intent: Intent, recorded: WriteReceipt, more: seq<Event>)
    requires NoRootPut(run) && more <= PartEvents(intent, recorded) && intent.contentType != ROOT_TYPE
    ensures NoRootPut(run + more)
  {
    forall e | e in more
      ensures !IsRootPut(e)
    {
      assert e in PartEvents(intent, recorded);
    }
  }

  lemma RefusedAppend(cfg: StorageConfig, objects: map<string, StoredObject>, a: seq<Event>, b: seq<Event>, more: seq<Event>)
    ensures more != [] ==> (Refused(cfg, objects, a + more) <==> Refused(cfg, objects, b + more))
  {
  }

  /** What a run keeps before its root: a store that is clear for the file, and one that already holds all of it. */
  ghost predicate Kept(before: map<string, StoredObject>, w: Outside, limit: TagLimit, proper: bool, codec: Codec,
                       write: ChunkedWrite, data: Bytes)
  {
    && (proper && Clear(w.cfg, limit, before, write.key, write.context) ==>
          Clear(w.cfg, limit, w.objects, write.key, write.context))
    && (Complete(w.cfg, limit, codec, before, write, data) ==> w.objects == before)
  }

  /** Something is in the place of this part. */
  predicate PartThere(w: Outside, base: ObjectKey, context: Digest, kind: string, bytes: Bytes) {
    var key := PartKey(base, kind, w.cfg.hash(bytes));
    key.Some? ==> Location(w.cfg.prefix, context, key.value) in w.objects
  }

  lemma CompleteIsThere(w: Outside, codec: Codec, write: ChunkedWrite, data: Bytes, limit: TagLimit, part: Part)
    requires ValidChunkSize(write.chunkBytes) && w.honest && Due(w, codec, write, data, part) && !part.RootPart?
    requires Complete(w.cfg, limit, codec, w.objects, write, data)
    requires |PartBytes(codec, write, data, part)| < U64_LIMIT
    ensures PartThere(w, write.key, write.context, if part.ChunkPart? then "chunks" else "pages",
                      PartBytes(codec, write, data, part))
  {
    var kind, bytes := if part.ChunkPart? then "chunks" else "pages", PartBytes(codec, write, data, part);
    var key := PartKey(write.key, kind, w.cfg.hash(bytes));
    hide Due, Complete, PartKey, ValidChunkSize;
    if key.Some? {
      CompleteHasPart(w, codec, write, data, limit, part,
                      Intent(key.value, write.context, w.cfg.hash(bytes), |bytes|, TypeOf(kind)));
    }
  }

  /** The last write was that of this part, and it was refused. */
  ghost predicate RefusedPart(w: Outside, base: ObjectKey, context: Digest, kind: string, bytes: Bytes) {
    Refused(w.cfg, w.objects, w.log) && Announces(w.cfg, base, context, kind, bytes, w.log[|w.log| - 1].intent)
  }

  /** Writes one chunk or page below its content address; what was secured before stays secured. */
  method StorePart(storage: VerifiedObjectStorage, base: ObjectKey, context: Digest, kind: string, bytes: Bytes,
                   contentType: string, ghost run: seq<Event>, ghost kept: seq<Pointer>, ghost pages: seq<Page>)
    returns (r: Result<Pointer>, ghost more: seq<Event>)
    requires |bytes| < U64_LIMIT
    requires PartKind(kind) && contentType == TypeOf(kind)
    requires PutsHaveIntents(run) && NoRootPut(run)
    requires AllSecured(View(storage, run), context, kept) && PagesSecured(View(storage, run), context, pages)
    modifies storage
    ensures storage.log == old(storage.log) + more
    ensures PutsHaveIntents(run + more) && NoRootPut(run + more)
    ensures storage.honest ==> Extends(old(storage.objects), storage.objects)
    ensures AllSecured(View(storage, run + more), context, kept) && PagesSecured(View(storage, run + more), context, pages)
    ensures r.Ok? ==>
      PointsTo(storage.cfg, r.value, base, kind, bytes) && Secured(View(storage, run + more), context, r.value)
    ensures storage.honest && storage.proper && Clear(storage.cfg, storage.tagLimit, old(storage.objects), base, context) ==>
      Clear(storage.cfg, storage.tagLimit, storage.objects, base, context)
    ensures storage.honest && old(PartThere(View(storage, run), base, context, kind, bytes)) ==>
      storage.objects == old(storage.objects)
    ensures storage.Answers() && KeyFits(base) && r.Err? ==>
      RefusedPart(View(storage, run + more), base, context, kind, bytes)
  {
    PartNames();
    PartTypes();
    more := [];
    assert run + more == run;
    PartKeyIff(base, kind, storage.cfg.hash(bytes));
    var key := PartKey(base, kind, storage.cfg.hash(bytes));
    if key.None? { return Err(InvalidKey), more; }
    ghost var start := View(storage, run);
    ghost var intent, recorded;
    ghost var logged := storage.log;
    var written;
    written, more, intent, recorded := WriteChunkPart(storage, key.value, context, bytes, contentType);
    RefusedAppend(storage.cfg, storage.objects, logged, run, more);
    AppendPart(run, intent, recorded, more);
    PartPutsNoRoot(run, intent, recorded, more);
    SecuredGrows(start, View(storage, run + more), context, kept, pages);
    if storage.honest && storage.proper && storage.objects != start.objects
       && Clear(storage.cfg, storage.tagLimit, start.objects, base, context) {
      ClearStays(storage.cfg, storage.tagLimit, start.objects, base, context, kind, intent, storage.objects);
    }
    if written.Err? { return Err(written.error), more; }
    assert (run + more)[|run| + 2] == ReceiptRecorded(written.value);
    r := Ok(FromReceipt(written.value));
  }

  lemma SecuredAppend(w: Outside, context: Digest, ps: seq<Pointer>, p: Pointer)
    requires AllSecured(w, context, ps) && Secured(w, context, p)
    ensures AllSecured(w, context, ps + [p])
  {
  }

  /** The chunks of a finished page move from the page being filled to the page list. */
  lemma SecuredMove(w: Outside, context: Digest, pointers: seq<Pointer>, p: Pointer, pages: seq<Page>, page: Page)
    requires AllSecured(w, context, pointers + page.chunks) && Secured(w, context, p)
    requires PagesSecured(w, context, pages)
    ensures AllSecured(w, context, pointers + [p] + [])
    ensures PagesSecured(w, context, pages + [page])
  {
    forall q | q in page.chunks || q in pointers
      ensures Secured(w, context, q)
    {
      assert q in pointers + page.chunks;
    }
  }

  lemma SecuredIsReady(w: Outside, codec: Codec, write: ChunkedWrite, input: Bytes, root: Root, pages: seq<Page>)
    requires AllSecured(w, write.context, root.pages) && PagesSecured(w, write.context, pages)
    requires |input| == write.size && w.cfg.hash(input) == write.digest
    requires IsTree(w.cfg, codec, write.key, input, root, pages)
    ensures ReadyForRoot(w.cfg, codec, write, input, root, pages, w.log)
  {
    forall q, j | 0 <= q < |pages| && 0 <= j < |pages[q].chunks|
      ensures Journalled(w.log, write.context, pages[q].chunks[j])
    {
      assert AllSecured(w, write.context, pages[q].chunks);
      assert Secured(w, write.context, pages[q].chunks[j]);
    }
    forall p | p in root.pages
      ensures Journalled(w.log, write.context, p)
    {
      assert Secured(w, write.context, p);
    }
  }

  /** What is secured in an honest store is what a reader will find there. */
  lemma SecuredIsHeld(w: Outside, receipt: ChunkedReceipt, root: Root, pages: seq<Page>)
    requires w.honest && Holds(w.cfg, w.objects, receipt.root)
    requires w.cfg.managed ==> NonEmptyTag(receipt.root.version) && NonEmptyTag(receipt.root.eTag)
    requires AllSecured(w, receipt.root.context, root.pages) && PagesSecured(w, receipt.root.context, pages)
    ensures HoldsTree(w.cfg, w.objects, receipt, root, pages)
  {
    forall page | page in pages
      ensures HoldsPage(w.cfg, w.objects, receipt.root.context, page)
    {
      assert AllSecured(w, receipt.root.context, page.chunks);
    }
  }

  /** The root's own events, appended to a run that is ready for it, are guarded. */
  lemma RootGuarded(cfg: StorageConfig, codec: Codec, write: ChunkedWrite, input: Bytes, root: Root, pages: seq<Page>,
                    run: seq<Event>, intent: Intent, recorded: WriteReceipt, more: seq<Event>)
    requires PutsHaveIntents(run) && NoRootPut(run) && more <= PartEvents(intent, recorded)
    requires ReadyForRoot(cfg, codec, write, input, root, pages, run)
    requires intent.key == write.key && intent.digest == cfg.hash(codec.encodeRoot(root))
    ensures PutsHaveIntents(run + more) && RootsGuarded(cfg, codec, write, input, root, pages, run + more)
  {
    AppendPart(run, intent, recorded, more);
    var all := run + more;
    assert forall i :: 0 <= i < |run| ==> all[i] == run[i] && run[i] in run;
    forall i | 0 <= i < |all| && IsRootPut(all[i])
      ensures ReadyForRoot(cfg, codec, write, input, root, pages, all[..i])
      ensures all[i].intent.key == write.key && all[i].intent.digest == cfg.hash(codec.encodeRoot(root))
    {
      assert all[i] == more[i - |run|] == PartEvents(intent, recorded)[i - |run|];
      assert i == |run| + 1 && all[..i] == run + [more[0]];
      forall p | p in root.pages { JournalledGrows(run, [more[0]], write.context, p); }
      forall q, j | 0 <= q < |pages| && 0 <= j < |pages[q].chunks| {
        JournalledGrows(run, [more[0]], write.context, pages[q].chunks[j]);
      }
    }
  }

  /** The loop invariant of `put_chunked` over what exists outside and the tree built so far. */
  ghost predicate Sound(w: Outside, codec: Codec, write: ChunkedWrite, data: Bytes, index: nat, chunks: seq<Pointer>,
                        pointers: seq<Pointer>, pages: seq<Page>)
  {
    && PutsHaveIntents(w.log) && NoRootPut(w.log)
    && Built(w.cfg, codec, write.key, write.chunkBytes, data, index, chunks, pointers, pages)
    && AllSecured(w, write.context, pointers + chunks)
    && PagesSecured(w, write.context, pages)
  }

  /** Stores chunk `index` and adds its pointer to the page being filled. */
  method StoreChunk(storage: VerifiedObjectStorage, codec: Codec, write: ChunkedWrite, bytes: Bytes, chunks: seq<Pointer>,
                    ghost index: nat, ghost data: Bytes, ghost pointers: seq<Pointer>, ghost pages: seq<Page>,
                    ghost run: seq<Event>)
    returns (r: Result<seq<Pointer>>, ghost more: seq<Event>)
    requires Sound(View(storage, run), codec, write, data, index, chunks, pointers, pages) && |chunks| < PAGE_ENTRIES
    requires index * write.chunkBytes < |data| && bytes == Chunk(data, index, write.chunkBytes)
    modifies storage
    ensures storage.log == old(storage.log) + more && PutsHaveIntents(run + more) && NoRootPut(run + more)
    ensures storage.honest ==> Extends(old(storage.objects), storage.objects)
    ensures r.Ok? ==>
      && |r.value| == |chunks| + 1
      && Sound(View(storage, run + more), codec, write, data, index + 1, r.value, pointers, pages)
    ensures storage.honest ==>
      Kept(old(storage.objects), View(storage, run + more), storage.tagLimit, storage.proper, codec, write, data)
    ensures storage.Answers() && KeyFits(write.key) && r.Err? ==>
      Blocked(View(storage, run + more), codec, write, data)
  {
    PartNames();
    PartTypes();
    if storage.honest && Complete(storage.cfg, storage.tagLimit, codec, storage.objects, write, data) {
      CompleteIsThere(View(storage, run), codec, write, data, storage.tagLimit, ChunkPart(index));
    }
    var part;
    part, more := StorePart(storage, write.key, write.context, "chunks", bytes, CHUNK_TYPE, run, pointers + chunks, pages);
    if part.Err? {
      if storage.Answers() && KeyFits(write.key) {
        assert Blocks(View(storage, run + more), codec, write, data, ChunkPart(index));
      }
      return Err(part.error), more;
    }
    ChunkBuilt(storage.cfg, codec, write.key, write.chunkBytes, data, index, chunks, pointers, pages, part.value);
    SecuredAppend(View(storage, run + more), write.context, pointers + chunks, part.value);
    assert pointers + (chunks + [part.value]) == pointers + chunks + [part.value];
    r := Ok(chunks + [part.value]);
  }

  /** Stores the page being filled, once it is full or the last one. */
  method StorePage(storage: VerifiedObjectStorage, codec: Codec, write: ChunkedWrite, index: u64, chunks: seq<Pointer>,
                   pointers: seq<Pointer>, ghost data: Bytes, ghost pages: seq<Page>, ghost run: seq<Event>)
    returns (r: Result<seq<Pointer>>, ghost page: Page, ghost more: seq<Event>)
    requires Sound(View(storage, run), codec, write, data, index, chunks, pointers, pages) && chunks != []
    requires |chunks| == PAGE_ENTRIES || index == ChunkCount(|data|, write.chunkBytes)
    modifies storage
    ensures storage.log == old(storage.log) + more && PutsHaveIntents(run + more) && NoRootPut(run + more)
    ensures storage.honest ==> Extends(old(storage.objects), storage.objects)
    ensures r.Ok? ==> Sound(View(storage, run + more), codec, write, data, index, [], r.value, pages + [page])
    ensures storage.honest ==>
      Kept(old(storage.objects), View(storage, run + more), storage.tagLimit, storage.proper, codec, write, data)
    ensures storage.Answers() && KeyFits(write.key) && r.Err? ==>
      Blocked(View(storage, run + more), codec, write, data)
  {
    PartNames();
    PartTypes();
    var built := Page(PAGE_FORMAT, index - |chunks|, chunks);
    page, more := built, [];
    assert run + more == run;
    PageComplete(storage.cfg, codec, write.key, write.chunkBytes, data, index, chunks, pointers, pages);
    var encoded := codec.encodePage(built);
    assert AllSecured(View(storage, run + more), write.context, chunks);
    if |encoded| > INDEX_BYTES {
      assert Blocks(View(storage, run + more), codec, write, data, PagePart(|pages|, built));
      return Err(SizeLimitExceeded), page, more;
    }
    if storage.honest && Complete(storage.cfg, storage.tagLimit, codec, storage.objects, write, data) {
      CompleteIsThere(View(storage, run), codec, write, data, storage.tagLimit, PagePart(|pages|, built));
    }
    var part;
    part, more := StorePart(storage, write.key, write.context, "pages", encoded, PAGE_TYPE, run, pointers + chunks, pages);
    if part.Err? {
      if storage.Answers() && KeyFits(write.key) {
        assert AllSecured(View(storage, run + more), write.context, chunks);
        assert Blocks(View(storage, run + more), codec, write, data, PagePart(|pages|, built));
      }
      return Err(part.error), page, more;
    }
    PageBuilt(storage.cfg, codec, write.key, write.chunkBytes, data, index, chunks, pointers, pages, built, part.value);
    SecuredMove(View(storage, run + more), write.context, pointers, part.value, pages, built);
    r := Ok(pointers + [part.value]);
  }

  /** One iteration: read a chunk, store it, and store its page when that is now complete. */
  method StoreNext(storage: VerifiedObjectStorage, codec: Codec, write: ChunkedWrite, input: Bytes, offset: u64, length: u64,
                   index: u64, chunks: seq<Pointer>, pointers: seq<Pointer>, ghost data: Bytes, ghost pages: seq<Page>,
                   ghost run: seq<Event>)
    returns (r: Result<(seq<Pointer>, seq<Pointer>)>, ghost pages': seq<Page>, ghost run': seq<Event>)
    requires Sound(View(storage, run), codec, write, data, index, chunks, pointers, pages) && |chunks| < PAGE_ENTRIES
    requires data == Padded(input, write.size) && ValidChunkSize(write.chunkBytes)
    requires offset < write.size && Cursor(write.size, write.chunkBytes, index, offset)
    requires length == Min(write.size - offset, write.chunkBytes) && index + 1 < U64_LIMIT
    modifies storage
    ensures run <= run' && storage.log == old(storage.log) + run'[|run|..] && PutsHaveIntents(run') && NoRootPut(run')
    ensures storage.honest ==> Extends(old(storage.objects), storage.objects)
    ensures r.Ok? ==>
      && Sound(View(storage, run'), codec, write, data, index + 1, r.value.0, r.value.1, pages')
      && |r.value.0| < PAGE_ENTRIES && (offset + length == write.size ==> r.value.0 == [])
      && offset + length <= |input| && Cursor(write.size, write.chunkBytes, index + 1, offset + length)
      && index < ChunkCount(write.size, write.chunkBytes)
    ensures storage.honest ==>
      Kept(old(storage.objects), View(storage, run'), storage.tagLimit, storage.proper, codec, write, data)
    ensures storage.Answers() && KeyFits(write.key) && r.Err? ==>
      Blocked(View(storage, run'), codec, write, data) || |input| < write.size
  {
    pages', run' := pages, run;
    var readOk: bool := *;
    if (!readOk && !storage.available) || offset + length > |input| { return Err(Backend), pages', run'; }
    CursorAdvance(input, write.size, write.chunkBytes, index, offset, length);
    hide Blocked, Clear, Cursor, ChunkCount, DivCeil, Extends;
    var bytes, last := input[offset..offset + length], offset + length == write.size;
    ghost var more, page;
    var next;
    next, more := StoreChunk(storage, codec, write, bytes, chunks, index, data, pointers, pages, run);
    pages', run' := pages, run + more;
    if next.Err? { return Err(next.error), pages', run'; }
    var filled := next.value;
    if |filled| < PAGE_ENTRIES && !last { return Ok((filled, pointers)), pages', run'; }
    next, page, more := StorePage(storage, codec, write, index + 1, filled, pointers, data, pages, run');
    run' := run' + more;
    if next.Err? { return Err(next.error), pages', run'; }
    pages' := pages + [page];
    r := Ok(([], next.value));
  }

  lemma SoundStart(w: Outside, codec: Codec, write: ChunkedWrite, data: Bytes)
    requires ValidChunkSize(write.chunkBytes) && w.log == []
    ensures Sound(w, codec, write, data, 0, [], [], [])
  {
  }

  /** The loop of `put_chunked`: all chunks and pages of the declared size, in bounded memory. */
  method WriteTree(storage: VerifiedObjectStorage, codec: Codec, write: ChunkedWrite, input: Bytes)
    returns (failure: Option<Error>, pointers: seq<Pointer>, hashed: Bytes, ghost pages: seq<Page>, ghost run: seq<Event>)
    requires ValidChunkSize(write.chunkBytes) && ChunkCount(write.size, write.chunkBytes) <= PAGE_ENTRIES * MAX_PAGES
    modifies storage
    ensures storage.log == old(storage.log) + run && PutsHaveIntents(run) && NoRootPut(run)
    ensures storage.honest ==> Extends(old(storage.objects), storage.objects)
    ensures failure.None? ==>
      && write.size <= |input| && hashed == input[..write.size]
      && Sound(View(storage, run), codec, write, Padded(input, write.size), ChunkCount(write.size, write.chunkBytes), [],
               pointers, pages)
    ensures storage.honest ==>
      Kept(old(storage.objects), View(storage, run), storage.tagLimit, storage.proper, codec, write, Padded(input, write.size))
    ensures storage.Answers() && KeyFits(write.key) && failure.Some? ==>
      Blocked(View(storage, run), codec, write, Padded(input, write.size)) || |input| < write.size
  {
    var chunks: seq<Pointer>;
    failure, pointers, chunks, hashed, pages, run := None, [], [], [], [], [];
    var offset: u64, index: u64 := 0, 0;
    ghost var data := Padded(input, write.size);
    SoundStart(View(storage, run), codec, write, data);
    hide Sound, Cursor, ChunkCount, DivCeil, PutsHaveIntents, NoRootPut, ValidChunkSize, Extends, Blocked, Clear;
    while failure.None? && offset < write.size
      invariant storage.log == old(storage.log) + run && PutsHaveIntents(run) && NoRootPut(run)
      invariant storage.honest ==> Extends(old(storage.objects), storage.objects)
      invariant failure.None? ==>
        && Cursor(write.size, write.chunkBytes, index, offset) && offset <= |input| && hashed == input[..offset]
        && Sound(View(storage, run), codec, write, data, index, chunks, pointers, pages)
        && |chunks| < PAGE_ENTRIES && (offset == write.size ==> chunks == [])
      invariant storage.honest ==>
        Kept(old(storage.objects), View(storage, run), storage.tagLimit, storage.proper, codec, write, data)
      invariant storage.Answers() && KeyFits(write.key) && failure.Some? ==>
        Blocked(View(storage, run), codec, write, data) || |input| < write.size
      decreases failure.None?, write.size - offset
    {
      var length: u64 := Min(write.size - offset, write.chunkBytes);
      var next;
      next, pages, run := StoreNext(storage, codec, write, input, offset, length, index, chunks, pointers, data, pages, run);
      if next.Ok? {
        hashed := hashed + input[offset..offset + length];
        chunks, pointers, offset, index := next.value.0, next.value.1, offset + length, index + 1;
      } else {
        failure := Some(next.error);
      }
    }
    CursorMeaning(write.size, write.chunkBytes, index, offset);
  }

  /** After a run a store that was clear for the file is clear or holds all of it; one that held all of it is unchanged. */
  ghost predicate StillResumable(before: map<string, StoredObject>, w: Outside, limit: TagLimit, proper: bool, codec: Codec,
                                 write: ChunkedWrite, data: Bytes)
  {
    && (proper && Clear(w.cfg, limit, before, write.key, write.context) ==>
          Resumable(w.cfg, limit, codec, w.objects, write, data))
    && (Complete(w.cfg, limit, codec, before, write, data) ==> w.objects == before)
  }

  lemma RootIsThere(w: Outside, codec: Codec, write: ChunkedWrite, data: Bytes, limit: TagLimit, root: Root, pages: seq<Page>)
    requires ValidChunkSize(write.chunkBytes) && Due(w, codec, write, data, RootPart(root, pages))
    ensures w.honest && Complete(w.cfg, limit, codec, w.objects, write, data) ==>
              Location(w.cfg.prefix, write.context, write.key) in w.objects
  {
  }

  /** A run that ends before its root leaves the file resumable. */
  lemma KeptIsResumable(before: map<string, StoredObject>, w: Outside, limit: TagLimit, proper: bool, codec: Codec,
                        write: ChunkedWrite, input: Bytes)
    requires Kept(before, w, limit, proper, codec, write, Padded(input, write.size))
    ensures StillResumable(before, w, limit, proper, codec, write, input)
  {
    hide Clear, StoredTree, PartsClear;
    if |input| == write.size { assert Padded(input, write.size) == input; }
  }

  /** The last step: only a ready tree reaches the root write. */
  method StoreRoot(storage: VerifiedObjectStorage, codec: Codec, write: ChunkedWrite, root: Root, ghost input: Bytes,
                   ghost pages: seq<Page>, ghost run: seq<Event>)
    returns (r: Result<ChunkedReceipt>, ghost more: seq<Event>)
    requires ValidChunkSize(write.chunkBytes)
    requires Sound(View(storage, run), codec, write, input, ChunkCount(|input|, write.chunkBytes), [], root.pages, pages)
    requires |input| == write.size && storage.cfg.hash(input) == write.digest
    requires |root.pages| <= MAX_PAGES
    requires root == RootOf(write, root.pages)
    modifies storage
    ensures storage.log == old(storage.log) + more
    ensures PutsHaveIntents(run + more) && RootsGuarded(storage.cfg, codec, write, input, root, pages, run + more)
    ensures storage.honest ==> Extends(old(storage.objects), storage.objects)
    ensures r.Ok? ==>
      && Commits(storage.cfg, codec, r.value, input, root, pages)
      && r.value.root.key == write.key && r.value.root.context == write.context && r.value.size == write.size
      && Journalled(run + more, write.context, FromReceipt(r.value.root))
    ensures r.Ok? && storage.honest ==> HoldsTree(storage.cfg, storage.objects, r.value, root, pages)
    ensures storage.honest ==>
      && StillResumable(old(storage.objects), View(storage, run + more), storage.tagLimit, storage.proper, codec, write, input)
      && (Complete(storage.cfg, storage.tagLimit, codec, old(storage.objects), write, input) && r.Ok? ==>
            r.value.root.replay)
    ensures storage.Answers() ==>
      && (r.Err? ==> storage.objects == old(storage.objects))
      && (r.Err? <==> Blocked(View(storage, run + more), codec, write, input))
  {
    PartTypes();
    more := [];
    assert run + more == run && root.pages + [] == root.pages;
    BuiltIsTree(storage.cfg, codec, write.key, input, ChunkCount(|input|, write.chunkBytes), pages, root);
    SecuredIsReady(View(storage, run), codec, write, input, root, pages);
    assert forall i :: 0 <= i < |run| ==> run[i] in run;
    var bytes := codec.encodeRoot(root);
    if |bytes| > INDEX_BYTES {
      assert Blocks(View(storage, run + more), codec, write, input, RootPart(root, pages));
      return Err(SizeLimitExceeded), more;
    }
    hide PartsClear, Roomy, DivCeil, StoredTree, HoldsPart, Holds;
    ghost var start := View(storage, run);
    ghost var intent, recorded;
    var receipt;
    ghost var logged := storage.log;
    RootIsThere(start, codec, write, input, storage.tagLimit, root, pages);
    receipt, more, intent, recorded := WriteChunkPart(storage, write.key, write.context, bytes, ROOT_TYPE);
    RefusedAppend(storage.cfg, storage.objects, logged, run, more);
    RootGuarded(storage.cfg, codec, write, input, root, pages, run, intent, recorded, more);
    SecuredGrows(start, View(storage, run + more), write.context, root.pages, pages);
    assert Due(View(storage, run + more), codec, write, input, RootPart(root, pages));
    if storage.honest && storage.proper && storage.objects != start.objects
       && Clear(storage.cfg, storage.tagLimit, start.objects, write.key, write.context) {
      RootCompletes(start, View(storage, run + more), codec, write, input, storage.tagLimit, root, pages, intent);
    }
    if receipt.Err? {
      assert storage.Answers() ==>
        Blocks(View(storage, run + more), codec, write, input, RootPart(root, pages));
      return Err(receipt.error), more;
    }
    assert (run + more)[|run| + 2] == ReceiptRecorded(receipt.value);
    r := Ok(ChunkedReceipt(receipt.value, write.digest, write.size, write.contentType));
    if storage.honest {
      SecuredIsHeld(View(storage, run + more), r.value, root, pages);
      CompletedIsNotBlocked(View(storage, run + more), codec, write, input, root, pages);
    }
  }

  /** A request within the limits, with a key under which every part can be named. */
  predicate Acceptable(cfg: StorageConfig, write: ChunkedWrite) {
    && write.size <= cfg.maxStreamedBytes && ValidChunkSize(write.chunkBytes)
    && ChunkCount(write.size, write.chunkBytes) <= PAGE_ENTRIES * MAX_PAGES
    && ValidFileType(write.contentType) && KeyFits(write.key)
  }

  /**
   A request is acceptable if the chunk size is a power of two from 64 KiB to 16 MiB, there are at most 2^20 chunks, the
   type is 1 to 256 printable ASCII characters, and the key leaves room for the names of the parts.
   */
  lemma AcceptableIff(cfg: StorageConfig, write: ChunkedWrite)
    ensures Acceptable(cfg, write) <==>
            && write.size <= cfg.maxStreamedBytes
            && (exists e: nat :: 16 <= e <= 24 && write.chunkBytes == Pow2(e))
            && write.size <= Pow2(20) * write.chunkBytes
            && 1 <= |write.contentType| <= 256 && (forall c <- write.contentType :: ' ' <= c <= '~')
            && forall digest: Digest :: PartKey(write.key, "chunks", digest).Some?
  {
    PartNames();
    PartKeyIff(write.key, "chunks", write.digest);
    forall digest: Digest { PartKeyIff(write.key, "chunks", digest); }
    hide PartKey;
    ChunkSizeIff(write.chunkBytes);
    PowersOfTwo();
    if ValidChunkSize(write.chunkBytes) { SizeBound(write.size, write.chunkBytes); }
    hide Pow2, ValidChunkSize, ChunkCount;
  }

  lemma PowersOfTwo()
    ensures Pow2(16) == 0x1_0000 && Pow2(17) == 0x2_0000 && Pow2(18) == 0x4_0000 && Pow2(19) == 0x8_0000
    ensures Pow2(20) == 0x10_0000 && Pow2(21) == 0x20_0000 && Pow2(22) == 0x40_0000 && Pow2(23) == 0x80_0000
    ensures Pow2(24) == 0x100_0000
  {
    assert Pow2(4) == 16;
    Pow2Sum(4, 4);
    Pow2Sum(8, 8);
  }

  lemma ChunkSizeIff(n: u64)
    ensures ValidChunkSize(n) <==> exists e: nat :: 16 <= e <= 24 && n == Pow2(e)
  {
    PowersOfTwo();
    hide Pow2;
    forall e: nat | 16 <= e <= 24
      ensures ValidChunkSize(Pow2(e))
    {
      assert e in {16, 17, 18, 19, 20, 21, 22, 23, 24};
    }
  }

  /** The input is the one announced. */
  predicate Announced(cfg: StorageConfig, write: ChunkedWrite, input: Bytes) {
    |input| == write.size && cfg.hash(input) == write.digest
  }

  /** The store is clear for the file and has room for all of its parts, or it already holds the file. */
  ghost predicate CanStart(cfg: StorageConfig, limit: TagLimit, codec: Codec, objects: map<string, StoredObject>,
                           write: ChunkedWrite, data: Bytes)
    requires ValidChunkSize(write.chunkBytes)
  {
    || (Clear(cfg, limit, objects, write.key, write.context) && Roomy(cfg, codec, write, limit))
    || Complete(cfg, limit, codec, objects, write, data)
  }

  lemma NothingInTheWay(storage: VerifiedObjectStorage, codec: Codec, write: ChunkedWrite, input: Bytes, run: seq<Event>)
    requires Acceptable(storage.cfg, write) && Announced(storage.cfg, write, input)
    ensures storage.honest && CanStart(storage.cfg, storage.tagLimit, codec, storage.objects, write, input) ==>
              !Blocked(View(storage, run), codec, write, input)
  {
    hide Clear, Roomy, Blocked, ChunkCount, Complete;
    if storage.honest && CanStart(storage.cfg, storage.tagLimit, codec, storage.objects, write, input) {
      if Complete(storage.cfg, storage.tagLimit, codec, storage.objects, write, input) {
        CompleteIsNotBlocked(View(storage, run), codec, write, input, storage.tagLimit);
      } else {
        ClearIsNotBlocked(View(storage, run), codec, write, input, storage.tagLimit);
      }
    }
  }

  /**
   `put_chunked`. Whatever the input, the journal and the store do: every PUT has its intent, the root is written only
   over a complete, journalled and verified tree, and a returned receipt commits to exactly the input. On an honest
   store nothing is ever replaced and a returned receipt can be read back. If that store, the journal and the input
   answer every call, the write fails exactly for a bad request, for an input that is not the announced one, or for a
   part of this file whose index object is too long or which the store refuses.

   It can be repeated: however a run ends, a store that was clear for the file is clear for it or holds all of it, and
   one that holds all of it does not change. From either of them the write succeeds if there is room for the parts.
   */
  method PutChunked(storage: VerifiedObjectStorage, codec: Codec, write: ChunkedWrite, input: Bytes)
    returns (r: Result<ChunkedReceipt>, ghost root: Root, ghost pages: seq<Page>, ghost run: seq<Event>)
    modifies storage
    ensures storage.log == old(storage.log) + run
    ensures PutsHaveIntents(run) && RootsGuarded(storage.cfg, codec, write, input, root, pages, run)
    ensures storage.honest ==> Extends(old(storage.objects), storage.objects)
    ensures r.Ok? ==>
      && Commits(storage.cfg, codec, r.value, input, root, pages)
      && r.value.root.key == write.key && r.value.root.context == write.context
      && Acceptable(storage.cfg, write) && r.value.size == write.size
      && Journalled(run, write.context, FromReceipt(r.value.root))
    ensures r.Ok? && storage.honest ==> HoldsTree(storage.cfg, storage.objects, r.value, root, pages)
    ensures storage.Answers() ==>
      (r.Err? <==> || !Acceptable(storage.cfg, write) || !Announced(storage.cfg, write, input)
                   || Blocked(View(storage, run), codec, write, input))
    ensures storage.honest && ValidChunkSize(write.chunkBytes) ==>
      && StillResumable(old(storage.objects), View(storage, run), storage.tagLimit, storage.proper, codec, write, input)
      && (Complete(storage.cfg, storage.tagLimit, codec, old(storage.objects), write, input) && r.Ok? ==>
            r.value.root.replay)
    ensures
      && storage.Answers() && Acceptable(storage.cfg, write) && Announced(storage.cfg, write, input)
      && CanStart(storage.cfg, storage.tagLimit, codec, old(storage.objects), write, input)
      ==> r.Ok?
  {
    PartNames();
    PartKeyIff(write.key, "chunks", write.digest);
    root, pages, run := Root("", "", "", "", 0, "", 0, []), [], [];
    if write.size > storage.cfg.maxStreamedBytes { return Err(SizeLimitExceeded), root, pages, run; }
    if !ValidChunkSize(write.chunkBytes)
       || ChunkCount(write.size, write.chunkBytes) > PAGE_ENTRIES * MAX_PAGES
       || !ValidFileType(write.contentType)
    {
      return Err(InvalidMetadata), root, pages, run;
    }
    if PartKey(write.key, "chunks", write.digest).None? { return Err(InvalidKey), root, pages, run; }
    hide Blocked, Complete, Clear, Roomy, HoldsTree, Commits, Extends, Sound, DivCeil, PartKey, ValidFileType;
    var failure, pointers, hashed;
    failure, pointers, hashed, pages, run := WriteTree(storage, codec, write, input);
    if storage.honest {
      KeptIsResumable(old(storage.objects), View(storage, run), storage.tagLimit, storage.proper, codec, write, input);
    }
    assert forall i :: 0 <= i < |run| ==> run[i] in run;
    if failure.Some? {
      assert |input| == write.size ==> input[..write.size] == input;
      if Announced(storage.cfg, write, input) && KeyFits(write.key) { NothingInTheWay(storage, codec, write, input, run); }
      return Err(failure.value), root, pages, run;
    }
    var extraOk: bool := *;
    if !extraOk && !storage.available { return Err(Backend), root, pages, run; }
    if |input| > write.size { return Err(SizeLimitExceeded), root, pages, run; }
    assert |input| == write.size && hashed == input[..write.size] == input;
    if storage.cfg.hash(hashed) != write.digest { return Err(DigestMismatch), root, pages, run; }
    var written := RootOf(write, pointers);
    root := written;
    ghost var more;
    ghost var objects := storage.objects;
    r, more := StoreRoot(storage, codec, write, written, input, pages, run);
    run := run + more;
    if r.Err? && storage.objects == objects { NothingInTheWay(storage, codec, write, input, run); }
  }
}
