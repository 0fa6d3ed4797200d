/** The objects of a chunked file while it is written: what is stored of it, and what can keep the next one out. */
module ChunkParts {
  import opened Common
  import opened Identity
  import opened Storage
  import opened ChunkFormat
  import opened ObjectStore

  datatype ChunkedWrite = ChunkedWrite(
    key: ObjectKey, context: Digest, size: u64, digest: Digest, contentType: string, chunkBytes: u64)

  function RootOf(write: ChunkedWrite, pages: seq<Pointer>): Root {
    Root(STORAGE_FORMAT, write.key, write.context, write.digest, write.size, write.contentType, write.chunkBytes, pages)
  }

  /** Every part below the key can be named. */
  predicate KeyFits(key: ObjectKey) {
    |key| + 78 <= MAX_KEY_BYTES
  }

  // ------------------------------------------------------- what is stored

  ghost predicate Journalled(log: seq<Event>, context: Digest, p: Pointer) {
    exists i :: 0 <= i < |log| && log[i].ReceiptRecorded? && log[i].receipt.context == context
                && FromReceipt(log[i].receipt) == p
  }

  lemma JournalledGrows(log: seq<Event>, more: seq<Event>, context: Digest, p: Pointer)
    requires Journalled(log, context, p)
    ensures Journalled(log + more, context, p)
  {
    var i :| 0 <= i < |log| && log[i].ReceiptRecorded? && log[i].receipt.context == context
             && FromReceipt(log[i].receipt) == p;
    assert (log + more)[i] == log[i];
  }

  /** What is known about the outside world: the journal so far and, when the store is honest, its objects. */
  datatype Outside = Outside(cfg: StorageConfig, honest: bool, objects: map<string, StoredObject>, log: seq<Event>)

  ghost predicate Later(before: Outside, after: Outside) {
    && after.cfg == before.cfg && after.honest == before.honest && before.log <= after.log
    && (after.honest ==> Extends(before.objects, after.objects))
  }

  /** The part is journalled and not too big, and an honest store holds it. */
  ghost predicate Secured(w: Outside, context: Digest, p: Pointer) {
    && Journalled(w.log, context, p) && p.size <= w.cfg.maxObjectBytes
    && (w.honest ==> HoldsPart(w.cfg, w.objects, context, p))
  }

  ghost predicate AllSecured(w: Outside, context: Digest, ps: seq<Pointer>) {
    forall p <- ps :: Secured(w, context, p)
  }

  ghost predicate PagesSecured(w: Outside, context: Digest, pages: seq<Page>) {
    forall page <- pages :: AllSecured(w, context, page.chunks)
  }

  lemma SecuredLater(before: Outside, after: Outside, context: Digest, p: Pointer)
    requires Later(before, after) && Secured(before, context, p)
    ensures Secured(after, context, p)
  {
    assert before.log + after.log[|before.log|..] == after.log;
    JournalledGrows(before.log, after.log[|before.log|..], context, p);
  }

  lemma SecuredGrows(before: Outside, after: Outside, context: Digest, ps: seq<Pointer>, pages: seq<Page>)
    requires Later(before, after) && AllSecured(before, context, ps) && PagesSecured(before, context, pages)
    ensures AllSecured(after, context, ps) && PagesSecured(after, context, pages)
  {
    forall p | p in ps
      ensures Secured(after, context, p)
    {
      SecuredLater(before, after, context, p);
    }
    forall page | page in pages
      ensures AllSecured(after, context, page.chunks)
    {
      forall p | p in page.chunks
        ensures Secured(after, context, p)
      {
        assert AllSecured(before, context, page.chunks);
        SecuredLater(before, after, context, p);
      }
    }
  }

  // --------------------------------------------------- the part in question

  /** One object of the file: a chunk, a page over stored chunks, or the root over stored pages. */
  datatype Part = ChunkPart(k: nat) | PagePart(q: nat, page: Page) | RootPart(root: Root, pages: seq<Page>)

  /** The part belongs to the file with content `data`, and everything it points to is stored. */
  ghost predicate Due(w: Outside, codec: Codec, write: ChunkedWrite, data: Bytes, part: Part)
    requires ValidChunkSize(write.chunkBytes)
  {
    match part
    case ChunkPart(k) => k * write.chunkBytes < |data|
    case PagePart(q, page) =>
      && q * PAGE_ENTRIES < ChunkCount(|data|, write.chunkBytes)
      && IsPage(w.cfg, write.key, data, write.chunkBytes, q, page) && AllSecured(w, write.context, page.chunks)
    case RootPart(root, pages) =>
      && root == RootOf(write, root.pages) && IsTree(w.cfg, codec, write.key, data, root, pages)
      && AllSecured(w, write.context, root.pages) && PagesSecured(w, write.context, pages)
  }

  function PartBytes(codec: Codec, write: ChunkedWrite, data: Bytes, part: Part): Bytes
    requires part.ChunkPart? ==> part.k * write.chunkBytes <= |data|
  {
    match part
    case ChunkPart(k) => Chunk(data, k, write.chunkBytes)
    case PagePart(_, page) => codec.encodePage(page)
    case RootPart(root, _) => codec.encodeRoot(root)
  }

  function TypeOf(kind: string): string {
    if kind == "chunks" then CHUNK_TYPE else PAGE_TYPE
  }

  predicate PartKind(kind: string) {
    kind == "chunks" || kind == "pages"
  }

  /** `i` announces a part of this kind with these bytes. */
  predicate Announces(cfg: StorageConfig, base: ObjectKey, context: Digest, kind: string, bytes: Bytes, i: Intent) {
    && PartKey(base, kind, cfg.hash(bytes)) == Some(i.key) && i.context == context
    && i.digest == cfg.hash(bytes) && i.size == |bytes| && i.contentType == TypeOf(kind)
  }

  predicate IsIntentOf(cfg: StorageConfig, codec: Codec, write: ChunkedWrite, data: Bytes, part: Part, i: Intent)
    requires part.ChunkPart? ==> part.k * write.chunkBytes <= |data|
  {
    var bytes := PartBytes(codec, write, data, part);
    match part
    case ChunkPart(_) => Announces(cfg, write.key, write.context, "chunks", bytes, i)
    case PagePart(_, _) => Announces(cfg, write.key, write.context, "pages", bytes, i)
    case RootPart(_, _) =>
      && i.key == write.key && i.context == write.context && i.digest == cfg.hash(bytes)
      && i.size == |bytes| && i.contentType == ROOT_TYPE
  }

  /** The store cannot take what the intent announces: it is too big, or something else is already there. */
  ghost predicate Unwelcome(cfg: StorageConfig, objects: map<string, StoredObject>, i: Intent) {
    var location := Location(cfg.prefix, i.context, i.key);
    || i.size > cfg.maxObjectBytes
    || (location in objects
        && !(Matches(cfg, objects[location], i.digest, i.contentType)
             && (cfg.managed ==> NonEmptyTag(objects[location].eTag) && NonEmptyTag(objects[location].version))))
  }

  /** The last write of the log was refused. */
  ghost predicate Refused(cfg: StorageConfig, objects: map<string, StoredObject>, log: seq<Event>) {
    && log != []
    && var last := log[|log| - 1];
    && !last.ReceiptRecorded? && Unwelcome(cfg, objects, last.intent)
  }

  /** This part of the file is what could not be written: its index object is too long, or the store refused it. */
  ghost predicate Blocks(w: Outside, codec: Codec, write: ChunkedWrite, data: Bytes, part: Part)
    requires ValidChunkSize(write.chunkBytes)
  {
    && Due(w, codec, write, data, part)
    && (|| (!part.ChunkPart? && |PartBytes(codec, write, data, part)| > INDEX_BYTES)
        || (Refused(w.cfg, w.objects, w.log) && IsIntentOf(w.cfg, codec, write, data, part, w.log[|w.log| - 1].intent)))
  }

  ghost predicate Blocked(w: Outside, codec: Codec, write: ChunkedWrite, data: Bytes)
    requires ValidChunkSize(write.chunkBytes)
  {
    exists part :: Blocks(w, codec, write, data, part)
  }

  // ------------------------------------------ stored parts are unambiguous

  predicate StoredPart(cfg: StorageConfig, objects: map<string, StoredObject>, context: Digest, p: Pointer) {
    HoldsPart(cfg, objects, context, p) && p.size <= cfg.maxObjectBytes
  }

  ghost predicate AllStored(cfg: StorageConfig, objects: map<string, StoredObject>, context: Digest, ps: seq<Pointer>) {
    forall p <- ps :: StoredPart(cfg, objects, context, p)
  }

  /** A root for this file, and all that it points to in the store. */
  ghost predicate StoredTree(cfg: StorageConfig, codec: Codec, objects: map<string, StoredObject>, write: ChunkedWrite,
                             data: Bytes, root: Root, pages: seq<Page>)
  {
    && root == RootOf(write, root.pages) && IsTree(cfg, codec, write.key, data, root, pages)
    && AllStored(cfg, objects, write.context, root.pages)
    && (forall page <- pages :: AllStored(cfg, objects, write.context, page.chunks))
  }

  lemma SecuredIsStored(w: Outside, context: Digest, ps: seq<Pointer>)
    requires w.honest && AllSecured(w, context, ps)
    ensures AllStored(w.cfg, w.objects, context, ps)
  {
    hide Journalled, HoldsPart;
    forall p | p in ps
      ensures StoredPart(w.cfg, w.objects, context, p)
    {
      assert Secured(w, context, p);
    }
  }

  /** Over stored pages a due root has its tree in the store. */
  lemma DueIsStored(w: Outside, codec: Codec, write: ChunkedWrite, data: Bytes, root: Root, pages: seq<Page>)
    requires ValidChunkSize(write.chunkBytes) && w.honest && Due(w, codec, write, data, RootPart(root, pages))
    ensures StoredTree(w.cfg, codec, w.objects, write, data, root, pages)
  {
    SecuredIsStored(w, write.context, root.pages);
    forall page | page in pages
      ensures AllStored(w.cfg, w.objects, write.context, page.chunks)
    {
      SecuredIsStored(w, write.context, page.chunks);
    }
    hide AllSecured, AllStored, IsTree;
  }

  lemma SamePointer(cfg: StorageConfig, objects: map<string, StoredObject>, context: Digest, a: Pointer, b: Pointer,
                    base: ObjectKey, kind: string, content: Bytes)
    requires PointsTo(cfg, a, base, kind, content) && PointsTo(cfg, b, base, kind, content)
    requires HoldsPart(cfg, objects, context, a) && HoldsPart(cfg, objects, context, b)
    ensures a == b
  {
  }

  lemma SamePage(cfg: StorageConfig, objects: map<string, StoredObject>, write: ChunkedWrite, data: Bytes, q: nat, a: Page,
                 b: Page)
    requires ValidChunkSize(write.chunkBytes)
    requires IsPage(cfg, write.key, data, write.chunkBytes, q, a) && AllStored(cfg, objects, write.context, a.chunks)
    requires IsPage(cfg, write.key, data, write.chunkBytes, q, b) && AllStored(cfg, objects, write.context, b.chunks)
    ensures a == b
  {
    forall j | 0 <= j < |a.chunks|
      ensures a.chunks[j] == b.chunks[j]
    {
      assert IsChunk(cfg, write.key, data, write.chunkBytes, q * PAGE_ENTRIES + j, a.chunks[j]);
      assert IsChunk(cfg, write.key, data, write.chunkBytes, q * PAGE_ENTRIES + j, b.chunks[j]);
      assert StoredPart(cfg, objects, write.context, a.chunks[j]) && StoredPart(cfg, objects, write.context, b.chunks[j]);
      hide ValidChunkSize, HoldsPart, PointsTo, Chunk;
      SamePointer(cfg, objects, write.context, a.chunks[j], b.chunks[j], write.key, "chunks",
                  Chunk(data, q * PAGE_ENTRIES + j, write.chunkBytes));
    }
  }

  lemma SameTree(cfg: StorageConfig, codec: Codec, objects: map<string, StoredObject>, write: ChunkedWrite, data: Bytes,
                 a: Root, pagesA: seq<Page>, b: Root, pagesB: seq<Page>)
    requires ValidChunkSize(write.chunkBytes)
    requires StoredTree(cfg, codec, objects, write, data, a, pagesA)
    requires StoredTree(cfg, codec, objects, write, data, b, pagesB)
    ensures a == b && pagesA == pagesB
  {
    forall q | 0 <= q < |pagesA|
      ensures a.pages[q] == b.pages[q] && pagesA[q] == pagesB[q]
    {
      assert pagesA[q] in pagesA && pagesB[q] in pagesB && a.pages[q] in a.pages && b.pages[q] in b.pages;
      assert StoredPart(cfg, objects, write.context, a.pages[q]) && StoredPart(cfg, objects, write.context, b.pages[q]);
      hide ValidChunkSize, HoldsPart, PointsTo, IsPage, AllStored;
      SamePage(cfg, objects, write, data, q, pagesA[q], pagesB[q]);
      SamePointer(cfg, objects, write.context, a.pages[q], b.pages[q], write.key, "pages", codec.encodePage(pagesA[q]));
    }
  }

  /** A due page or root over a stored tree is the one of that tree. */
  lemma DueIsThatOne(w: Outside, codec: Codec, write: ChunkedWrite, data: Bytes, root: Root, pages: seq<Page>, part: Part)
    requires ValidChunkSize(write.chunkBytes) && w.honest && Due(w, codec, write, data, part)
    requires StoredTree(w.cfg, codec, w.objects, write, data, root, pages)
    ensures part.PagePart? ==>
      && part.q < |pages| && part.page == pages[part.q]
      && PointsTo(w.cfg, root.pages[part.q], write.key, "pages", codec.encodePage(part.page))
      && root.pages[part.q].size <= Min(INDEX_BYTES, w.cfg.maxObjectBytes)
    ensures part.RootPart? ==> part.root == root && part.pages == pages
  {
    hide HoldsPart, IsPage, ValidChunkSize, Journalled;
    match part
    case ChunkPart(_) =>
    case PagePart(q, page) =>
      assert q < |pages| && pages[q] in pages && root.pages[q] in root.pages;
      assert StoredPart(w.cfg, w.objects, write.context, root.pages[q]);
      SecuredIsStored(w, write.context, page.chunks);
      SamePage(w.cfg, w.objects, write, data, q, page, pages[q]);
    case RootPart(other, list) =>
      DueIsStored(w, codec, write, data, other, list);
      SameTree(w.cfg, codec, w.objects, write, data, other, list, root, pages);
  }

  /** Once the root is journalled, no part can be named that was in the way. */
  lemma CompletedIsNotBlocked(w: Outside, codec: Codec, write: ChunkedWrite, data: Bytes, root: Root, pages: seq<Page>)
    requires ValidChunkSize(write.chunkBytes) && w.honest
    requires w.log != [] && w.log[|w.log| - 1].ReceiptRecorded?
    requires Due(w, codec, write, data, RootPart(root, pages)) && |codec.encodeRoot(root)| <= INDEX_BYTES
    ensures !Blocked(w, codec, write, data)
  {
    DueIsStored(w, codec, write, data, root, pages);
    forall part | Due(w, codec, write, data, part)
      ensures !Blocks(w, codec, write, data, part)
    {
      DueIsThatOne(w, codec, write, data, root, pages, part);
      hide Due, StoredTree;
    }
  }

  // ---------------------------------------------- when nothing is in the way

  /** What an honest store already holds in the place of this part is this part, under proper tags. */
  ghost predicate PartClear(cfg: StorageConfig, limit: TagLimit, objects: map<string, StoredObject>, key: ObjectKey,
                            context: Digest, kind: string, digest: Digest)
  {
    var partKey := PartKey(key, kind, digest);
    partKey.Some? ==>
      var location := Location(cfg.prefix, context, partKey.value);
      location in objects ==>
        && Matches(cfg, objects[location], digest, TypeOf(kind))
        && ProperTags(cfg, limit, objects[location].eTag, objects[location].version)
  }

  /** No foreign object is in the place of a part. */
  ghost predicate PartsClear(cfg: StorageConfig, limit: TagLimit, objects: map<string, StoredObject>, key: ObjectKey,
                             context: Digest)
  {
    forall kind, digest: Digest :: PartKind(kind) ==> PartClear(cfg, limit, objects, key, context, kind, digest)
  }

  /** And no root is there yet. */
  ghost predicate Clear(cfg: StorageConfig, limit: TagLimit, objects: map<string, StoredObject>, key: ObjectKey,
                        context: Digest)
  {
    Location(cfg.prefix, context, key) !in objects && PartsClear(cfg, limit, objects, key, context)
  }

  /** The one object a write may add. */
  ghost predicate Adds(cfg: StorageConfig, limit: TagLimit, before: map<string, StoredObject>, i: Intent,
                       after: map<string, StoredObject>)
  {
    var location := Location(cfg.prefix, i.context, i.key);
    && location !in before && location in after && after == before[location := after[location]]
    && Matches(cfg, after[location], i.digest, i.contentType) && |after[location].content| == i.size
    && ProperTags(cfg, limit, after[location].eTag, after[location].version)
  }

  lemma PartKeyInjective(base: ObjectKey, kindA: string, a: Digest, kindB: string, b: Digest)
    requires PartKey(base, kindA, a).Some? && PartKey(base, kindA, a) == PartKey(base, kindB, b)
    ensures kindA == kindB && a == b && PartKey(base, kindA, a).value != base
  {
    var head := base + ".parts/";
    assert head + kindA + "/" + a[7..] == head + (kindA + "/" + a[7..]);
    assert head + kindB + "/" + b[7..] == head + (kindB + "/" + b[7..]);
    SuffixInjective(head, head, kindA + "/" + a[7..], kindB + "/" + b[7..]);
    assert kindA + "/" + a[7..] == kindA + ("/" + a[7..]) && kindB + "/" + b[7..] == kindB + ("/" + b[7..]);
    SuffixInjective(kindA, kindB, "/" + a[7..], "/" + b[7..]);
    SuffixInjective("/", "/", a[7..], b[7..]);
    assert a == a[..7] + a[7..] && b == b[..7] + b[7..];
  }

  lemma ClearStays(cfg: StorageConfig, limit: TagLimit, before: map<string, StoredObject>, key: ObjectKey, context: Digest,
                   kind: string, i: Intent, after: map<string, StoredObject>)
    requires Clear(cfg, limit, before, key, context) && Adds(cfg, limit, before, i, after)
    requires PartKind(kind) && i.context == context && i.contentType == TypeOf(kind)
    requires PartKey(key, kind, i.digest) == Some(i.key)
    ensures Clear(cfg, limit, after, key, context)
  {
    hide Matches, ProperTags, Location, PartKey;
    var added := Location(cfg.prefix, context, i.key);
    PartKeyInjective(key, kind, i.digest, kind, i.digest);
    if Location(cfg.prefix, context, key) == added { LocationInjective(cfg.prefix, context, key, context, i.key); }
    forall other, digest: Digest | PartKind(other)
      ensures PartClear(cfg, limit, after, key, context, other, digest)
    {
      assert PartClear(cfg, limit, before, key, context, other, digest);
      var partKey := PartKey(key, other, digest);
      if partKey.Some? && Location(cfg.prefix, context, partKey.value) == added {
        LocationInjective(cfg.prefix, context, partKey.value, context, i.key);
        PartKeyInjective(key, kind, i.digest, other, digest);
      }
    }
  }

  /** The root is in no part's place. */
  lemma RootLeavesPartsClear(cfg: StorageConfig, limit: TagLimit, before: map<string, StoredObject>, key: ObjectKey,
                             context: Digest, i: Intent, after: map<string, StoredObject>)
    requires PartsClear(cfg, limit, before, key, context) && Adds(cfg, limit, before, i, after)
    requires i.context == context && i.key == key
    ensures PartsClear(cfg, limit, after, key, context)
  {
    hide Matches, ProperTags, Location, PartKey;
    forall other, digest: Digest | PartKind(other)
      ensures PartClear(cfg, limit, after, key, context, other, digest)
    {
      assert PartClear(cfg, limit, before, key, context, other, digest);
      var partKey := PartKey(key, other, digest);
      if partKey.Some? {
        PartKeyInjective(key, other, digest, other, digest);
        if Location(cfg.prefix, context, partKey.value) == Location(cfg.prefix, context, key) {
          LocationInjective(cfg.prefix, context, partKey.value, context, key);
        }
      }
    }
  }

  /** A pointer below the file's key, with tags within the limit. */
  predicate PointerFits(write: ChunkedWrite, limit: TagLimit, p: Pointer) {
    && |p.key| <= |write.key| + 78 && ValidKey(p.key) && ValidDigest(p.digest)
    && TagWithin(limit, p.version) && TagWithin(limit, p.eTag)
  }

  predicate AllFit(write: ChunkedWrite, limit: TagLimit, ps: seq<Pointer>) {
    forall p <- ps :: PointerFits(write, limit, p)
  }

  /** Every object the file can need is within the size limits, whatever tags within the limit the store hands out. */
  ghost predicate Roomy(cfg: StorageConfig, codec: Codec, write: ChunkedWrite, limit: TagLimit)
    requires ValidChunkSize(write.chunkBytes)
  {
    && Min(write.size, write.chunkBytes) <= cfg.maxObjectBytes
    && (forall page: Page ::
          && page.format == PAGE_FORMAT && page.firstChunk < PAGE_ENTRIES * MAX_PAGES
          && |page.chunks| <= Min(PAGE_ENTRIES, ChunkCount(write.size, write.chunkBytes)) && AllFit(write, limit, page.chunks) ==>
            |codec.encodePage(page)| <= Min(INDEX_BYTES, cfg.maxObjectBytes))
    && (forall pointers: seq<Pointer> ::
          |pointers| == PageCount(write.size, write.chunkBytes) && AllFit(write, limit, pointers) ==>
            |codec.encodeRoot(RootOf(write, pointers))| <= Min(INDEX_BYTES, cfg.maxObjectBytes))
  }

  lemma StoredPointerFits(w: Outside, write: ChunkedWrite, limit: TagLimit, kind: string, content: Bytes, p: Pointer)
    requires w.honest && Clear(w.cfg, limit, w.objects, write.key, write.context) && PartKind(kind)
    requires Secured(w, write.context, p) && PointsTo(w.cfg, p, write.key, kind, content)
    ensures PointerFits(write, limit, p)
  {
    assert PartClear(w.cfg, limit, w.objects, write.key, write.context, kind, w.cfg.hash(content));
    hide ValidKey, ValidDigest, Journalled;
  }

  lemma StoredPartsFit(w: Outside, codec: Codec, write: ChunkedWrite, data: Bytes, limit: TagLimit, part: Part)
    requires ValidChunkSize(write.chunkBytes) && w.honest
    requires Clear(w.cfg, limit, w.objects, write.key, write.context) && Due(w, codec, write, data, part)
    ensures part.PagePart? ==> AllFit(write, limit, part.page.chunks)
    ensures part.RootPart? ==> AllFit(write, limit, part.root.pages)
  {
    hide Clear, Secured, PointerFits, Chunk, ValidChunkSize;
    match part
    case ChunkPart(_) =>
    case PagePart(q, page) =>
      forall p | p in page.chunks
        ensures PointerFits(write, limit, p)
      {
        var j :| 0 <= j < |page.chunks| && page.chunks[j] == p;
        assert IsChunk(w.cfg, write.key, data, write.chunkBytes, q * PAGE_ENTRIES + j, p);
        StoredPointerFits(w, write, limit, "chunks", Chunk(data, q * PAGE_ENTRIES + j, write.chunkBytes), p);
      }
    case RootPart(root, pages) =>
      forall p | p in root.pages
        ensures PointerFits(write, limit, p)
      {
        var q :| 0 <= q < |root.pages| && root.pages[q] == p;
        StoredPointerFits(w, write, limit, "pages", codec.encodePage(pages[q]), p);
      }
  }

  lemma PartIsRoomy(w: Outside, codec: Codec, write: ChunkedWrite, data: Bytes, limit: TagLimit, part: Part)
    requires ValidChunkSize(write.chunkBytes) && w.honest && |data| == write.size
    requires ChunkCount(write.size, write.chunkBytes) <= PAGE_ENTRIES * MAX_PAGES
    requires Clear(w.cfg, limit, w.objects, write.key, write.context) && Due(w, codec, write, data, part)
    requires Roomy(w.cfg, codec, write, limit)
    ensures |PartBytes(codec, write, data, part)| <= w.cfg.maxObjectBytes
    ensures !part.ChunkPart? ==> |PartBytes(codec, write, data, part)| <= INDEX_BYTES
  {
    StoredPartsFit(w, codec, write, data, limit, part);
    hide Clear, AllSecured, PagesSecured, AllFit, ValidChunkSize;
    if part.ChunkPart? {
      assert |PartBytes(codec, write, data, part)| <= Min(write.size, write.chunkBytes);
    }
  }

  lemma PartIsWelcome(w: Outside, codec: Codec, write: ChunkedWrite, data: Bytes, limit: TagLimit, part: Part, i: Intent)
    requires PartsClear(w.cfg, limit, w.objects, write.key, write.context)
    requires part.RootPart? ==> !Unwelcome(w.cfg, w.objects, i)
    requires part.ChunkPart? ==> part.k * write.chunkBytes <= |data|
    requires IsIntentOf(w.cfg, codec, write, data, part, i) && i.size <= w.cfg.maxObjectBytes
    ensures !Unwelcome(w.cfg, w.objects, i)
  {
    if !part.RootPart? {
      var kind := if part.ChunkPart? then "chunks" else "pages";
      assert PartClear(w.cfg, limit, w.objects, write.key, write.context, kind, i.digest);
    }
  }

  /** With room for every part and nothing foreign in the way, no part of the file can be refused. */
  lemma ClearIsNotBlocked(w: Outside, codec: Codec, write: ChunkedWrite, data: Bytes, limit: TagLimit)
    requires ValidChunkSize(write.chunkBytes) && w.honest && |data| == write.size
    requires ChunkCount(write.size, write.chunkBytes) <= PAGE_ENTRIES * MAX_PAGES
    requires Clear(w.cfg, limit, w.objects, write.key, write.context) && Roomy(w.cfg, codec, write, limit)
    ensures !Blocked(w, codec, write, data)
  {
    forall part | Due(w, codec, write, data, part)
      ensures !Blocks(w, codec, write, data, part)
    {
      PartIsRoomy(w, codec, write, data, limit, part);
      hide Roomy, Due, ChunkCount, ValidChunkSize, PartsClear, PartBytes;
      forall i: Intent | IsIntentOf(w.cfg, codec, write, data, part, i)
        ensures !Unwelcome(w.cfg, w.objects, i)
      {
        PartIsWelcome(w, codec, write, data, limit, part, i);
      }
    }
  }

  // ------------------------------------------------------ once it is all there

  /** The store holds the whole file, under a root with these pages, and nothing foreign in the place of a part. */
  ghost predicate IsComplete(cfg: StorageConfig, limit: TagLimit, codec: Codec, objects: map<string, StoredObject>,
                             write: ChunkedWrite, data: Bytes, root: Root, pages: seq<Page>)
  {
    var bytes, location := codec.encodeRoot(root), Location(cfg.prefix, write.context, write.key);
    && |data| == write.size && cfg.hash(data) == write.digest
    && StoredTree(cfg, codec, objects, write, data, root, pages) && PartsClear(cfg, limit, objects, write.key, write.context)
    && |bytes| <= Min(INDEX_BYTES, cfg.maxObjectBytes)
    && location in objects && Matches(cfg, objects[location], cfg.hash(bytes), ROOT_TYPE)
    && ProperTags(cfg, limit, objects[location].eTag, objects[location].version)
  }

  ghost predicate Complete(cfg: StorageConfig, limit: TagLimit, codec: Codec, objects: map<string, StoredObject>,
                           write: ChunkedWrite, data: Bytes)
  {
    exists root, pages :: IsComplete(cfg, limit, codec, objects, write, data, root, pages)
  }

  /** A write of the file can start here: from nothing, from any part of it, or over the whole of it. */
  ghost predicate Resumable(cfg: StorageConfig, limit: TagLimit, codec: Codec, objects: map<string, StoredObject>,
                            write: ChunkedWrite, data: Bytes)
  {
    Clear(cfg, limit, objects, write.key, write.context) || Complete(cfg, limit, codec, objects, write, data)
  }

  /** The place of chunk `k` in the tree. */
  lemma ChunkInTree(cfg: StorageConfig, codec: Codec, objects: map<string, StoredObject>, write: ChunkedWrite, data: Bytes,
                    root: Root, pages: seq<Page>, k: nat)
    returns (p: Pointer)
    requires ValidChunkSize(write.chunkBytes) && StoredTree(cfg, codec, objects, write, data, root, pages)
    requires k * write.chunkBytes < |data|
    ensures PointsTo(cfg, p, write.key, "chunks", Chunk(data, k, write.chunkBytes))
    ensures StoredPart(cfg, objects, write.context, p)
  {
    assert write.chunkBytes > 0;
    hide HoldsPart, PointsTo, ValidChunkSize, ChunkCount, PageCount, StoredPart, Chunk;
    PageOfChunk(|data|, write.chunkBytes, k);
    var q := k / PAGE_ENTRIES;
    assert pages[q] in pages && IsPage(cfg, write.key, data, write.chunkBytes, q, pages[q]);
    p := ChunkInPage(cfg, write.key, data, write.chunkBytes, pages[q], k);
    assert AllStored(cfg, objects, write.context, pages[q].chunks);
  }

  lemma ChunkInPage(cfg: StorageConfig, base: ObjectKey, data: Bytes, chunkBytes: nat, page: Page, k: nat) returns (p: Pointer)
    requires chunkBytes > 0 && k * chunkBytes < |data|
    requires IsPage(cfg, base, data, chunkBytes, k / PAGE_ENTRIES, page)
    ensures p in page.chunks && IsChunk(cfg, base, data, chunkBytes, k, p)
  {
    hide ChunkCount, PageCount, PointsTo, Chunk;
    PageOfChunk(|data|, chunkBytes, k);
    var q, j := k / PAGE_ENTRIES, k % PAGE_ENTRIES;
    p := page.chunks[j];
    assert IsChunk(cfg, base, data, chunkBytes, q * PAGE_ENTRIES + j, p);
  }

  lemma PageOfChunk(size: nat, chunkBytes: nat, k: nat)
    requires chunkBytes > 0 && k * chunkBytes < size
    ensures var q, j := k / PAGE_ENTRIES, k % PAGE_ENTRIES;
            && q < PageCount(size, chunkBytes) && q * PAGE_ENTRIES + j == k
            && j < Min(ChunkCount(size, chunkBytes) - q * PAGE_ENTRIES, PAGE_ENTRIES)
  {
    ChunkExists(size, chunkBytes, k);
    hide ChunkCount;
  }

  /** Where the whole file is stored, every part that is due is in its place. */
  lemma CompleteHasPart(w: Outside, codec: Codec, write: ChunkedWrite, data: Bytes, limit: TagLimit, part: Part, i: Intent)
    requires ValidChunkSize(write.chunkBytes) && w.honest && Due(w, codec, write, data, part)
    requires Complete(w.cfg, limit, codec, w.objects, write, data)
    requires IsIntentOf(w.cfg, codec, write, data, part, i)
    ensures Location(w.cfg.prefix, write.context, i.key) in w.objects
    ensures !Unwelcome(w.cfg, w.objects, i) && (!part.ChunkPart? ==> i.size <= INDEX_BYTES)
  {
    var root, pages :| IsComplete(w.cfg, limit, codec, w.objects, write, data, root, pages);
    DueIsThatOne(w, codec, write, data, root, pages, part);
    if part.ChunkPart? {
      var p := ChunkInTree(w.cfg, codec, w.objects, write, data, root, pages, part.k);
    }
    if part.PagePart? {
      assert StoredPart(w.cfg, w.objects, write.context, root.pages[part.q]);
    }
    hide Due, StoredTree, ValidChunkSize, PartsClear, Chunk, PartKey;
    PartIsWelcome(w, codec, write, data, limit, part, i);
  }

  lemma CompleteIsNotBlocked(w: Outside, codec: Codec, write: ChunkedWrite, data: Bytes, limit: TagLimit)
    requires ValidChunkSize(write.chunkBytes) && w.honest && Complete(w.cfg, limit, codec, w.objects, write, data)
    ensures !Blocked(w, codec, write, data)
  {
    forall part | Due(w, codec, write, data, part)
      ensures !Blocks(w, codec, write, data, part)
    {
      forall i: Intent | IsIntentOf(w.cfg, codec, write, data, part, i)
        ensures !Unwelcome(w.cfg, w.objects, i)
      {
        CompleteHasPart(w, codec, write, data, limit, part, i);
      }
      var root, pages :| IsComplete(w.cfg, limit, codec, w.objects, write, data, root, pages);
      DueIsThatOne(w, codec, write, data, root, pages, part);
      hide Due, Complete, StoredTree, PartsClear, Unwelcome, IsIntentOf, ValidChunkSize;
    }
  }

  /** Writing the due root over a clear store makes it complete. */
  lemma RootCompletes(before: Outside, after: Outside, codec: Codec, write: ChunkedWrite, data: Bytes, limit: TagLimit,
                      root: Root, pages: seq<Page>, i: Intent)
    requires ValidChunkSize(write.chunkBytes) && before.honest && before.cfg == after.cfg && before.honest == after.honest
    requires |data| == write.size && before.cfg.hash(data) == write.digest
    requires Clear(before.cfg, limit, before.objects, write.key, write.context)
    requires Due(after, codec, write, data, RootPart(root, pages))
    requires IsIntentOf(before.cfg, codec, write, data, RootPart(root, pages), i) && i.size <= INDEX_BYTES
    requires Adds(before.cfg, limit, before.objects, i, after.objects)
    ensures Complete(after.cfg, limit, codec, after.objects, write, data)
  {
    DueIsStored(after, codec, write, data, root, pages);
    RootLeavesPartsClear(before.cfg, limit, before.objects, write.key, write.context, i, after.objects);
    hide Due, StoredTree, PartsClear, ValidChunkSize;
    assert IsComplete(after.cfg, limit, codec, after.objects, write, data, root, pages);
  }
}
