/** Reading back, from an honest store, what a chunked write committed. */
module RoundTrip {
  import opened Common
  import opened Identity
  import opened Storage
  import opened ChunkFormat
  import opened ChunkParts
  import opened Reader
  import opened ReaderProofs

  predicate PageTagsUsable(page: Page) {
    forall p <- page.chunks :: UsableTags(p)
  }

  /** Every version and ETag the store handed out for a part is 1 to 2048 bytes long, or absent. */
  predicate TagsUsable(root: Root, pages: seq<Page>) {
    (forall p <- root.pages :: UsableTags(p)) && (forall page <- pages :: PageTagsUsable(page))
  }

  predicate HonestPart(cfg: StorageConfig, objects: map<string, StoredObject>, context: Digest, p: Pointer, reply: GetReply) {
    ValidKey(p.key) ==> HonestGet(objects, Location(cfg.prefix, context, p.key), p.version, reply)
  }

  predicate RootTagsUsable(root: Root) {
    forall p <- root.pages :: UsableTags(p)
  }

  /** Page `q` lists a chunk that holds some of the bytes `from` to `to`. */
  ghost predicate Needed(from: nat, to: nat, chunkBytes: nat, q: nat)
    requires chunkBytes > 0
  {
    exists k: nat :: from / chunkBytes <= k < ChunkCount(to, chunkBytes) && k / PAGE_ENTRIES == q
  }

  /** All the pages that a read of these bytes goes through list usable tags. */
  ghost predicate NeededTagsUsable(pages: seq<Page>, from: nat, to: nat, chunkBytes: nat)
    requires chunkBytes > 0
  {
    forall q :: 0 <= q < |pages| && Needed(from, to, chunkBytes, q) ==> PageTagsUsable(pages[q])
  }

  /** First byte of a range, and the one after its last. */
  function From(range: Range): nat {
    if range.Whole? then 0 else range.from
  }

  function To(range: Range, size: nat): nat {
    if range.Whole? then size else range.to
  }

  /** Every tag a read of the range uses is 1 to 2048 bytes long, or absent. */
  ghost predicate RangeTagsUsable(root: Root, pages: seq<Page>, range: Range)
    requires root.chunkBytes > 0
  {
    RootTagsUsable(root) && NeededTagsUsable(pages, From(range), To(range, root.size), root.chunkBytes)
  }

  /** A whole read uses all of them. */
  lemma WholeNeedsEveryPage(root: Root, pages: seq<Page>)
    requires root.chunkBytes > 0 && |pages| == PageCount(root.size, root.chunkBytes)
    ensures RangeTagsUsable(root, pages, Whole) <==> TagsUsable(root, pages)
  {
    forall q | 0 <= q < |pages|
      ensures Needed(0, root.size, root.chunkBytes, q)
    {
      assert 0 / root.chunkBytes == 0;
      assert 0 / root.chunkBytes <= q * PAGE_ENTRIES < ChunkCount(root.size, root.chunkBytes)
             && (q * PAGE_ENTRIES) / PAGE_ENTRIES == q;
    }
  }

  /** Both answers a step may consume are those of a store that holds `objects`. */
  predicate HonestAnswers(cfg: StorageConfig, codec: Codec, objects: map<string, StoredObject>, s: State, a: Answers)
    requires s.root.chunkBytes > 0
  {
    var index, context := s.nextChunk / PAGE_ENTRIES, s.receipt.root.context;
    && (index < |s.root.pages| ==> HonestPart(cfg, objects, context, s.root.pages[index], a.page))
    && var page := CurrentPage(cfg, codec, s, a.page);
    (page.Ok? && s.nextChunk % PAGE_ENTRIES < |page.value| ==>
       HonestPart(cfg, objects, context, page.value[s.nextChunk % PAGE_ENTRIES], a.chunk))
  }

  ghost predicate HonestRun(cfg: StorageConfig, codec: Codec, objects: map<string, StoredObject>, s: State,
                            answers: seq<Answers>)
    requires Valid(s)
    decreases |answers|
  {
    answers == [] ||
    var init := answers[..|answers| - 1];
    && HonestRun(cfg, codec, objects, s, init)
    && HonestAnswers(cfg, codec, objects, Run(cfg, codec, s, init).0, answers[|answers| - 1])
  }

  /** One held part read from an honest store is returned byte for byte. */
  lemma PartReads(cfg: StorageConfig, objects: map<string, StoredObject>, context: Digest, p: Pointer, base: ObjectKey,
                  kind: string, part: Bytes, maxBytes: nat, reply: GetReply)
    requires HoldsPart(cfg, objects, context, p) && PointsTo(cfg, p, base, kind, part) && UsableTags(p)
    requires HonestPart(cfg, objects, context, p, reply) && Genuine(cfg, part, reply)
    requires p.size <= maxBytes
    ensures ToReceipt(p, context).Ok? && ReadReceipt(cfg, ToReceipt(p, context).value, maxBytes, reply) == Ok(part)
  {
    var receipt := ToReceipt(p, context).value;
    var held := objects[Location(cfg.prefix, context, receipt.key)];
    assert Delivers(held, reply);
    assert held.content == part;
    HeldReceiptReads(cfg, objects, receipt, maxBytes, reply);
  }

  lemma CommittedPageOk(cfg: StorageConfig, codec: Codec, receipt: ChunkedReceipt, data: Bytes, root: Root, pages: seq<Page>,
                        index: nat)
    requires Commits(cfg, codec, receipt, data, root, pages) && index < |pages|
    requires PageTagsUsable(pages[index])
    ensures PageOk(root, receipt.root, index, pages[index].chunks)
  {
    forall i | 0 <= i < |pages[index].chunks|
      ensures ChunkPointerOk(root, receipt.root, index * PAGE_ENTRIES + i, pages[index].chunks[i])
    {
      assert IsPage(cfg, receipt.root.key, data, root.chunkBytes, index, pages[index]);
      assert IsChunk(cfg, receipt.root.key, data, root.chunkBytes, index * PAGE_ENTRIES + i, pages[index].chunks[i]);
      assert UsableTags(pages[index].chunks[i]);
    }
  }

  lemma HonestPageLoads(cfg: StorageConfig, codec: Codec, receipt: ChunkedReceipt, data: Bytes, pages: seq<Page>,
                        objects: map<string, StoredObject>, s: State, reply: GetReply)
    requires Faithful(codec) && Commits(cfg, codec, receipt, data, s.root, pages) && s.receipt == receipt
    requires HoldsTree(cfg, objects, receipt, s.root, pages) && RootTagsUsable(s.root)
    requires NoCollision(cfg, codec, data, s.root, pages, reply)
    requires s.nextChunk / PAGE_ENTRIES < |pages| && PageTagsUsable(pages[s.nextChunk / PAGE_ENTRIES])
    requires HonestPart(cfg, objects, receipt.root.context, s.root.pages[s.nextChunk / PAGE_ENTRIES], reply)
    requires s.loadedPage.Some? ==> s.loadedPage.value < |pages| && s.page == pages[s.loadedPage.value].chunks
    ensures CurrentPage(cfg, codec, s, reply) == Ok(pages[s.nextChunk / PAGE_ENTRIES].chunks)
  {
    var index := s.nextChunk / PAGE_ENTRIES;
    assert pages[index] in pages && s.root.pages[index] in s.root.pages;
    if s.loadedPage != Some(index) {
      PartReads(cfg, objects, receipt.root.context, s.root.pages[index], receipt.root.key, "pages",
                codec.encodePage(pages[index]), INDEX_BYTES, reply);
      CommittedPageOk(cfg, codec, receipt, data, s.root, pages, index);
      assert IsPage(cfg, receipt.root.key, data, s.root.chunkBytes, index, pages[index]);
    }
  }

  lemma PointerHeld(cfg: StorageConfig, objects: map<string, StoredObject>, receipt: ChunkedReceipt, root: Root,
                    pages: seq<Page>, index: nat, j: nat)
    requires HoldsTree(cfg, objects, receipt, root, pages)
    requires index < |pages| && j < |pages[index].chunks| && PageTagsUsable(pages[index])
    ensures HoldsPart(cfg, objects, receipt.root.context, pages[index].chunks[j]) && UsableTags(pages[index].chunks[j])
  {
    assert pages[index] in pages && pages[index].chunks[j] in pages[index].chunks;
    assert HoldsPage(cfg, objects, receipt.root.context, pages[index]) && PageTagsUsable(pages[index]);
  }

  lemma HonestChunkReads(cfg: StorageConfig, codec: Codec, receipt: ChunkedReceipt, data: Bytes, pages: seq<Page>,
                         objects: map<string, StoredObject>, s: State, reply: GetReply)
    requires Commits(cfg, codec, receipt, data, s.root, pages)
    requires Valid(s) && s.receipt == receipt && s.nextChunk * s.root.chunkBytes < |data|
    requires HoldsTree(cfg, objects, receipt, s.root, pages)
    requires NoCollision(cfg, codec, data, s.root, pages, reply)
    requires s.nextChunk / PAGE_ENTRIES < |pages| && PageTagsUsable(pages[s.nextChunk / PAGE_ENTRIES])
    requires s.nextChunk % PAGE_ENTRIES < |pages[s.nextChunk / PAGE_ENTRIES].chunks|
    requires HonestPart(cfg, objects, receipt.root.context,
                        pages[s.nextChunk / PAGE_ENTRIES].chunks[s.nextChunk % PAGE_ENTRIES], reply)
    ensures var pointer := pages[s.nextChunk / PAGE_ENTRIES].chunks[s.nextChunk % PAGE_ENTRIES];
            && ToReceipt(pointer, receipt.root.context).Ok?
            && ReadReceipt(cfg, ToReceipt(pointer, receipt.root.context).value, s.root.chunkBytes, reply).Ok?
  {
    var index, j := s.nextChunk / PAGE_ENTRIES, s.nextChunk % PAGE_ENTRIES;
    NextPointer(cfg, codec, s, receipt, data, pages);
    PointerHeld(cfg, objects, receipt, s.root, pages, index, j);
    var pointer := pages[index].chunks[j];
    hide HoldsTree, PageTagsUsable, IsPage, ReadReceipt, ToReceipt, HoldsPart, HonestPart;
    PartReads(cfg, objects, receipt.root.context, pointer, receipt.root.key, "chunks",
              Chunk(data, s.nextChunk, s.root.chunkBytes), s.root.chunkBytes, reply);
  }

  lemma NotBefore(a: nat, b: nat, chunkBytes: nat, from: nat)
    requires a * chunkBytes <= from < (b + 1) * chunkBytes
    ensures a <= b
  {
    if b + 1 <= a { MulMonotone(b + 1, a, chunkBytes); }
  }

  /** The page of the next chunk is one the range needs. */
  lemma NextIsNeeded(s: State)
    requires Valid(s) && s.nextChunk * s.root.chunkBytes < s.to
    ensures Needed(s.from, s.to, s.root.chunkBytes, s.nextChunk / PAGE_ENTRIES)
  {
    var cb := s.root.chunkBytes;
    ChunkExists(s.to, cb, s.nextChunk);
    DivBounds(s.from, cb);
    Distribute(s.nextChunk, cb);
    NotBefore(s.from / cb, s.nextChunk, cb, s.from);
  }

  lemma HonestStepSucceeds(cfg: StorageConfig, codec: Codec, receipt: ChunkedReceipt, data: Bytes, root: Root,
                           pages: seq<Page>, objects: map<string, StoredObject>, s: State, a: Answers, out: Bytes)
    requires Faithful(codec) && Commits(cfg, codec, receipt, data, root, pages)
    requires Authentic(receipt, data, root, pages, s, out) && DigestInvariant(cfg, s, out) && !s.failed
    requires HoldsTree(cfg, objects, receipt, root, pages)
    requires RootTagsUsable(root) && NeededTagsUsable(pages, s.from, s.to, root.chunkBytes)
    requires NoCollision(cfg, codec, data, root, pages, a.page) && NoCollision(cfg, codec, data, root, pages, a.chunk)
    requires HonestAnswers(cfg, codec, objects, s, a)
    ensures !Next(cfg, codec, s, a.page, a.chunk).0.failed
  {
    if s.nextChunk * root.chunkBytes < s.to {
      StepInRange(cfg, codec, s, a.page);
      NextIsNeeded(s);
      HonestPageLoads(cfg, codec, receipt, data, pages, objects, s, a.page);
      HonestChunkReads(cfg, codec, receipt, data, pages, objects, s, a.chunk);
    } else if s.hashed.Some? {
      assert out == data[0..|data|] == data;
    }
  }

  lemma {:induction false} SameRange(cfg: StorageConfig, codec: Codec, s: State, answers: seq<Answers>)
    requires Valid(s)
    ensures var r := Run(cfg, codec, s, answers).0; r.root == s.root && r.from == s.from && r.to == s.to
  {
    if answers != [] {
      var init, last := answers[..|answers| - 1], answers[|answers| - 1];
      SameRange(cfg, codec, s, init);
      NextFrame(cfg, codec, Run(cfg, codec, s, init).0, last);
    }
  }

  lemma {:induction false} HonestRunSucceeds(cfg: StorageConfig, codec: Codec, receipt: ChunkedReceipt, data: Bytes,
                                             root: Root, pages: seq<Page>, objects: map<string, StoredObject>, s: State,
                                             answers: seq<Answers>)
    requires Faithful(codec) && Commits(cfg, codec, receipt, data, root, pages)
    requires Authentic(receipt, data, root, pages, s, []) && DigestInvariant(cfg, s, []) && !s.failed
    requires HoldsTree(cfg, objects, receipt, root, pages)
    requires RootTagsUsable(root) && NeededTagsUsable(pages, s.from, s.to, root.chunkBytes)
    requires NoCollisions(cfg, codec, data, root, pages, answers)
    requires HonestRun(cfg, codec, objects, s, answers)
    ensures !Run(cfg, codec, s, answers).0.failed
  {
    if answers != [] {
      var init, last := answers[..|answers| - 1], answers[|answers| - 1];
      assert last in answers && forall a <- init :: a in answers;
      HonestRunSucceeds(cfg, codec, receipt, data, root, pages, objects, s, init);
      RunAuthentic(cfg, codec, receipt, data, root, pages, s, init);
      DigestRun(cfg, codec, s, init);
      SameRange(cfg, codec, s, init);
      var (mid, out) := Run(cfg, codec, s, init);
      HonestStepSucceeds(cfg, codec, receipt, data, root, pages, objects, mid, last, out);
    }
  }

  lemma CommittedPagePointersOk(cfg: StorageConfig, codec: Codec, receipt: ChunkedReceipt, data: Bytes, root: Root,
                                pages: seq<Page>)
    requires Commits(cfg, codec, receipt, data, root, pages)
    ensures (forall p <- root.pages :: PagePointerOk(receipt.root, p)) <==> (forall p <- root.pages :: UsableTags(p))
  {
    forall p | p in root.pages
      ensures PagePointerOk(receipt.root, p) <==> UsableTags(p)
    {
      var i :| 0 <= i < |root.pages| && root.pages[i] == p;
      assert PointsTo(cfg, p, receipt.root.key, "pages", codec.encodePage(pages[i]));
    }
  }

  predicate RangeOk(range: Range, size: nat) {
    range.Part? ==> range.from < range.to <= size
  }

  /** Opening succeeds exactly for a range inside the file, and if every page pointer can be turned back into a receipt. */
  lemma HonestOpen(cfg: StorageConfig, codec: Codec, receipt: ChunkedReceipt, data: Bytes, root: Root, pages: seq<Page>,
                   objects: map<string, StoredObject>, range: Range, reply: GetReply)
    requires Faithful(codec) && Commits(cfg, codec, receipt, data, root, pages)
    requires HoldsTree(cfg, objects, receipt, root, pages)
    requires Genuine(cfg, codec.encodeRoot(root), reply)
    requires HonestGet(objects, Location(cfg.prefix, receipt.root.context, receipt.root.key), receipt.root.version, reply)
    ensures Open(cfg, codec, receipt, range, reply).Ok? <==>
            |data| <= cfg.maxStreamedBytes && RangeOk(range, |data|) && RootTagsUsable(root)
  {
    var held := objects[Location(cfg.prefix, receipt.root.context, receipt.root.key)];
    assert Delivers(held, reply) && held.content == codec.encodeRoot(root);
    HeldReceiptReads(cfg, objects, receipt.root, INDEX_BYTES, reply);
    CommittedPagePointersOk(cfg, codec, receipt, data, root, pages);
  }

  /** Number of `next_chunk` calls that drain a range. */
  function CallsToDrain(range: Range, size: nat, chunkBytes: nat): nat
    requires chunkBytes > 0 && RangeOk(range, size)
  {
    match range
    case Whole => ChunkCount(size, chunkBytes) + 1
    case Part(from, to) => StartInRange(from, to, chunkBytes); ChunkCount(to, chunkBytes) - from / chunkBytes + 1
  }

  /**
   Round trip. On an honest store that holds the tree, and if the tags it needs are usable, draining a range (or the whole
   file, empty or not) releases exactly its bytes and reports the matching verification.
   */
  lemma DrainRoundTrip(cfg: StorageConfig, codec: Codec, receipt: ChunkedReceipt, data: Bytes, root: Root, pages: seq<Page>,
                       objects: map<string, StoredObject>, range: Range, rootReply: GetReply, answers: seq<Answers>)
    requires Faithful(codec) && Commits(cfg, codec, receipt, data, root, pages)
    requires HoldsTree(cfg, objects, receipt, root, pages) && RangeTagsUsable(root, pages, range)
    requires receipt.size <= cfg.maxStreamedBytes && RangeOk(range, |data|)
    requires NoCollision(cfg, codec, data, root, pages, rootReply) && NoCollisions(cfg, codec, data, root, pages, answers)
    requires HonestGet(objects, Location(cfg.prefix, receipt.root.context, receipt.root.key), receipt.root.version, rootReply)
    requires |answers| == CallsToDrain(range, |data|, root.chunkBytes)
    requires Open(cfg, codec, receipt, range, rootReply).Ok? ==>
               HonestRun(cfg, codec, objects, Open(cfg, codec, receipt, range, rootReply).value, answers)
    ensures Open(cfg, codec, receipt, range, rootReply).Ok?
    ensures var (r, out) := Run(cfg, codec, Open(cfg, codec, receipt, range, rootReply).value, answers);
            && out == Wanted(range, data)
            && VerificationOf(r) == Some(if range.Whole? then WholeDigestVerified else AuthenticatedRange)
  {
    HonestOpen(cfg, codec, receipt, data, root, pages, objects, range, rootReply);
    var s := Open(cfg, codec, receipt, range, rootReply).value;
    OpenAuthentic(cfg, codec, receipt, range, rootReply, data, root, pages);
    HonestRunSucceeds(cfg, codec, receipt, data, root, pages, objects, s, answers);
    RunEnds(cfg, codec, s, answers);
    ReleasedBytesAuthentic(cfg, codec, receipt, data, root, pages, range, rootReply, answers);
  }

  // ---------------------------------------------- when the round trip fails

  /** The pages a reader has gone through had usable tags. */
  ghost predicate PassedPagesUsable(pages: seq<Page>, s: State)
    requires s.root.chunkBytes > 0
  {
    forall k: nat {:trigger k / PAGE_ENTRIES} ::
      s.from / s.root.chunkBytes <= k < s.nextChunk && k / PAGE_ENTRIES < |pages| ==> PageTagsUsable(pages[k / PAGE_ENTRIES])
  }

  lemma PassedStep(cfg: StorageConfig, codec: Codec, receipt: ChunkedReceipt, data: Bytes, pages: seq<Page>, s: State,
                   a: Answers, out: Bytes)
    requires Faithful(codec) && Commits(cfg, codec, receipt, data, s.root, pages)
    requires Authentic(receipt, data, s.root, pages, s, out) && PassedPagesUsable(pages, s)
    requires NoCollision(cfg, codec, data, s.root, pages, a.page) && NoCollision(cfg, codec, data, s.root, pages, a.chunk)
    ensures PassedPagesUsable(pages, Next(cfg, codec, s, a.page, a.chunk).0)
  {
    var (next, result) := Next(cfg, codec, s, a.page, a.chunk);
    assert s.root.chunkBytes > 0;
    NextFrame(cfg, codec, s, a);
    NextValid(cfg, codec, s, a);
    hide Next, Valid, Commits, NoCollision, PassedPagesUsable, RootMatches;
    if !(result.Ok? && result.value.Some?) {
      PassedStays(pages, s, next);
    } else {
      ChunkAuthentic(cfg, codec, receipt, data, s, pages, a);
      UsableOnceLoaded(receipt, next, pages);
      PassedExtends(pages, s, next);
    }
  }

  lemma PassedStays(pages: seq<Page>, s: State, next: State)
    requires s.root.chunkBytes > 0 && next.root == s.root && next.from == s.from && next.nextChunk == s.nextChunk
    requires PassedPagesUsable(pages, s)
    ensures PassedPagesUsable(pages, next)
  {
  }

  lemma PassedExtends(pages: seq<Page>, s: State, next: State)
    requires s.root.chunkBytes > 0 && next.root == s.root && next.from == s.from && next.nextChunk == s.nextChunk + 1
    requires PassedPagesUsable(pages, s)
    requires s.nextChunk / PAGE_ENTRIES < |pages| ==> PageTagsUsable(pages[s.nextChunk / PAGE_ENTRIES])
    ensures PassedPagesUsable(pages, next)
  {
    hide PageTagsUsable;
  }

  lemma {:induction false} PassedPages(cfg: StorageConfig, codec: Codec, receipt: ChunkedReceipt, data: Bytes, root: Root,
                                       pages: seq<Page>, s: State, answers: seq<Answers>)
    requires Faithful(codec) && Commits(cfg, codec, receipt, data, root, pages)
    requires Authentic(receipt, data, root, pages, s, []) && s.nextChunk == s.from / root.chunkBytes
    requires NoCollisions(cfg, codec, data, root, pages, answers)
    ensures PassedPagesUsable(pages, Run(cfg, codec, s, answers).0)
  {
    if answers != [] {
      var init, last := answers[..|answers| - 1], answers[|answers| - 1];
      assert last in answers && forall a <- init :: a in answers;
      PassedPages(cfg, codec, receipt, data, root, pages, s, init);
      RunAuthentic(cfg, codec, receipt, data, root, pages, s, init);
      PassedStep(cfg, codec, receipt, data, pages, Run(cfg, codec, s, init).0, last, Run(cfg, codec, s, init).1);
    }
  }

  lemma UsableOnceLoaded(receipt: ChunkedReceipt, s: State, pages: seq<Page>)
    requires Valid(s) && s.receipt == receipt
    requires s.loadedPage.Some? && s.loadedPage.value < |pages| && s.page == pages[s.loadedPage.value].chunks
    ensures PageTagsUsable(pages[s.loadedPage.value])
  {
    forall p | p in s.page
      ensures UsableTags(p)
    {
      var i :| 0 <= i < |s.page| && s.page[i] == p;
      assert ChunkPointerOk(s.root, receipt.root, s.loadedPage.value * PAGE_ENTRIES + i, p);
    }
  }

  /** A read that completes, whatever the backend, has validated the tags of every page the range needs. */
  lemma CompletedReadNeedsTags(cfg: StorageConfig, codec: Codec, receipt: ChunkedReceipt, data: Bytes, root: Root,
                               pages: seq<Page>, range: Range, rootReply: GetReply, answers: seq<Answers>)
    requires Faithful(codec) && Commits(cfg, codec, receipt, data, root, pages)
    requires NoCollision(cfg, codec, data, root, pages, rootReply) && NoCollisions(cfg, codec, data, root, pages, answers)
    requires Open(cfg, codec, receipt, range, rootReply).Ok?
    requires VerificationOf(Run(cfg, codec, Open(cfg, codec, receipt, range, rootReply).value, answers).0).Some?
    ensures NeededTagsUsable(pages, From(range), To(range, root.size), root.chunkBytes)
  {
    var s := Open(cfg, codec, receipt, range, rootReply).value;
    OpenAuthentic(cfg, codec, receipt, range, rootReply, data, root, pages);
    PassedPages(cfg, codec, receipt, data, root, pages, s, answers);
    FinishedAtEnd(cfg, codec, s, answers);
    SameRange(cfg, codec, s, answers);
    AllPagesPassed(pages, Run(cfg, codec, s, answers).0);
  }

  lemma {:induction false} FinishedAtEnd(cfg: StorageConfig, codec: Codec, s: State, answers: seq<Answers>)
    requires Valid(s) && !s.finished
    ensures var r := Run(cfg, codec, s, answers).0; r.finished ==> r.nextChunk * r.root.chunkBytes >= r.to
  {
    if answers != [] {
      var init, last := answers[..|answers| - 1], answers[|answers| - 1];
      FinishedAtEnd(cfg, codec, s, init);
      NextFrame(cfg, codec, Run(cfg, codec, s, init).0, last);
    }
  }

  /** One read of the range, drained, with the answers of an honest store that holds `objects`. */
  ghost predicate HonestRead(cfg: StorageConfig, codec: Codec, receipt: ChunkedReceipt, data: Bytes, root: Root,
                             pages: seq<Page>, objects: map<string, StoredObject>, range: Range, rootReply: GetReply,
                             answers: seq<Answers>)
    requires root.chunkBytes > 0
  {
    && NoCollision(cfg, codec, data, root, pages, rootReply) && NoCollisions(cfg, codec, data, root, pages, answers)
    && HonestGet(objects, Location(cfg.prefix, receipt.root.context, receipt.root.key), receipt.root.version, rootReply)
    && (RangeOk(range, |data|) ==> |answers| == CallsToDrain(range, |data|, root.chunkBytes))
    && (Open(cfg, codec, receipt, range, rootReply).Ok? ==>
          HonestRun(cfg, codec, objects, Open(cfg, codec, receipt, range, rootReply).value, answers))
  }

  /**
   The exact condition. After a successful write to an honest store, a read of any range completes if and only if the
   range lies in the file and every tag the store handed out for a page, or for a chunk listed by a page the range
   needs, is usable: the writer stores any tag, the reader refuses an empty one and one above 2048 bytes.
   */
  lemma ReadCompletesIff(cfg: StorageConfig, codec: Codec, receipt: ChunkedReceipt, data: Bytes, root: Root,
                         pages: seq<Page>, objects: map<string, StoredObject>, range: Range, rootReply: GetReply,
                         answers: seq<Answers>)
    requires Faithful(codec) && Commits(cfg, codec, receipt, data, root, pages)
    requires HoldsTree(cfg, objects, receipt, root, pages)
    requires HonestRead(cfg, codec, receipt, data, root, pages, objects, range, rootReply, answers)
    ensures Completes(cfg, codec, receipt, range, rootReply, answers)
            <==> |data| <= cfg.maxStreamedBytes && RangeOk(range, |data|) && RangeTagsUsable(root, pages, range)
  {
    assert root.chunkBytes > 0;
    hide Run, HoldsTree, RootMatches, Valid, ReadReceipt, NoCollisions, HonestGet, ChunkCount, IsTree, Commits, Open, Needed;
    if |data| <= cfg.maxStreamedBytes && RangeOk(range, |data|) && RangeTagsUsable(root, pages, range) {
      DrainRoundTrip(cfg, codec, receipt, data, root, pages, objects, range, rootReply, answers);
    }
    HonestOpen(cfg, codec, receipt, data, root, pages, objects, range, rootReply);
    if Completes(cfg, codec, receipt, range, rootReply, answers) {
      CompletedReadNeedsTags(cfg, codec, receipt, data, root, pages, range, rootReply, answers);
    }
  }

  /** The read is opened, and reports a verification after these calls. */
  predicate Completes(cfg: StorageConfig, codec: Codec, receipt: ChunkedReceipt, range: Range, rootReply: GetReply,
                      answers: seq<Answers>)
  {
    && Open(cfg, codec, receipt, range, rootReply).Ok?
    && VerificationOf(Run(cfg, codec, Open(cfg, codec, receipt, range, rootReply).value, answers).0).Some?
  }

  lemma AllPagesPassed(pages: seq<Page>, r: State)
    requires Valid(r) && PassedPagesUsable(pages, r) && r.nextChunk * r.root.chunkBytes >= r.to
    ensures NeededTagsUsable(pages, r.from, r.to, r.root.chunkBytes)
  {
    ChunkExists(r.to, r.root.chunkBytes, r.nextChunk);
    forall q | 0 <= q < |pages| && Needed(r.from, r.to, r.root.chunkBytes, q)
      ensures PageTagsUsable(pages[q])
    {
      var k: nat :| r.from / r.root.chunkBytes <= k < ChunkCount(r.to, r.root.chunkBytes) && k / PAGE_ENTRIES == q;
    }
  }

  // --------------------------------------------------- the condition can fail

  /** The writer takes whatever tags the store reports; the reader takes the pointer exactly if they are usable. */
  lemma WriterKeepsAnyTag(cfg: StorageConfig, write: ImmutableWrite, eTag: Tag, version: Tag, reply: GetReply)
    requires WriteAccepted(cfg, write).None? && Delivers(NewObject(cfg, write, eTag, version), reply)
    ensures var r := PutOutcome(cfg, write, Created(eTag, version), reply);
            && r.Ok? && r.value.eTag == eTag && r.value.version == version
            && (ToReceipt(FromReceipt(r.value), write.context).Ok? <==> UsableTag(eTag) && UsableTag(version))
  {
    DeliveredVerifies(cfg, NewObject(cfg, write, eTag, version), write.digest, version, cfg.maxObjectBytes, reply);
  }

  function Overlong(): (t: string)
    ensures |t| == MAX_TAG_BYTES + 1
  {
    seq(MAX_TAG_BYTES + 1, _ => 'v')
  }

  function PointerTo(cfg: StorageConfig, base: ObjectKey, kind: string, content: Content, version: string): Pointer {
    var key := PartKey(base, kind, cfg.hash(content));
    Pointer(if key.Some? then key.value else "", cfg.hash(content), |content|, Some(version), Some("e"))
  }

  /** The one page of a one-chunk file whose chunk got an overlong version, and the root over it. */
  function OverlongPage(cfg: StorageConfig, write: ChunkedWrite, data: Content): Page {
    Page(PAGE_FORMAT, 0, [PointerTo(cfg, write.key, "chunks", data, Overlong())])
  }

  function OverlongRoot(cfg: StorageConfig, write: ChunkedWrite, pageBytes: Content): Root {
    RootOf(write, [PointerTo(cfg, write.key, "pages", pageBytes, "v")])
  }

  /** The chunk and these two index objects are within the size limits. */
  predicate OverlongFileFits(cfg: StorageConfig, codec: Codec, write: ChunkedWrite, data: Content) {
    var pageBytes := codec.encodePage(OverlongPage(cfg, write, data));
    && |data| <= cfg.maxObjectBytes && |pageBytes| <= Min(INDEX_BYTES, cfg.maxObjectBytes)
    && |codec.encodeRoot(OverlongRoot(cfg, write, pageBytes))| <= Min(INDEX_BYTES, cfg.maxObjectBytes)
  }

  function ObjectOf(cfg: StorageConfig, content: Content, contentType: string, version: string): StoredObject {
    StoredObject(content, Some(contentType), Some(cfg.hash(content)), Some("e"), Some(version))
  }

  lemma OneChunk(size: nat, chunkBytes: nat)
    requires 0 < size <= chunkBytes
    ensures ChunkCount(size, chunkBytes) == 1 && PageCount(size, chunkBytes) == 1
  {
    ChunkExists(size, chunkBytes, 0);
    ChunkExists(size, chunkBytes, 1);
  }

  lemma FirstPageNeeded(from: nat, to: nat, chunkBytes: nat)
    requires from < to <= chunkBytes
    ensures Needed(from, to, chunkBytes, 0)
  {
    OneChunk(to, chunkBytes);
    DivBounds(from, chunkBytes);
    NotBefore(from / chunkBytes, 0, chunkBytes, from);
    assert 0 / PAGE_ENTRIES == 0;
    hide ChunkCount;
  }

  /**
   A store, managed or not, that answers the write of a one-chunk file with a version of 2049 bytes. It holds all that a
   successful write leaves behind, and no read of any range of the file completes.
   */
  lemma OverlongTagBreaksReading(cfg: StorageConfig, codec: Codec, write: ChunkedWrite, data: Content)
    returns (receipt: ChunkedReceipt, root: Root, pages: seq<Page>, objects: map<string, StoredObject>)
    requires Faithful(codec) && ValidChunkSize(write.chunkBytes) && 0 < |data| == write.size <= write.chunkBytes
    requires cfg.hash(data) == write.digest && KeyFits(write.key)
    requires OverlongFileFits(cfg, codec, write, data)
    ensures root.chunkBytes > 0 && Commits(cfg, codec, receipt, data, root, pages)
    ensures HoldsTree(cfg, objects, receipt, root, pages)
    ensures |pages| == 1 && |pages[0].chunks| == 1 && pages[0].chunks[0].version == Some(Overlong())
    ensures forall range, rootReply, answers ::
              HonestRead(cfg, codec, receipt, data, root, pages, objects, range, rootReply, answers) ==>
                !Completes(cfg, codec, receipt, range, rootReply, answers)
  {
    receipt, root, pages, objects := OneChunkFile(cfg, codec, write, data);
    hide Commits, HoldsTree, HonestRead, Completes, OverlongFileFits, RangeTagsUsable, RangeOk, ValidChunkSize, Faithful;
    forall range, rootReply, answers | HonestRead(cfg, codec, receipt, data, root, pages, objects, range, rootReply, answers)
      ensures !Completes(cfg, codec, receipt, range, rootReply, answers)
    {
      ReadCompletesIff(cfg, codec, receipt, data, root, pages, objects, range, rootReply, answers);
      NoRangeUsable(root, pages, range, |data|);
    }
  }

  lemma NoRangeUsable(root: Root, pages: seq<Page>, range: Range, size: nat)
    requires 0 < size <= root.chunkBytes && root.size == size
    requires |pages| == 1 && |pages[0].chunks| == 1 && pages[0].chunks[0].version == Some(Overlong())
    ensures !RangeOk(range, size) || !RangeTagsUsable(root, pages, range)
  {
    if RangeOk(range, size) {
      assert pages[0].chunks[0] in pages[0].chunks && !UsableTags(pages[0].chunks[0]);
      FirstPageNeeded(From(range), To(range, size), root.chunkBytes);
      hide Needed;
    }
  }

  /** The tree and the objects that writing a one-chunk file leaves behind, the chunk with an overlong version. */
  lemma OneChunkFile(cfg: StorageConfig, codec: Codec, write: ChunkedWrite, data: Content)
    returns (receipt: ChunkedReceipt, root: Root, pages: seq<Page>, objects: map<string, StoredObject>)
    requires ValidChunkSize(write.chunkBytes) && 0 < |data| == write.size <= write.chunkBytes
    requires cfg.hash(data) == write.digest && KeyFits(write.key)
    requires OverlongFileFits(cfg, codec, write, data)
    ensures Commits(cfg, codec, receipt, data, root, pages) && HoldsTree(cfg, objects, receipt, root, pages)
    ensures root.chunkBytes == write.chunkBytes && receipt.size == write.size == root.size
    ensures |pages| == 1 && |pages[0].chunks| == 1 && pages[0].chunks[0].version == Some(Overlong())
  {
    var page := OverlongPage(cfg, write, data);
    var pageBytes := codec.encodePage(page);
    root, pages := OverlongRoot(cfg, write, pageBytes), [page];
    var rootBytes := codec.encodeRoot(root);
    receipt := ReceiptOf(cfg, write, rootBytes);
    PointerPoints(cfg, write.key, "chunks", data, Overlong());
    PointerPoints(cfg, write.key, "pages", pageBytes, "v");
    hide PartKey, KeyFits, ValidChunkSize, Commits, HoldsTree, ReceiptOf, Overlong;
    OneChunkCommits(cfg, codec, write, data, page.chunks[0], root.pages[0]);
    objects := OneChunkObjects(cfg, write, data, page, pageBytes, root, rootBytes);
  }

  lemma PointerPoints(cfg: StorageConfig, base: ObjectKey, kind: string, content: Content, version: string)
    requires KeyFits(base) && PartKind(kind)
    ensures PartKey(base, kind, cfg.hash(content)).Some?
    ensures PointsTo(cfg, PointerTo(cfg, base, kind, content, version), base, kind, content)
  {
    assert Segment("chunks") && Segment("pages");
    PartKeyIff(base, kind, cfg.hash(content));
    hide PartKey, Segment;
  }

  lemma OneChunkCommits(cfg: StorageConfig, codec: Codec, write: ChunkedWrite, data: Content, chunk: Pointer, pointer: Pointer)
    requires ValidChunkSize(write.chunkBytes) && 0 < |data| == write.size <= write.chunkBytes
    requires cfg.hash(data) == write.digest && PointsTo(cfg, chunk, write.key, "chunks", data)
    requires var page, root := Page(PAGE_FORMAT, 0, [chunk]), RootOf(write, [pointer]);
             && PointsTo(cfg, pointer, write.key, "pages", codec.encodePage(page))
             && |codec.encodePage(page)| <= INDEX_BYTES && |codec.encodeRoot(root)| <= INDEX_BYTES
    ensures var root := RootOf(write, [pointer]);
            Commits(cfg, codec, ReceiptOf(cfg, write, codec.encodeRoot(root)), data, root, [Page(PAGE_FORMAT, 0, [chunk])])
  {
    OneChunk(|data|, write.chunkBytes);
    assert Chunk(data, 0, write.chunkBytes) == data;
    hide PartKey, ChunkCount, DivCeil, ValidChunkSize;
  }

  function ReceiptOf(cfg: StorageConfig, write: ChunkedWrite, rootBytes: Content): ChunkedReceipt {
    ChunkedReceipt(WriteReceipt(write.key, write.context, |rootBytes|, cfg.hash(rootBytes), Some("e"), Some("v"), false),
                   write.digest, write.size, write.contentType)
  }

  lemma OneChunkObjects(cfg: StorageConfig, write: ChunkedWrite, data: Content, page: Page, pageBytes: Content, root: Root,
                        rootBytes: Content)
    returns (objects: map<string, StoredObject>)
    requires PartKey(write.key, "chunks", cfg.hash(data)).Some? && PartKey(write.key, "pages", cfg.hash(pageBytes)).Some?
    requires page.chunks == [PointerTo(cfg, write.key, "chunks", data, Overlong())]
    requires root.pages == [PointerTo(cfg, write.key, "pages", pageBytes, "v")]
    requires |data| <= cfg.maxObjectBytes && |pageBytes| <= cfg.maxObjectBytes && |rootBytes| <= cfg.maxObjectBytes
    ensures HoldsTree(cfg, objects, ReceiptOf(cfg, write, rootBytes), root, [page])
  {
    var chunk, pointer := page.chunks[0], root.pages[0];
    var chunkAt, pageAt := Location(cfg.prefix, write.context, chunk.key), Location(cfg.prefix, write.context, pointer.key);
    var rootAt := Location(cfg.prefix, write.context, write.key);
    assert |rootAt| < |pageAt| < |chunkAt|;
    hide Location, PartKey, ObjectOf, PointerTo, HoldsTree, ReceiptOf;
    objects := map[chunkAt := ObjectOf(cfg, data, CHUNK_TYPE, Overlong()), pageAt := ObjectOf(cfg, pageBytes, PAGE_TYPE, "v"),
                   rootAt := ObjectOf(cfg, rootBytes, ROOT_TYPE, "v")];
    OneChunkHeld(cfg, objects, write, data, page, pageBytes, root, rootBytes);
  }

  lemma OneChunkHeld(cfg: StorageConfig, objects: map<string, StoredObject>, write: ChunkedWrite, data: Content, page: Page,
                     pageBytes: Content, root: Root, rootBytes: Content)
    requires PartKey(write.key, "chunks", cfg.hash(data)).Some? && PartKey(write.key, "pages", cfg.hash(pageBytes)).Some?
    requires page.chunks == [PointerTo(cfg, write.key, "chunks", data, Overlong())]
    requires root.pages == [PointerTo(cfg, write.key, "pages", pageBytes, "v")]
    requires |data| <= cfg.maxObjectBytes && |pageBytes| <= cfg.maxObjectBytes && |rootBytes| <= cfg.maxObjectBytes
    requires var chunkAt := Location(cfg.prefix, write.context, page.chunks[0].key);
             chunkAt in objects && objects[chunkAt] == ObjectOf(cfg, data, CHUNK_TYPE, Overlong())
    requires var pageAt := Location(cfg.prefix, write.context, root.pages[0].key);
             pageAt in objects && objects[pageAt] == ObjectOf(cfg, pageBytes, PAGE_TYPE, "v")
    requires var rootAt := Location(cfg.prefix, write.context, write.key);
             rootAt in objects && objects[rootAt] == ObjectOf(cfg, rootBytes, ROOT_TYPE, "v")
    ensures HoldsTree(cfg, objects, ReceiptOf(cfg, write, rootBytes), root, [page])
  {
    hide Location, PartKey, ValidKey, ValidDigest;
    assert HoldsPart(cfg, objects, write.context, page.chunks[0]);
    assert HoldsPart(cfg, objects, write.context, root.pages[0]);
  }
}
