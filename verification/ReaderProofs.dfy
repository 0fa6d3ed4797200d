/** What a chunked reader guarantees over every run, against any backend and against an honest one. */
module ReaderProofs {
  import opened Common
  import opened Storage
  import opened ChunkFormat
  import opened Reader

  // ------------------------------------------------------- safety of any run

  /** The state and the released chunks after one `next_chunk` call per entry of `answers`. */
  function Run(cfg: StorageConfig, codec: Codec, s: State, answers: seq<Answers>): (r: (State, Bytes))
    requires Valid(s)
    ensures Valid(r.0)
    decreases |answers|
  {
    if answers == [] then (s, [])
    else
      var (mid, out) := Run(cfg, codec, s, answers[..|answers| - 1]);
      var last := answers[|answers| - 1];
      var (next, result) := Next(cfg, codec, mid, last.page, last.chunk);
      NextValid(cfg, codec, mid, last);
      (next, out + Released(result))
  }

  function Released(result: Result<Option<Bytes>>): Bytes {
    if result.Ok? && result.value.Some? then result.value.value else []
  }

  /** Once failed a reader stays failed, releases nothing and never reports a verification. */
  lemma {:induction false} FailureIsSticky(cfg: StorageConfig, codec: Codec, s: State, answers: seq<Answers>)
    requires Valid(s) && s.failed
    ensures Run(cfg, codec, s, answers) == (s, [])
    ensures VerificationOf(s) == None
  {
    if answers != [] {
      FailureIsSticky(cfg, codec, s, answers[..|answers| - 1]);
      assert [] + Released(Err(DigestMismatch)) == [];
    }
  }

  /** What one call leaves alone, and when it moves on. */
  lemma NextFrame(cfg: StorageConfig, codec: Codec, s: State, a: Answers)
    requires Valid(s)
    ensures var (n, result) := Next(cfg, codec, s, a.page, a.chunk);
            && n.receipt == s.receipt && n.root == s.root && n.from == s.from && n.to == s.to
            && (n.hashed.Some? <==> s.hashed.Some?)
            && (s.failed ==> n.failed) && (s.finished ==> n.finished)
            && (result.Err? <==> n.failed)
            && (result.Err? ==> n.nextChunk == s.nextChunk && n.hashed == s.hashed && n.finished == s.finished)
            && (result.Ok? && result.value.None? ==>
                  n == s.(finished := true) && (s.finished || s.nextChunk * s.root.chunkBytes >= s.to)
                  && (!s.finished && s.hashed.Some? ==> cfg.hash(s.hashed.value) == s.receipt.contentDigest))
            && (result.Ok? && result.value.Some? ==>
                  !s.failed && !s.finished && s.nextChunk * s.root.chunkBytes < s.to && n.nextChunk == s.nextChunk + 1)
  {
  }

  /** Every run is over after one call per chunk of the range and one more. */
  lemma {:induction false} RunEnds(cfg: StorageConfig, codec: Codec, s: State, answers: seq<Answers>)
    requires Valid(s) && !s.finished && !s.failed
    ensures var r := Run(cfg, codec, s, answers).0;
            && (!r.finished && !r.failed ==> r.nextChunk == s.nextChunk + |answers|)
            && r.nextChunk <= ChunkCount(r.to, r.root.chunkBytes)
            && r.root == s.root && r.receipt == s.receipt && r.from == s.from && r.to == s.to
            && (r.hashed.Some? <==> s.hashed.Some?)
    ensures |answers| > ChunkCount(s.to, s.root.chunkBytes) - s.nextChunk ==>
              Run(cfg, codec, s, answers).0.finished || Run(cfg, codec, s, answers).0.failed
  {
    if answers != [] {
      var init, last := answers[..|answers| - 1], answers[|answers| - 1];
      RunEnds(cfg, codec, s, init);
      NextFrame(cfg, codec, Run(cfg, codec, s, init).0, last);
    }
  }

  // ------------------------------------------------ the whole-file digest

  ghost predicate DigestInvariant(cfg: StorageConfig, s: State, out: Bytes) {
    s.hashed.Some? ==>
      && s.from == 0 && s.to == s.root.size
      && s.hashed.value == out
      && (s.finished ==> cfg.hash(out) == s.receipt.contentDigest)
  }

  lemma DigestStep(cfg: StorageConfig, codec: Codec, s: State, a: Answers, out: Bytes)
    requires Valid(s) && DigestInvariant(cfg, s, out)
    ensures var (next, result) := Next(cfg, codec, s, a.page, a.chunk);
            DigestInvariant(cfg, next, out + Released(result))
  {
    hide Valid, Next, Slice;
    var (next, result) := Next(cfg, codec, s, a.page, a.chunk);
    NextFrame(cfg, codec, s, a);
    assert out + [] == out;
    if result.Ok? && result.value.Some? {
      var bytes := ReadStep(cfg, codec, s, a);
      WholeSlice(s, bytes);
    }
  }

  /** In a whole read nothing is cut off a chunk. */
  lemma WholeSlice(s: State, bytes: Bytes)
    requires Valid(s) && s.nextChunk * s.root.chunkBytes < s.to
    requires |bytes| == Min(s.root.size - s.nextChunk * s.root.chunkBytes, s.root.chunkBytes)
    ensures s.from == 0 && s.to == s.root.size ==> Slice(s, bytes) == bytes
  {
    if s.from == 0 && s.to == s.root.size {
      WholeCut(bytes, s.to, s.nextChunk * s.root.chunkBytes, s.root.chunkBytes);
    }
    hide Cut, RootMatches, PageOk, ChunkCount;
  }

  lemma WholeCut(bytes: Bytes, to: nat, start: nat, length: nat)
    requires start < to && |bytes| == Min(to - start, length)
    ensures Cut(bytes, 0, to, start) == bytes
  {
  }

  lemma {:induction false} DigestRun(cfg: StorageConfig, codec: Codec, s: State, answers: seq<Answers>)
    requires Valid(s) && DigestInvariant(cfg, s, [])
    ensures var (r, out) := Run(cfg, codec, s, answers); DigestInvariant(cfg, r, out)
  {
    if answers != [] {
      var init, last := answers[..|answers| - 1], answers[|answers| - 1];
      DigestRun(cfg, codec, s, init);
      DigestStep(cfg, codec, Run(cfg, codec, s, init).0, last, Run(cfg, codec, s, init).1);
    }
  }

  /**
   `WholeDigestVerified` means what it says, for every receipt (even a forged one), every backend and
   every run: the released bytes hash to the receipt's content digest.
   */
  lemma WholeDigestMeaning(cfg: StorageConfig, codec: Codec, receipt: ChunkedReceipt, range: Range, rootReply: GetReply,
                           answers: seq<Answers>)
    requires Open(cfg, codec, receipt, range, rootReply).Ok?
    ensures var (r, out) := Run(cfg, codec, Open(cfg, codec, receipt, range, rootReply).value, answers);
            VerificationOf(r) == Some(WholeDigestVerified) ==> range.Whole? && cfg.hash(out) == receipt.contentDigest
  {
    var s := Open(cfg, codec, receipt, range, rootReply).value;
    DigestRun(cfg, codec, s, answers);
    RunEnds(cfg, codec, s, answers);
  }

  // ------------------------------------------------------------ authenticity

  /** The answer does not exhibit a second preimage of `part`. */
  ghost predicate Genuine(cfg: StorageConfig, part: Bytes, reply: GetReply) {
    reply.Got? && Intact(reply.body) && cfg.hash(Payload(reply.body)) == cfg.hash(part) ==> Payload(reply.body) == part
  }

  /** The only cryptographic assumption: no answer collides with a byte string the writer stored. */
  ghost predicate NoCollision(cfg: StorageConfig, codec: Codec, data: Bytes, root: Root, pages: seq<Page>, reply: GetReply) {
    && Genuine(cfg, codec.encodeRoot(root), reply)
    && (forall p :: 0 <= p < |pages| ==> Genuine(cfg, codec.encodePage(pages[p]), reply))
    && (forall k: nat :: k * root.chunkBytes < |data| ==> Genuine(cfg, Chunk(data, k, root.chunkBytes), reply))
  }

  ghost predicate NoCollisions(cfg: StorageConfig, codec: Codec, data: Bytes, root: Root, pages: seq<Page>,
                               answers: seq<Answers>)
  {
    forall a <- answers ::
      NoCollision(cfg, codec, data, root, pages, a.page) && NoCollision(cfg, codec, data, root, pages, a.chunk)
  }

  /** First byte of the range not yet released. */
  function Position(s: State): int
  {
    var reached := Min(s.to, s.nextChunk * s.root.chunkBytes);
    if reached < s.from then s.from else reached
  }

  ghost predicate Authentic(receipt: ChunkedReceipt, data: Bytes, root: Root, pages: seq<Page>, s: State, out: Bytes) {
    && Valid(s) && s.receipt == receipt && s.root == root && root.size == |data|
    && (s.loadedPage.Some? ==> s.loadedPage.value < |pages| && s.page == pages[s.loadedPage.value].chunks)
    && s.from <= Position(s) <= |data|
    && out == data[s.from..Position(s)]
    && (s.finished ==> Position(s) == s.to)
  }

  lemma OpenAuthentic(cfg: StorageConfig, codec: Codec, receipt: ChunkedReceipt, range: Range, reply: GetReply,
                      data: Bytes, root: Root, pages: seq<Page>)
    requires Faithful(codec) && Commits(cfg, codec, receipt, data, root, pages)
    requires NoCollision(cfg, codec, data, root, pages, reply)
    requires Open(cfg, codec, receipt, range, reply).Ok?
    ensures Authentic(receipt, data, root, pages, Open(cfg, codec, receipt, range, reply).value, [])
    ensures var s := Open(cfg, codec, receipt, range, reply).value;
            && !s.finished && !s.failed && s.loadedPage == None
            && s.nextChunk == s.from / root.chunkBytes
            && (s.hashed == if range.Whole? then Some([]) else None)
            && (if range.Whole? then s.from == 0 && s.to == |data| else s.from == range.from && s.to == range.to)
  {
    ReadReceiptAuthentic(cfg, receipt.root, INDEX_BYTES, reply);
    var s := Open(cfg, codec, receipt, range, reply).value;
    assert Payload(reply.body) == codec.encodeRoot(root);
    DivBounds(s.from, root.chunkBytes);
  }

  /** A page that verifies is the committed page. */
  lemma PageAuthentic(cfg: StorageConfig, codec: Codec, s: State, reply: GetReply, receipt: ChunkedReceipt, data: Bytes,
                      pages: seq<Page>)
    requires Faithful(codec) && Commits(cfg, codec, receipt, data, s.root, pages)
    requires s.receipt == receipt
    requires NoCollision(cfg, codec, data, s.root, pages, reply)
    requires s.nextChunk / PAGE_ENTRIES < |pages|
    requires s.loadedPage.Some? ==> s.loadedPage.value < |pages| && s.page == pages[s.loadedPage.value].chunks
    requires CurrentPage(cfg, codec, s, reply).Ok?
    ensures CurrentPage(cfg, codec, s, reply).value == pages[s.nextChunk / PAGE_ENTRIES].chunks
  {
    var index := s.nextChunk / PAGE_ENTRIES;
    if s.loadedPage != Some(index) {
      var pinned := ToReceipt(s.root.pages[index], receipt.root.context).value;
      ReadReceiptAuthentic(cfg, pinned, INDEX_BYTES, reply);
      assert PointsTo(cfg, s.root.pages[index], receipt.root.key, "pages", codec.encodePage(pages[index]));
      assert Genuine(cfg, codec.encodePage(pages[index]), reply);
    }
  }

  /** The pointer and the length of the chunk the next step reads. */
  lemma NextPointer(cfg: StorageConfig, codec: Codec, s: State, receipt: ChunkedReceipt, data: Bytes, pages: seq<Page>)
    requires Commits(cfg, codec, receipt, data, s.root, pages)
    requires Valid(s) && s.receipt == receipt
    requires s.nextChunk * s.root.chunkBytes < |data|
    requires s.nextChunk / PAGE_ENTRIES < |pages|
    requires s.nextChunk % PAGE_ENTRIES < |pages[s.nextChunk / PAGE_ENTRIES].chunks|
    ensures IsChunk(cfg, receipt.root.key, data, s.root.chunkBytes, s.nextChunk,
                    pages[s.nextChunk / PAGE_ENTRIES].chunks[s.nextChunk % PAGE_ENTRIES])
  {
    var index, j := s.nextChunk / PAGE_ENTRIES, s.nextChunk % PAGE_ENTRIES;
    assert IsPage(cfg, receipt.root.key, data, s.root.chunkBytes, index, pages[index]);
    assert index * PAGE_ENTRIES + j == s.nextChunk;
  }

  lemma SubSlice(data: Bytes, lo: nat, hi: nat, a: nat, b: nat)
    requires lo <= hi <= |data| && a <= b <= hi - lo
    ensures data[lo..hi][a..b] == data[lo + a..lo + b]
  {
    var left, right := data[lo..hi][a..b], data[lo + a..lo + b];
    assert |left| == |right|;
    assert forall i :: 0 <= i < |left| ==> left[i] == data[lo..hi][a + i] == data[lo + a + i] == right[i];
  }

  lemma Joined(data: Bytes, a: nat, b: nat, c: nat)
    requires a <= b <= c <= |data|
    ensures data[a..b] + data[b..c] == data[a..c]
  {
  }

  lemma CutContinues(data: Bytes, from: nat, to: nat, start: nat, length: nat)
    requires from <= to <= |data| && start < to && from < start + length
    ensures var chunk := data[start..Min(|data|, start + length)];
            var before := if start < from then from else start;
            var after := Min(to, start + length);
            && from <= before <= after
            && |chunk| == Min(|data| - start, length)
            && data[from..before] + Cut(chunk, from, to, start) == data[from..after]
  {
    var hi := Min(|data|, start + length);
    var before := if start < from then from else start;
    var after := Min(to, start + length);
    SubSlice(data, start, hi, before - start, after - start);
    Joined(data, from, before, after);
  }

  lemma SliceParts(s: State, data: Bytes, start: nat)
    requires Valid(s) && s.root.size == |data| && start == s.nextChunk * s.root.chunkBytes < s.to
    ensures start + s.root.chunkBytes == (s.nextChunk + 1) * s.root.chunkBytes
    ensures s.from <= s.to <= |data| && s.from < start + s.root.chunkBytes
    ensures var chunk := data[start..Min(|data|, start + s.root.chunkBytes)];
            && Chunk(data, s.nextChunk, s.root.chunkBytes) == chunk
            && Slice(s, chunk) == Cut(chunk, s.from, s.to, start)
  {
    hide RootMatches, PageOk, ChunkCount, Cut;
    Distribute(s.nextChunk, s.root.chunkBytes);
  }

  lemma Positions(s: State, start: nat)
    requires Valid(s) && start == s.nextChunk * s.root.chunkBytes < s.to
    ensures Position(s) == if start < s.from then s.from else start
    ensures Position(s.(nextChunk := s.nextChunk + 1)) == Min(s.to, start + s.root.chunkBytes)
  {
    Distribute(s.nextChunk, s.root.chunkBytes);
    hide RootMatches, PageOk, ChunkCount;
  }

  /** One more chunk of the file, cut to the range, continues what was released. */
  lemma SliceContinues(s: State, data: Bytes)
    requires Valid(s) && s.root.size == |data| && s.nextChunk * s.root.chunkBytes < s.to
    ensures var next := s.(nextChunk := s.nextChunk + 1);
            && s.from <= Position(s) <= Position(next) <= |data|
            && data[s.from..Position(s)] + Slice(s, Chunk(data, s.nextChunk, s.root.chunkBytes))
               == data[s.from..Position(next)]
  {
    var start := s.nextChunk * s.root.chunkBytes;
    SliceParts(s, data, start);
    Positions(s, start);
    hide Valid, Slice, Chunk, Position, Cut;
    CutContinues(data, s.from, s.to, start, s.root.chunkBytes);
  }

  /** The case in which a chunk is read and verified. */
  lemma ChunkAuthentic(cfg: StorageConfig, codec: Codec, receipt: ChunkedReceipt, data: Bytes, s: State, pages: seq<Page>,
                       a: Answers)
    requires Faithful(codec) && Commits(cfg, codec, receipt, data, s.root, pages)
    requires Valid(s) && s.receipt == receipt && s.root.size == |data|
    requires s.loadedPage.Some? ==> s.loadedPage.value < |pages| && s.page == pages[s.loadedPage.value].chunks
    requires NoCollision(cfg, codec, data, s.root, pages, a.page) && NoCollision(cfg, codec, data, s.root, pages, a.chunk)
    requires !s.failed && !s.finished && s.nextChunk * s.root.chunkBytes < s.to
    requires Next(cfg, codec, s, a.page, a.chunk).1.Ok?
    ensures var (next, result) := Next(cfg, codec, s, a.page, a.chunk);
            && result == Ok(Some(Slice(s, Chunk(data, s.nextChunk, s.root.chunkBytes))))
            && next.loadedPage == Some(s.nextChunk / PAGE_ENTRIES) && s.nextChunk / PAGE_ENTRIES < |pages|
            && next.page == pages[s.nextChunk / PAGE_ENTRIES].chunks
            && !next.finished && next.nextChunk == s.nextChunk + 1
  {
    NextFrame(cfg, codec, s, a);
    var loaded := NextReads(cfg, codec, s, a);
    StepInRange(cfg, codec, s, a.page);
    hide Next, CurrentPage, RootMatches;
    PageAuthentic(cfg, codec, s, a.page, receipt, data, pages);
    NextPointer(cfg, codec, s, receipt, data, pages);
    assert Genuine(cfg, Chunk(data, s.nextChunk, s.root.chunkBytes), a.chunk);
    hide Commits, NoCollision, Faithful, PageOk;
    ReadAuthentic(cfg, receipt, data, loaded, a.chunk);
    SameSlice(s, loaded, Chunk(data, s.nextChunk, s.root.chunkBytes));
  }

  /** What is read through the pointer to a chunk of the file, without a collision, is that chunk. */
  lemma ReadAuthentic(cfg: StorageConfig, receipt: ChunkedReceipt, data: Bytes, s: State, reply: GetReply)
    requires Valid(s) && s.receipt == receipt && s.root.size == |data|
    requires s.nextChunk * s.root.chunkBytes < s.to && PointerReady(s)
    requires IsChunk(cfg, receipt.root.key, data, s.root.chunkBytes, s.nextChunk, s.page[s.nextChunk % PAGE_ENTRIES])
    requires Genuine(cfg, Chunk(data, s.nextChunk, s.root.chunkBytes), reply)
    requires ReadChunk(cfg, s, reply).1.Ok?
    ensures |Chunk(data, s.nextChunk, s.root.chunkBytes)| == Min(s.root.size - s.nextChunk * s.root.chunkBytes, s.root.chunkBytes)
    ensures ReadChunk(cfg, s, reply).1 == Ok(Some(Slice(s, Chunk(data, s.nextChunk, s.root.chunkBytes))))
    ensures ReadChunk(cfg, s, reply).0 == s.(nextChunk := s.nextChunk + 1, hashed := ReadChunk(cfg, s, reply).0.hashed)
  {
    var pinned := ToReceipt(s.page[s.nextChunk % PAGE_ENTRIES], receipt.root.context).value;
    ReadReceiptAuthentic(cfg, pinned, s.root.chunkBytes, reply);
    hide Valid, ReadReceipt, Slice;
  }

  lemma SameSlice(s: State, loaded: State, bytes: Bytes)
    requires Valid(s) && Valid(loaded) && s.nextChunk * s.root.chunkBytes < s.to
    requires |bytes| == Min(s.root.size - s.nextChunk * s.root.chunkBytes, s.root.chunkBytes)
    requires loaded == s.(page := loaded.page, loadedPage := loaded.loadedPage)
    ensures Slice(s, bytes) == Slice(loaded, bytes)
  {
    hide Valid;
  }

  /** The case in which a page is accepted and the chunk read then fails. */
  lemma FailedStepKeepsPage(cfg: StorageConfig, codec: Codec, receipt: ChunkedReceipt, data: Bytes, s: State,
                            pages: seq<Page>, a: Answers)
    requires Faithful(codec) && Commits(cfg, codec, receipt, data, s.root, pages)
    requires Valid(s) && s.receipt == receipt
    requires s.loadedPage.Some? ==> s.loadedPage.value < |pages| && s.page == pages[s.loadedPage.value].chunks
    requires NoCollision(cfg, codec, data, s.root, pages, a.page)
    requires Next(cfg, codec, s, a.page, a.chunk).1.Err?
    ensures var next := Next(cfg, codec, s, a.page, a.chunk).0;
            && next == s.(failed := true, loadedPage := next.loadedPage, page := next.page)
            && (next.loadedPage.Some? ==>
                  next.loadedPage.value < |pages| && next.page == pages[next.loadedPage.value].chunks)
  {
    if !s.failed && !s.finished && s.nextChunk * s.root.chunkBytes < s.to && CurrentPage(cfg, codec, s, a.page).Ok? {
      StepInRange(cfg, codec, s, a.page);
      PageAuthentic(cfg, codec, s, a.page, receipt, data, pages);
    }
  }

  lemma NextAuthentic(cfg: StorageConfig, codec: Codec, receipt: ChunkedReceipt, data: Bytes, root: Root, pages: seq<Page>,
                      s: State, a: Answers, out: Bytes)
    requires Faithful(codec) && Commits(cfg, codec, receipt, data, root, pages)
    requires Authentic(receipt, data, root, pages, s, out)
    requires NoCollision(cfg, codec, data, root, pages, a.page) && NoCollision(cfg, codec, data, root, pages, a.chunk)
    ensures var (next, result) := Next(cfg, codec, s, a.page, a.chunk);
            Authentic(receipt, data, root, pages, next, out + Released(result))
  {
    hide Valid, Slice, Commits, NoCollision, Next, Faithful;
    var (next, result) := Next(cfg, codec, s, a.page, a.chunk);
    NextValid(cfg, codec, s, a);
    NextFrame(cfg, codec, s, a);
    assert out + [] == out;
    if result.Err? {
      FailedStepKeepsPage(cfg, codec, receipt, data, s, pages, a);
    } else if result.value.Some? {
      ChunkAuthentic(cfg, codec, receipt, data, s, pages, a);
      SliceContinues(s, data);
    }
  }

  lemma {:induction false} RunAuthentic(cfg: StorageConfig, codec: Codec, receipt: ChunkedReceipt, data: Bytes, root: Root,
                                        pages: seq<Page>, s: State, answers: seq<Answers>)
    requires Faithful(codec) && Commits(cfg, codec, receipt, data, root, pages)
    requires Authentic(receipt, data, root, pages, s, [])
    requires NoCollisions(cfg, codec, data, root, pages, answers)
    ensures var (r, out) := Run(cfg, codec, s, answers); Authentic(receipt, data, root, pages, r, out)
  {
    if answers != [] {
      var init, last := answers[..|answers| - 1], answers[|answers| - 1];
      assert last in answers && forall a <- init :: a in answers;
      RunAuthentic(cfg, codec, receipt, data, root, pages, s, init);
      NextAuthentic(cfg, codec, receipt, data, root, pages, Run(cfg, codec, s, init).0, last, Run(cfg, codec, s, init).1);
    }
  }

  function Wanted(range: Range, data: Bytes): Bytes {
    match range
    case Whole => data
    case Part(from, to) => if from <= to <= |data| then data[from..to] else []
  }

  /**
   Authenticity. For a receipt that commits to `data`, any range, any backend and any number of calls,
   the released bytes are a prefix of the requested range; once the reader has reported the end they
   are the whole range.
   */
  lemma ReleasedBytesAuthentic(cfg: StorageConfig, codec: Codec, receipt: ChunkedReceipt, data: Bytes, root: Root,
                               pages: seq<Page>, range: Range, rootReply: GetReply, answers: seq<Answers>)
    requires Faithful(codec) && Commits(cfg, codec, receipt, data, root, pages)
    requires NoCollision(cfg, codec, data, root, pages, rootReply)
    requires NoCollisions(cfg, codec, data, root, pages, answers)
    requires Open(cfg, codec, receipt, range, rootReply).Ok?
    ensures var wanted := Wanted(range, data);
            var (r, out) := Run(cfg, codec, Open(cfg, codec, receipt, range, rootReply).value, answers);
            && out <= wanted
            && (VerificationOf(r).Some? ==> out == wanted)
  {
    var s := Open(cfg, codec, receipt, range, rootReply).value;
    OpenAuthentic(cfg, codec, receipt, range, rootReply, data, root, pages);
    RunAuthentic(cfg, codec, receipt, data, root, pages, s, answers);
    RunEnds(cfg, codec, s, answers);
    assert data[0..|data|] == data;
  }
}
