/**
 The chunked reader as a function of the answers the backend gave, and what it may release.
 Every answer is an arbitrary `GetReply` unless a lemma says the backend is honest.
 */
module Reader {
  import opened Common
  import opened Identity
  import opened Storage
  import opened ChunkFormat

  datatype Range = Whole | Part(from: u64, to: u64)

  datatype Verification = WholeDigestVerified | AuthenticatedRange

  /** `hashed` is what the running digest has absorbed; present only for a whole-file read. */
  datatype State = State(
    receipt: ChunkedReceipt, root: Root, from: u64, to: u64, nextChunk: u64,
    loadedPage: Option<nat>, page: seq<Pointer>, hashed: Option<Bytes>, finished: bool, failed: bool)

  function VerificationOf(s: State): Option<Verification> {
    if !s.finished || s.failed then None
    else if s.hashed.Some? then Some(WholeDigestVerified) else Some(AuthenticatedRange)
  }

  // ---------------------------------------------------------------- opening

  predicate PagePointerOk(receipt: WriteReceipt, p: Pointer) {
    var r := ToReceipt(p, receipt.context);
    r.Ok? && r.value.size <= INDEX_BYTES && PartKey(receipt.key, "pages", r.value.digest) == Some(r.value.key)
  }

  function Open(cfg: StorageConfig, codec: Codec, receipt: ChunkedReceipt, range: Range, reply: GetReply):
    (r: Result<State>)
    ensures r.Ok? ==> Valid(r.value)
  {
    if receipt.size > cfg.maxStreamedBytes then Err(SizeLimitExceeded)
    else
      match ReadReceipt(cfg, receipt.root, INDEX_BYTES, reply)
      case Err(e) => Err(e)
      case Ok(bytes) =>
        match codec.decodeRoot(bytes)
        case None => Err(InvalidMetadata)
        case Some(root) =>
          if !RootMatches(root, receipt) then Err(InvalidMetadata)
          else if exists p <- root.pages :: !PagePointerOk(receipt.root, p) then Err(InvalidMetadata)
          else
            var from: u64, to: u64 := if range.Whole? then 0 else range.from, if range.Whole? then root.size else range.to;
            if from > to || to > root.size || (range.Part? && from == to) then Err(InvalidMetadata)
            else
              StartInRange(from, to, root.chunkBytes);
              Ok(State(receipt, root, from, to, from / root.chunkBytes, None, [],
                       if range.Whole? then Some([]) else None, false, false))
  }

  lemma StartInRange(from: nat, to: nat, chunkBytes: nat)
    requires from <= to && chunkBytes > 0
    ensures from / chunkBytes <= ChunkCount(to, chunkBytes)
    ensures (from / chunkBytes) * chunkBytes <= from < (from / chunkBytes) * chunkBytes + chunkBytes
  {
    var k := from / chunkBytes;
    DivBounds(from, chunkBytes);
    if k > 0 {
      ChunkExists(to, chunkBytes, k - 1);
      assert (k - 1) * chunkBytes == k * chunkBytes - chunkBytes;
    }
  }

  // ------------------------------------------------------------------- steps

  predicate ChunkPointerOk(root: Root, receipt: WriteReceipt, k: nat, p: Pointer) {
    var r := ToReceipt(p, receipt.context);
    && r.Ok?
    && PartKey(receipt.key, "chunks", r.value.digest) == Some(r.value.key)
    && r.value.size == Min(root.size - k * root.chunkBytes, root.chunkBytes)
  }

  /** The checks made on the pointers of page `index` before they are used. */
  predicate PageOk(root: Root, receipt: WriteReceipt, index: nat, chunks: seq<Pointer>)
    requires root.chunkBytes > 0
  {
    && |chunks| == Min(ChunkCount(root.size, root.chunkBytes) - index * PAGE_ENTRIES, PAGE_ENTRIES)
    && forall i :: 0 <= i < |chunks| ==> ChunkPointerOk(root, receipt, index * PAGE_ENTRIES + i, chunks[i])
  }

  /** What every reachable reader satisfies, however the receipt and the answers came about. */
  ghost predicate Valid(s: State) {
    && RootMatches(s.root, s.receipt)
    && s.from <= s.to <= s.root.size
    && s.nextChunk <= ChunkCount(s.to, s.root.chunkBytes)
    && s.from < s.nextChunk * s.root.chunkBytes + s.root.chunkBytes
    && (s.loadedPage.Some? ==> PageOk(s.root, s.receipt.root, s.loadedPage.value, s.page))
  }

  function LoadPage(cfg: StorageConfig, codec: Codec, s: State, index: nat, reply: GetReply): Result<seq<Pointer>>
    requires s.root.chunkBytes > 0
  {
    if index >= |s.root.pages| then Err(InvalidMetadata)
    else
      match ToReceipt(s.root.pages[index], s.receipt.root.context)
      case Err(e) => Err(e)
      case Ok(receipt) =>
        match ReadReceipt(cfg, receipt, INDEX_BYTES, reply)
        case Err(e) => Err(e)
        case Ok(bytes) =>
          match codec.decodePage(bytes)
          case None => Err(InvalidMetadata)
          case Some(page) =>
            if page.format != PAGE_FORMAT || page.firstChunk != index * PAGE_ENTRIES
               || !PageOk(s.root, s.receipt.root, index, page.chunks)
            then Err(InvalidMetadata)
            else Ok(page.chunks)
  }

  function CurrentPage(cfg: StorageConfig, codec: Codec, s: State, reply: GetReply): Result<seq<Pointer>>
    requires s.root.chunkBytes > 0
  {
    var index := s.nextChunk / PAGE_ENTRIES;
    if s.loadedPage == Some(index) then Ok(s.page) else LoadPage(cfg, codec, s, index, reply)
  }

  /** Every index, product and slice bound the next step computes is in range. */
  lemma StepInRange(cfg: StorageConfig, codec: Codec, s: State, pageReply: GetReply)
    requires Valid(s)
    ensures s.nextChunk * s.root.chunkBytes <= 0x1000_0000_0000
    ensures s.nextChunk * s.root.chunkBytes < s.to ==>
      && s.nextChunk < ChunkCount(s.to, s.root.chunkBytes) <= ChunkCount(s.root.size, s.root.chunkBytes)
      && s.nextChunk / PAGE_ENTRIES < |s.root.pages|
      && (CurrentPage(cfg, codec, s, pageReply).Ok? ==>
            && PageOk(s.root, s.receipt.root, s.nextChunk / PAGE_ENTRIES, CurrentPage(cfg, codec, s, pageReply).value)
            && s.nextChunk % PAGE_ENTRIES < |CurrentPage(cfg, codec, s, pageReply).value|)
  {
    var cb := s.root.chunkBytes;
    SizeBound(s.root.size, cb);
    ChunkExists(s.to, cb, s.nextChunk);
    ChunkExists(s.root.size, cb, s.nextChunk);
    if s.nextChunk > 0 { ChunkExists(s.to, cb, s.nextChunk - 1); }
    assert s.nextChunk > 0 ==> (s.nextChunk - 1) * cb == s.nextChunk * cb - cb;
    CountMonotone(s.to, s.root.size, cb);
  }

  lemma CountMonotone(a: nat, b: nat, chunkBytes: nat)
    requires a <= b && chunkBytes > 0
    ensures ChunkCount(a, chunkBytes) <= ChunkCount(b, chunkBytes)
  {
    ChunkExists(a, chunkBytes, ChunkCount(b, chunkBytes));
    ChunkExists(b, chunkBytes, ChunkCount(b, chunkBytes));
  }

  /** The part of a chunk that starts at `start` which lies between `from` and `to`. */
  function Cut(bytes: Bytes, from: nat, to: nat, start: nat): Bytes
    requires from <= to && start < to && from <= start + |bytes|
  {
    bytes[(if from > start then from - start else 0)..Min(to - start, |bytes|)]
  }

  function Slice(s: State, bytes: Bytes): Bytes
    requires Valid(s) && s.nextChunk * s.root.chunkBytes < s.to
    requires |bytes| == Min(s.root.size - s.nextChunk * s.root.chunkBytes, s.root.chunkBytes)
  {
    Cut(bytes, s.from, s.to, s.nextChunk * s.root.chunkBytes)
  }

  /** The pointer of the next chunk, once its page is loaded, can be read. */
  ghost predicate PointerReady(s: State) {
    && s.nextChunk % PAGE_ENTRIES < |s.page|
    && var pinned := ToReceipt(s.page[s.nextChunk % PAGE_ENTRIES], s.receipt.root.context);
    && pinned.Ok? && pinned.value.size == Min(s.root.size - s.nextChunk * s.root.chunkBytes, s.root.chunkBytes)
  }

  lemma PageInUse(s: State, chunks: seq<Pointer>)
    requires Valid(s) && PageOk(s.root, s.receipt.root, s.nextChunk / PAGE_ENTRIES, chunks)
    requires s.nextChunk % PAGE_ENTRIES < |chunks|
    ensures var loaded := s.(page := chunks, loadedPage := Some(s.nextChunk / PAGE_ENTRIES));
            Valid(loaded) && PointerReady(loaded)
  {
    assert ChunkPointerOk(s.root, s.receipt.root, s.nextChunk, chunks[s.nextChunk % PAGE_ENTRIES]);
    hide RootMatches, ToReceipt, ChunkCount;
  }

  /** Reads the next chunk through the loaded page and releases the part inside the range. */
  function ReadChunk(cfg: StorageConfig, s: State, chunkReply: GetReply): (State, Result<Option<Bytes>>)
    requires Valid(s) && s.nextChunk * s.root.chunkBytes < s.to && PointerReady(s)
  {
    var receipt := ToReceipt(s.page[s.nextChunk % PAGE_ENTRIES], s.receipt.root.context).value;
    match ReadReceipt(cfg, receipt, s.root.chunkBytes, chunkReply)
    case Err(e) => (s, Err(e))
    case Ok(bytes) =>
      ReadReceiptAuthentic(cfg, receipt, s.root.chunkBytes, chunkReply);
      (s.(hashed := if s.hashed.Some? then Some(s.hashed.value + bytes) else None, nextChunk := s.nextChunk + 1),
       Ok(Some(Slice(s, bytes))))
  }

  function NextInner(cfg: StorageConfig, codec: Codec, s: State, pageReply: GetReply, chunkReply: GetReply):
    (State, Result<Option<Bytes>>)
    requires Valid(s)
  {
    var start := s.nextChunk * s.root.chunkBytes;
    if s.finished then (s, Ok(None))
    else if start >= s.to then
      if s.hashed.Some? && cfg.hash(s.hashed.value) != s.receipt.contentDigest then (s, Err(DigestMismatch))
      else (s.(finished := true), Ok(None))
    else
      StepInRange(cfg, codec, s, pageReply);
      match CurrentPage(cfg, codec, s, pageReply)
      case Err(e) => (s, Err(e))
      case Ok(page) =>
        PageInUse(s, page);
        ReadChunk(cfg, s.(page := page, loadedPage := Some(s.nextChunk / PAGE_ENTRIES)), chunkReply)
  }

  /** `next_chunk`: the first error is remembered for ever. */
  function Next(cfg: StorageConfig, codec: Codec, s: State, pageReply: GetReply, chunkReply: GetReply):
    (State, Result<Option<Bytes>>)
    requires Valid(s)
  {
    if s.failed then (s, Err(DigestMismatch))
    else
      var (next, result) := NextInner(cfg, codec, s, pageReply, chunkReply);
      (if result.Err? then next.(failed := true) else next, result)
  }

  /** The two answers one `next_chunk` call may consume. */
  datatype Answers = Answers(page: GetReply, chunk: GetReply)

  /** A call that releases a chunk has the page of that chunk current, and reads the chunk through it. */
  lemma NextReads(cfg: StorageConfig, codec: Codec, s: State, a: Answers) returns (loaded: State)
    requires Valid(s)
    requires var result := Next(cfg, codec, s, a.page, a.chunk).1; result.Ok? && result.value.Some?
    ensures !s.failed && !s.finished && s.nextChunk * s.root.chunkBytes < s.to
    ensures CurrentPage(cfg, codec, s, a.page).Ok?
    ensures loaded == s.(page := CurrentPage(cfg, codec, s, a.page).value, loadedPage := Some(s.nextChunk / PAGE_ENTRIES))
    ensures Valid(loaded) && PointerReady(loaded)
    ensures PageOk(s.root, s.receipt.root, s.nextChunk / PAGE_ENTRIES, loaded.page)
    ensures Next(cfg, codec, s, a.page, a.chunk) == ReadChunk(cfg, loaded, a.chunk)
  {
    StepInRange(cfg, codec, s, a.page);
    loaded := s.(page := CurrentPage(cfg, codec, s, a.page).value, loadedPage := Some(s.nextChunk / PAGE_ENTRIES));
    PageInUse(s, loaded.page);
    hide PageOk, RootMatches, CurrentPage, ReadChunk, PointerReady, ChunkCount;
  }

  /** The shape of a call that releases a chunk. */
  lemma ReadStep(cfg: StorageConfig, codec: Codec, s: State, a: Answers) returns (bytes: Bytes)
    requires Valid(s)
    requires var result := Next(cfg, codec, s, a.page, a.chunk).1; result.Ok? && result.value.Some?
    ensures !s.failed && !s.finished && s.nextChunk * s.root.chunkBytes < s.to
    ensures |bytes| == Min(s.root.size - s.nextChunk * s.root.chunkBytes, s.root.chunkBytes)
    ensures var (next, result) := Next(cfg, codec, s, a.page, a.chunk);
            && result == Ok(Some(Slice(s, bytes)))
            && next.loadedPage == Some(s.nextChunk / PAGE_ENTRIES)
            && PageOk(s.root, s.receipt.root, s.nextChunk / PAGE_ENTRIES, next.page)
            && next == s.(page := next.page, loadedPage := next.loadedPage, nextChunk := s.nextChunk + 1,
                          hashed := if s.hashed.Some? then Some(s.hashed.value + bytes) else None)
  {
    var loaded := NextReads(cfg, codec, s, a);
    var receipt := ToReceipt(loaded.page[s.nextChunk % PAGE_ENTRIES], s.receipt.root.context).value;
    hide RootMatches, ToReceipt, ChunkCount, PageOk, ReadReceipt, Next;
    ReadReceiptAuthentic(cfg, receipt, s.root.chunkBytes, a.chunk);
    bytes := ReadReceipt(cfg, receipt, s.root.chunkBytes, a.chunk).value;
  }

  lemma AdvanceValid(s: State, next: State)
    requires Valid(s) && s.nextChunk * s.root.chunkBytes < s.to && s.nextChunk + 1 < U64_LIMIT
    requires next.loadedPage.Some? && PageOk(s.root, s.receipt.root, next.loadedPage.value, next.page)
    requires next == s.(page := next.page, loadedPage := next.loadedPage, nextChunk := s.nextChunk + 1,
                        hashed := next.hashed)
    ensures Valid(next)
  {
    ChunkExists(s.to, s.root.chunkBytes, s.nextChunk);
    Distribute(s.nextChunk, s.root.chunkBytes);
  }

  lemma NextValid(cfg: StorageConfig, codec: Codec, s: State, a: Answers)
    requires Valid(s)
    ensures Valid(Next(cfg, codec, s, a.page, a.chunk).0)
  {
    var (next, result) := Next(cfg, codec, s, a.page, a.chunk);
    if result.Ok? && result.value.Some? {
      var bytes := ReadStep(cfg, codec, s, a);
      AdvanceValid(s, next);
    } else {
      StepInRange(cfg, codec, s, a.page);
    }
  }

  lemma Distribute(k: nat, chunkBytes: nat)
    ensures (k + 1) * chunkBytes == k * chunkBytes + chunkBytes
  {
  }
}
