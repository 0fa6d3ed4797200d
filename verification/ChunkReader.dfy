/** `open_chunked` and `ChunkedObjectReader`, which follow the step function of `Reader`. */
module ChunkReader {
  import opened Common
  import opened Identity
  import opened Storage
  import opened ChunkFormat
  import opened Reader
  import opened ObjectStore

  /** A chunk of the file starts inside it. */
  lemma OffsetInFile(size: u64, chunkBytes: u64, k: nat)
    requires chunkBytes > 0 && k < ChunkCount(size, chunkBytes)
    ensures k * chunkBytes < size
  {
    ChunkExists(size, chunkBytes, k);
  }

  class ChunkedObjectReader {
    const storage: VerifiedObjectStorage
    const codec: Codec
    const receipt: ChunkedReceipt
    const root: Root
    const from: u64
    const to: u64
    var nextChunk: u64
    var loadedPage: Option<nat>
    var page: seq<Pointer>
    var hashed: Option<Bytes>
    var finished: bool
    var failed: bool

    ghost function View(): State
      reads this
    {
      State(receipt, root, from, to, nextChunk, loadedPage, page, hashed, finished, failed)
    }

    constructor (storage: VerifiedObjectStorage, codec: Codec, s: State)
      ensures View() == s && this.storage == storage && this.codec == codec
    {
      this.storage, this.codec, receipt, root, from, to := storage, codec, s.receipt, s.root, s.from, s.to;
      nextChunk, loadedPage, page, hashed, finished, failed :=
        s.nextChunk, s.loadedPage, s.page, s.hashed, s.finished, s.failed;
    }

    /** Checks the pointer to chunk `k`; the offset it computes stays in range. */
    method CheckPointer(k: u64, p: Pointer) returns (ok: bool)
      requires RootMatches(root, receipt) && k < ChunkCount(root.size, root.chunkBytes)
      ensures ok <==> ChunkPointerOk(root, receipt.root, k, p)
    {
      OffsetInFile(root.size, root.chunkBytes, k);
      hide RootMatches, ChunkCount;
      var offset: u64 := k * root.chunkBytes;
      var rest: u64 := root.size - offset;
      var pointer := ToReceipt(p, receipt.root.context);
      ok := && pointer.Ok?
            && PartKey(receipt.root.key, "chunks", pointer.value.digest) == Some(pointer.value.key)
            && pointer.value.size == Min(rest, root.chunkBytes);
    }

    /** Checks every pointer of a decoded page. */
    method CheckPage(index: u64, chunks: seq<Pointer>) returns (ok: bool)
      requires RootMatches(root, receipt) && index * PAGE_ENTRIES < ChunkCount(root.size, root.chunkBytes)
      ensures ok <==> PageOk(root, receipt.root, index, chunks)
    {
      SizeBound(root.size, root.chunkBytes);
      hide ChunkPointerOk, ChunkCount, RootMatches;
      var total: u64 := ChunkCount(root.size, root.chunkBytes);
      var first: u64 := index * PAGE_ENTRIES;
      var remaining: u64 := total - first;
      if |chunks| != Min(remaining, PAGE_ENTRIES) { return false; }
      var i := 0;
      while i < |chunks|
        invariant 0 <= i <= |chunks|
        invariant forall j :: 0 <= j < i ==> ChunkPointerOk(root, receipt.root, first + j, chunks[j])
      {
        var pointerOk := CheckPointer(first + i, chunks[i]);
        if !pointerOk { return false; }
        i := i + 1;
      }
      ok := true;
    }

    /** Fetches, decodes and checks page `index`. */
    method FetchPage(index: u64) returns (r: Result<seq<Pointer>>, ghost reply: GetReply)
      requires RootMatches(root, receipt) && index * PAGE_ENTRIES < ChunkCount(root.size, root.chunkBytes)
      ensures r == LoadPage(storage.cfg, codec, View(), index, reply)
    {
      hide ToReceipt, ReadReceipt, DivCeil;
      reply := Failed;
      if index >= |root.pages| { return Err(InvalidMetadata), reply; }
      var pinned := ToReceipt(root.pages[index], receipt.root.context);
      if pinned.Err? { return Err(pinned.error), reply; }
      var bytes;
      bytes, reply := storage.ReadReceiptBounded(pinned.value, INDEX_BYTES);
      if bytes.Err? { return Err(bytes.error), reply; }
      var decoded := codec.decodePage(bytes.value);
      if decoded.None? { return Err(InvalidMetadata), reply; }
      SizeBound(root.size, root.chunkBytes);
      var first: u64 := index * PAGE_ENTRIES;
      var ok := CheckPage(index, decoded.value.chunks);
      if decoded.value.format != PAGE_FORMAT || decoded.value.firstChunk != first || !ok {
        return Err(InvalidMetadata), reply;
      }
      r := Ok(decoded.value.chunks);
    }

    /** Makes the page of the next chunk current, from the cache or from the store. */
    method EnsurePage() returns (failure: Option<Error>, ghost reply: GetReply)
      requires Valid(View()) && nextChunk * root.chunkBytes < to
      modifies this`page, this`loadedPage
      ensures match CurrentPage(storage.cfg, codec, old(View()), reply)
              case Err(e) => failure == Some(e) && View() == old(View())
              case Ok(chunks) =>
                && failure == None
                && View() == old(View()).(page := chunks, loadedPage := Some(nextChunk / PAGE_ENTRIES))
    {
      failure, reply := None, Failed;
      StepInRange(storage.cfg, codec, View(), Failed);
      var index: u64 := nextChunk / PAGE_ENTRIES;
      if loadedPage != Some(index) {
        var fetched;
        fetched, reply := FetchPage(index);
        if fetched.Err? { return Some(fetched.error), reply; }
        page, loadedPage := fetched.value, Some(index);
      }
    }

    /** Hashes a verified chunk, moves on, and cuts the chunk to the range. */
    method Release(bytes: Bytes) returns (released: Bytes)
      requires Valid(View()) && nextChunk * root.chunkBytes < to
      requires |bytes| == Min(root.size - nextChunk * root.chunkBytes, root.chunkBytes)
      modifies this`hashed, this`nextChunk
      ensures released == Slice(old(View()), bytes)
      ensures View() == old(View()).(nextChunk := old(nextChunk) + 1,
                                     hashed := if old(hashed).Some? then Some(old(hashed).value + bytes) else None)
    {
      StepInRange(storage.cfg, codec, View(), Failed);
      var start: u64 := nextChunk * root.chunkBytes;
      if hashed.Some? { hashed := Some(hashed.value + bytes); }
      var skip: u64 := if from > start then from - start else 0;
      var end: u64 := Min(to - start, |bytes|);
      nextChunk := nextChunk + 1;
      released := bytes[skip..end];
    }

    /** Reads the next chunk through the loaded page. */
    method ReadLoaded() returns (r: Result<Option<Bytes>>, ghost reply: GetReply)
      requires Valid(View()) && nextChunk * root.chunkBytes < to && PointerReady(View())
      modifies this`hashed, this`nextChunk
      ensures (View(), r) == ReadChunk(storage.cfg, old(View()), reply)
    {
      hide Valid, Slice, ReadReceipt, ToReceipt;
      assert root.chunkBytes < U64_LIMIT && root.chunkBytes >= 0;
      var pinned := ToReceipt(page[nextChunk % PAGE_ENTRIES], receipt.root.context);
      var bytes;
      bytes, reply := storage.ReadReceiptBounded(pinned.value, root.chunkBytes);
      if bytes.Err? { return Err(bytes.error), reply; }
      ReadReceiptAuthentic(storage.cfg, pinned.value, root.chunkBytes, reply);
      var released := Release(bytes.value);
      r := Ok(Some(released));
    }

    /** Loads the page of the next chunk, and reads the chunk. */
    method ReadNext() returns (r: Result<Option<Bytes>>, ghost answers: Answers)
      requires Valid(View()) && !failed && !finished && nextChunk * root.chunkBytes < to
      modifies this
      ensures (View(), r) == Reader.NextInner(storage.cfg, codec, old(View()), answers.page, answers.chunk)
    {
      hide ReadChunk, PageOk, RootMatches, ChunkCount, PointerReady;
      ghost var before := View();
      var failure;
      ghost var pageReply, chunkReply;
      failure, pageReply := EnsurePage();
      StepInRange(storage.cfg, codec, before, pageReply);
      answers := Answers(pageReply, Failed);
      if failure.Some? { return Err(failure.value), answers; }
      PageInUse(before, page);
      r, chunkReply := ReadLoaded();
      answers := Answers(pageReply, chunkReply);
    }

    method NextInner() returns (r: Result<Option<Bytes>>, ghost answers: Answers)
      requires Valid(View()) && !failed
      modifies this
      ensures (View(), r) == Reader.NextInner(storage.cfg, codec, old(View()), answers.page, answers.chunk)
    {
      answers := Answers(Failed, Failed);
      if finished { return Ok(None), answers; }
      StepInRange(storage.cfg, codec, View(), Failed);
      var start: u64 := nextChunk * root.chunkBytes;
      if start < to {
        r, answers := ReadNext();
        return;
      }
      if hashed.Some? && storage.cfg.hash(hashed.value) != receipt.contentDigest { return Err(DigestMismatch), answers; }
      finished := true;
      r := Ok(None);
    }

    /** `next_chunk`. */
    method NextChunk() returns (r: Result<Option<Bytes>>, ghost answers: Answers)
      requires Valid(View())
      modifies this
      ensures (View(), r) == Next(storage.cfg, codec, old(View()), answers.page, answers.chunk)
      ensures Valid(View())
    {
      if failed { return Err(DigestMismatch), Answers(Failed, Failed); }
      r, answers := NextInner();
      if r.Err? { failed := true; }
      NextValid(storage.cfg, codec, old(View()), answers);
    }

    method Verification() returns (v: Option<Reader.Verification>)
      ensures v == VerificationOf(View())
    {
      if !finished || failed { return None; }
      v := Some(if hashed.Some? then WholeDigestVerified else AuthenticatedRange);
    }
  }

  /** The loop over the page pointers of a root. */
  method CheckPagePointers(receipt: WriteReceipt, pages: seq<Pointer>) returns (ok: bool)
    ensures ok <==> forall p <- pages :: PagePointerOk(receipt, p)
  {
    var i := 0;
    while i < |pages|
      invariant 0 <= i <= |pages|
      invariant forall j :: 0 <= j < i ==> PagePointerOk(receipt, pages[j])
    {
      var pointer := ToReceipt(pages[i], receipt.context);
      if pointer.Err? || pointer.value.size > INDEX_BYTES
         || PartKey(receipt.key, "pages", pointer.value.digest) != Some(pointer.value.key)
      {
        assert pages[i] in pages && !PagePointerOk(receipt, pages[i]);
        return false;
      }
      i := i + 1;
    }
    ok := true;
  }

  /** `open_chunked`: read, decode and validate the root before any chunk can be requested. */
  method OpenChunked(storage: VerifiedObjectStorage, codec: Codec, receipt: ChunkedReceipt, range: Range)
    returns (r: Result<State>, ghost reply: GetReply)
    ensures r == Open(storage.cfg, codec, receipt, range, reply)
  {
    reply := Failed;
    if receipt.size > storage.cfg.maxStreamedBytes { return Err(SizeLimitExceeded), reply; }
    var bytes;
    bytes, reply := storage.ReadReceiptBounded(receipt.root, INDEX_BYTES);
    if bytes.Err? { return Err(bytes.error), reply; }
    var decoded := codec.decodeRoot(bytes.value);
    if decoded.None? { return Err(InvalidMetadata), reply; }
    var root := decoded.value;
    if !RootMatches(root, receipt) { return Err(InvalidMetadata), reply; }
    var ok := CheckPagePointers(receipt.root, root.pages);
    if !ok { return Err(InvalidMetadata), reply; }
    assert root.chunkBytes > 0;
    hide PagePointerOk, ReadReceipt, RootMatches, ChunkCount, Valid;
    var whole := range.Whole?;
    var from: u64, to: u64 := if whole then 0 else range.from, if whole then root.size else range.to;
    if from > to || to > root.size || (!whole && from == to) { return Err(InvalidMetadata), reply; }
    StartInRange(from, to, root.chunkBytes);
    r := Ok(State(receipt, root, from, to, from / root.chunkBytes, None, [], if whole then Some([]) else None, false, false));
  }
}
