/** What the chunked reader accepts, spelled out on the decoded index objects. */
module ReaderForms {
  import opened Common
  import opened Identity
  import opened Storage
  import opened ChunkFormat
  import opened Reader

  /** Absent, or 1 to 2048 bytes long. */
  predicate Readable(t: Tag) {
    t.Some? ==> 1 <= |t.value| <= 2048
  }

  /** A pointer to a part of the file `base`, of the given kind. */
  predicate PointsBelow(base: ObjectKey, kind: string, p: Pointer) {
    && Readable(p.version) && Readable(p.eTag)
    && ValidDigest(p.digest) && PartKey(base, kind, p.digest) == Some(p.key)
  }

  /** Length of chunk `k` of a file. */
  function ChunkLength(size: nat, chunkBytes: nat, k: nat): int {
    if (k + 1) * chunkBytes <= size then chunkBytes else size - k * chunkBytes
  }

  lemma PagePointerIff(receipt: WriteReceipt, p: Pointer)
    ensures PagePointerOk(receipt, p) <==> PointsBelow(receipt.key, "pages", p) && p.size <= 0x40_0000
  {
    hide PartKey;
  }

  lemma ChunkPointerIff(root: Root, receipt: WriteReceipt, k: nat, p: Pointer)
    ensures ChunkPointerOk(root, receipt, k, p) <==>
            PointsBelow(receipt.key, "chunks", p) && p.size == ChunkLength(root.size, root.chunkBytes, k)
  {
    assert (k + 1) * root.chunkBytes == k * root.chunkBytes + root.chunkBytes;
    hide PartKey;
  }

  // -------------------------------------------------------------------- root

  /** Just enough pages of 256 chunks. */
  predicate PagesCover(size: nat, chunkBytes: nat, pages: nat) {
    size <= 256 * pages * chunkBytes < size + 256 * chunkBytes
  }

  lemma PagesCoverIff(size: nat, chunkBytes: nat, pages: nat)
    requires chunkBytes > 0
    ensures pages == PageCount(size, chunkBytes) <==> PagesCover(size, chunkBytes, pages)
  {
    ChunkExists(size, chunkBytes, 256 * pages);
    if pages > 0 {
      ChunkExists(size, chunkBytes, 256 * pages - 256);
      assert (256 * pages - 256) * chunkBytes == 256 * pages * chunkBytes - 256 * chunkBytes;
    }
  }

  /** A root of format 1 that agrees with the receipt and points to just enough pages of the same file. */
  predicate RootFits(receipt: ChunkedReceipt, root: Root) {
    && root == Root("warpin-chunked/v1", receipt.root.key, receipt.root.context, receipt.contentDigest, receipt.size,
                    receipt.contentType, root.chunkBytes, root.pages)
    && ValidChunkSize(root.chunkBytes)
    && |root.pages| <= 4096 && PagesCover(root.size, root.chunkBytes, |root.pages|)
    && forall p <- root.pages :: PointsBelow(receipt.root.key, "pages", p) && p.size <= 0x40_0000
  }

  /**
   Opening succeeds exactly if the file is within the limit, the answer is the object the receipt pins, it decodes to a
   root that fits, and the range lies inside the file and is not an empty part of it. The reader then stands at the first
   chunk of the range.
   */
  lemma OpenIff(cfg: StorageConfig, codec: Codec, receipt: ChunkedReceipt, range: Range, reply: GetReply, s: State)
    ensures Open(cfg, codec, receipt, range, reply) == Ok(s) <==>
            && receipt.size <= cfg.maxStreamedBytes
            && var read := ReadReceipt(cfg, receipt.root, 0x40_0000, reply);
            && read.Ok? && codec.decodeRoot(read.value) == Some(s.root) && RootFits(receipt, s.root)
            && (match range
                case Whole => s.from == 0 && s.to == receipt.size && s.hashed == Some([])
                case Part(from, to) => s.from == from < to == s.to <= receipt.size && s.hashed == None)
            && s == State(receipt, s.root, s.from, s.to, s.from / s.root.chunkBytes, None, [], s.hashed, false, false)
  {
    var read := ReadReceipt(cfg, receipt.root, INDEX_BYTES, reply);
    if read.Ok? && codec.decodeRoot(read.value).Some? {
      var root := codec.decodeRoot(read.value).value;
      RootFitsIff(receipt, root);
      hide PagePointerOk, RootMatches, RootFits, ReadReceipt;
    }
  }

  lemma RootFitsIff(receipt: ChunkedReceipt, root: Root)
    ensures RootFits(receipt, root) <==> RootMatches(root, receipt) && forall p <- root.pages :: PagePointerOk(receipt.root, p)
  {
    forall p | p in root.pages { PagePointerIff(receipt.root, p); }
    if root.chunkBytes > 0 { PagesCoverIff(root.size, root.chunkBytes, |root.pages|); }
    hide PagePointerOk, PointsBelow, PageCount, PagesCover;
  }

  // -------------------------------------------------------------------- page

  /** Page `index` of format 1: up to 256 chunks from number 256 `index` on, and all that are left if fewer. */
  predicate PageFits(root: Root, receipt: WriteReceipt, index: nat, page: Page) {
    var first, n := 256 * index, |page.chunks|;
    && page.format == "warpin-chunk-index/v1" && page.firstChunk == first
    && 1 <= n <= 256 && (first + n - 1) * root.chunkBytes < root.size
    && (n < 256 ==> root.size <= (first + n) * root.chunkBytes)
    && forall i :: 0 <= i < n ==>
         && PointsBelow(receipt.key, "chunks", page.chunks[i])
         && page.chunks[i].size == ChunkLength(root.size, root.chunkBytes, first + i)
  }

  lemma PageFitsIff(root: Root, receipt: WriteReceipt, index: nat, page: Page)
    requires root.chunkBytes > 0 && index < PageCount(root.size, root.chunkBytes)
    ensures PageFits(root, receipt, index, page) <==>
            page.format == PAGE_FORMAT && page.firstChunk == index * PAGE_ENTRIES && PageOk(root, receipt, index, page.chunks)
  {
    var first, n := 256 * index, |page.chunks|;
    forall i | 0 <= i < n { ChunkPointerIff(root, receipt, first + i, page.chunks[i]); }
    ChunkExists(root.size, root.chunkBytes, first + n);
    if n > 0 { ChunkExists(root.size, root.chunkBytes, first + n - 1); }
    hide ChunkPointerOk, PointsBelow, ChunkLength, ChunkCount;
    assert first < ChunkCount(root.size, root.chunkBytes);
  }

  /** A page is loaded exactly if the answer is the object its pointer pins and decodes to a page that fits. */
  lemma LoadPageIff(cfg: StorageConfig, codec: Codec, s: State, index: nat, reply: GetReply, chunks: seq<Pointer>)
    requires Valid(s) && index < |s.root.pages|
    ensures LoadPage(cfg, codec, s, index, reply) == Ok(chunks) <==>
            && ToReceipt(s.root.pages[index], s.receipt.root.context).Ok?
            && var read := ReadReceipt(cfg, ToReceipt(s.root.pages[index], s.receipt.root.context).value, 0x40_0000, reply);
            && read.Ok? && codec.decodePage(read.value).Some?
            && PageFits(s.root, s.receipt.root, index, codec.decodePage(read.value).value)
            && chunks == codec.decodePage(read.value).value.chunks
  {
    var pinned := ToReceipt(s.root.pages[index], s.receipt.root.context);
    if pinned.Ok? {
      var read := ReadReceipt(cfg, pinned.value, INDEX_BYTES, reply);
      if read.Ok? && codec.decodePage(read.value).Some? {
        PageFitsIff(s.root, s.receipt.root, index, codec.decodePage(read.value).value);
      }
    }
    hide PageFits, PageOk, ReadReceipt, ToReceipt;
  }
}
