/** The three-level hash tree of `warpin-chunked/v1`: a root over pages over chunks. */
module ChunkFormat {
  import opened Common
  import opened Identity
  import opened Storage

  const STORAGE_FORMAT := "warpin-chunked/v1"
  const PAGE_FORMAT := "warpin-chunk-index/v1"
  const PAGE_ENTRIES := 256
  const MAX_PAGES := 4096
  const INDEX_BYTES: u64 := 4 * 1024 * 1024
  const MAX_TAG_BYTES := 2048

  const CHUNK_TYPE := "application/octet-stream"
  const PAGE_TYPE := "application/json"
  const ROOT_TYPE := "application/vnd.warpin.chunked+json"

  datatype Pointer = Pointer(key: string, digest: string, size: u64, version: Tag, eTag: Tag)

  datatype Page = Page(format: string, firstChunk: u64, chunks: seq<Pointer>)

  datatype Root = Root(format: string, key: string, context: string, digest: string, size: u64,
                       contentType: string, chunkBytes: u64, pages: seq<Pointer>)

  datatype ChunkedReceipt = ChunkedReceipt(root: WriteReceipt, contentDigest: Digest, size: u64, contentType: string)

  /** The JSON encoding of the two index objects; decoding may reject. */
  datatype Codec = Codec(
    encodeRoot: Root -> Bytes, decodeRoot: Bytes -> Option<Root>,
    encodePage: Page -> Bytes, decodePage: Bytes -> Option<Page>)

  /** The one assumption on the codec: what was encoded decodes to itself. */
  ghost predicate Faithful(codec: Codec) {
    && (forall root :: codec.decodeRoot(codec.encodeRoot(root)) == Some(root))
    && (forall page :: codec.decodePage(codec.encodePage(page)) == Some(page))
  }

  function FromReceipt(r: WriteReceipt): Pointer {
    Pointer(r.key, r.digest, r.size, r.version, r.eTag)
  }

  predicate UsableTag(t: Tag) {
    t.Some? ==> 0 < |t.value| <= MAX_TAG_BYTES
  }

  predicate UsableTags(p: Pointer) {
    UsableTag(p.version) && UsableTag(p.eTag)
  }

  /** `Pointer::receipt`. */
  function ToReceipt(p: Pointer, context: Digest): Result<WriteReceipt> {
    if !UsableTags(p) then Err(InvalidMetadata)
    else if ParseKey(p.key).None? then Err(InvalidKey)
    else if ParseDigest(p.digest).None? then Err(InvalidMetadata)
    else Ok(WriteReceipt(p.key, context, p.size, p.digest, p.eTag, p.version, false))
  }

  /** A receipt survives as a pointer, apart from its replay flag, exactly if its tags are absent or 1 to 2048 bytes long. */
  lemma PointerRoundTrip(r: WriteReceipt)
    ensures ToReceipt(FromReceipt(r), r.context) ==
            if (r.version.Some? ==> 1 <= |r.version.value| <= 2048) && (r.eTag.Some? ==> 1 <= |r.eTag.value| <= 2048)
            then Ok(r.(replay := false)) else Err(InvalidMetadata)
  {
  }

  // ------------------------------------------------------------- arithmetic

  predicate ValidChunkSize(n: u64) {
    n in {0x1_0000, 0x2_0000, 0x4_0000, 0x8_0000, 0x10_0000, 0x20_0000, 0x40_0000, 0x80_0000, 0x100_0000}
  }

  function DivCeil(a: nat, b: nat): nat
    requires b > 0
  {
    (a + b - 1) / b
  }

  function ChunkCount(size: nat, chunkBytes: nat): nat
    requires chunkBytes > 0
  {
    DivCeil(size, chunkBytes)
  }

  function PageCount(size: nat, chunkBytes: nat): nat
    requires chunkBytes > 0
  {
    DivCeil(ChunkCount(size, chunkBytes), PAGE_ENTRIES)
  }

  /** Chunk `k` exists exactly when its first byte lies inside the file. */
  lemma ChunkExists(size: nat, chunkBytes: nat, k: nat)
    requires chunkBytes > 0
    ensures k < ChunkCount(size, chunkBytes) <==> k * chunkBytes < size
  {
    var q := ChunkCount(size, chunkBytes);
    var r := (size + chunkBytes - 1) % chunkBytes;
    assert size + chunkBytes - 1 == chunkBytes * q + r;
    if k < q {
      MulMonotone(k, q - 1, chunkBytes);
      assert (q - 1) * chunkBytes == chunkBytes * q - chunkBytes;
    } else {
      MulMonotone(q, k, chunkBytes);
      assert q * chunkBytes == chunkBytes * q;
    }
  }

  lemma MulMonotone(a: nat, b: nat, c: nat)
    requires a <= b
    ensures a * c <= b * c
  {
    assert b * c == a * c + (b - a) * c;
  }

  lemma DivBounds(a: nat, b: nat)
    requires b > 0
    ensures (a / b) * b <= a < (a / b) * b + b
  {
    assert a == b * (a / b) + a % b;
  }

  /** A file has at most 4096 pages exactly if it is not longer than 4096 full pages, which is at most 16 TiB. */
  lemma SizeBound(size: nat, chunkBytes: u64)
    requires ValidChunkSize(chunkBytes)
    ensures PageCount(size, chunkBytes) <= MAX_PAGES <==> size <= PAGE_ENTRIES * MAX_PAGES * chunkBytes
    ensures PageCount(size, chunkBytes) <= MAX_PAGES <==> ChunkCount(size, chunkBytes) <= PAGE_ENTRIES * MAX_PAGES
    ensures PAGE_ENTRIES * MAX_PAGES * chunkBytes <= 0x1000_0000_0000
  {
    ChunkExists(size, chunkBytes, PAGE_ENTRIES * MAX_PAGES);
  }

  // ---------------------------------------------------------------- content

  /** Bytes of chunk `k` of `data`. */
  function Chunk(data: Bytes, k: nat, chunkBytes: nat): Bytes
    requires k * chunkBytes <= |data|
  {
    data[k * chunkBytes..Min(|data|, k * chunkBytes + chunkBytes)]
  }

  predicate PointsTo(cfg: StorageConfig, p: Pointer, base: ObjectKey, kind: string, content: Bytes) {
    && p.digest == cfg.hash(content) && p.size == |content|
    && PartKey(base, kind, cfg.hash(content)) == Some(p.key)
  }

  /** Page `p` lists chunks 256p, 256p+1, ... of `data`; only the last page may be short. */
  predicate IsPage(cfg: StorageConfig, base: ObjectKey, data: Bytes, chunkBytes: nat, p: nat, page: Page)
    requires chunkBytes > 0
  {
    && page.format == PAGE_FORMAT && page.firstChunk == p * PAGE_ENTRIES
    && |page.chunks| == Min(ChunkCount(|data|, chunkBytes) - p * PAGE_ENTRIES, PAGE_ENTRIES)
    && forall j :: 0 <= j < |page.chunks| ==> IsChunk(cfg, base, data, chunkBytes, p * PAGE_ENTRIES + j, page.chunks[j])
  }

  predicate IsChunk(cfg: StorageConfig, base: ObjectKey, data: Bytes, chunkBytes: nat, k: nat, p: Pointer) {
    k * chunkBytes < |data| && PointsTo(cfg, p, base, "chunks", Chunk(data, k, chunkBytes))
  }

  /** `root` points to `pages`, which list every chunk of `data` in order. */
  predicate IsTree(cfg: StorageConfig, codec: Codec, base: ObjectKey, data: Bytes, root: Root, pages: seq<Page>) {
    && ValidChunkSize(root.chunkBytes)
    && |pages| == |root.pages| == PageCount(|data|, root.chunkBytes)
    && forall p :: 0 <= p < |pages| ==>
       && PointsTo(cfg, root.pages[p], base, "pages", codec.encodePage(pages[p]))
       && root.pages[p].size <= INDEX_BYTES
       && IsPage(cfg, base, data, root.chunkBytes, p, pages[p])
  }

  /** `receipt`, `root` and `pages` commit to exactly `data`. */
  predicate Commits(cfg: StorageConfig, codec: Codec, receipt: ChunkedReceipt, data: Bytes, root: Root, pages: seq<Page>) {
    && receipt.size == |data| && receipt.contentDigest == cfg.hash(data)
    && receipt.root.digest == cfg.hash(codec.encodeRoot(root))
    && receipt.root.size == |codec.encodeRoot(root)| <= INDEX_BYTES
    && RootMatches(root, receipt)
    && IsTree(cfg, codec, receipt.root.key, data, root, pages)
  }

  /** The scalar checks `open_chunked` makes on a decoded root. */
  predicate RootMatches(root: Root, receipt: ChunkedReceipt) {
    && root.format == STORAGE_FORMAT
    && root.key == receipt.root.key && root.context == receipt.root.context
    && root.digest == receipt.contentDigest && root.size == receipt.size
    && root.contentType == receipt.contentType
    && ValidChunkSize(root.chunkBytes)
    && |root.pages| <= MAX_PAGES
    && |root.pages| == PageCount(root.size, root.chunkBytes)
  }

  // ------------------------------------------------------------- held trees

  /** `objects` holds the part `p` points to, in `context`. */
  predicate HoldsPart(cfg: StorageConfig, objects: map<string, StoredObject>, context: Digest, p: Pointer) {
    && ValidKey(p.key) && ValidDigest(p.digest)
    && Holds(cfg, objects, WriteReceipt(p.key, context, p.size, p.digest, p.eTag, p.version, false))
    && (cfg.managed ==> NonEmptyTag(p.version) && NonEmptyTag(p.eTag))
  }

  predicate HoldsPage(cfg: StorageConfig, objects: map<string, StoredObject>, context: Digest, page: Page) {
    forall p <- page.chunks :: HoldsPart(cfg, objects, context, p)
  }

  /** Every object of the tree is in the store. */
  predicate HoldsTree(cfg: StorageConfig, objects: map<string, StoredObject>, receipt: ChunkedReceipt, root: Root,
                      pages: seq<Page>)
  {
    && Holds(cfg, objects, receipt.root)
    && (cfg.managed ==> NonEmptyTag(receipt.root.version) && NonEmptyTag(receipt.root.eTag))
    && (forall p <- root.pages :: HoldsPart(cfg, objects, receipt.root.context, p))
    && (forall page <- pages :: HoldsPage(cfg, objects, receipt.root.context, page))
  }
}
