/** How a file's bytes are spread over blocks: fixed-size chunks in data blocks, the first eight
    named by the file entry and the rest by a chain of index blocks
    (`src/core/vault.rs`, block-level I/O and `store_new_content`). */
module Content {

  import opened Bytes
  import opened Results
  import opened Crypto
  import opened Codec
  import opened Format
  import opened Container
  import opened Allocator

  /** Plaintext bytes per block: the block minus a 4-byte length and a 16-byte tag. */
  const CHUNK: nat := 4076

  const INDEX_HEADER: nat := 12

  /** Block pointers per index block. */
  const PER_INDEX: nat := 508

  lemma IndexBlocksAreFull()
    ensures CHUNK == BLOCK_SIZE - 20 && PER_INDEX == (CHUNK - INDEX_HEADER) / 8
    ensures INDEX_HEADER + 8 * PER_INDEX == CHUNK
  {
  }

  // ----- counting blocks

  function DataBlocks(n: nat): nat {
    if n == 0 then 0 else n / CHUNK + if n % CHUNK != 0 then 1 else 0
  }

  function CeilDiv(a: nat, b: nat): nat
    requires b > 0
  {
    (a + b - 1) / b
  }

  function IndexBlocks(dataBlocks: nat): nat {
    var excess := if dataBlocks <= DIRECT_BLOCKS then 0 else dataBlocks - DIRECT_BLOCKS;
    if excess == 0 then 0 else CeilDiv(excess, PER_INDEX)
  }

  /** Blocks a file of `n` bytes occupies. */
  function Need(n: nat): nat {
    DataBlocks(n) + IndexBlocks(DataBlocks(n))
  }

  /** The two ways the source rounds up agree. */
  lemma DataBlocksIsCeiling(n: nat)
    ensures DataBlocks(n) == CeilDiv(n, CHUNK)
    ensures n > 0 ==> CHUNK * (DataBlocks(n) - 1) < n <= CHUNK * DataBlocks(n)
  {
  }

  /** In numbers: 4076 bytes to a data block, the first eight of them named directly, 508 more to each
      index block. */
  lemma NeedInNumbers(n: nat)
    ensures var d := (n + 4075) / 4076;
            Need(n) == d + if d <= 8 then 0 else (d - 8 + 507) / 508
  {
    DataBlocksIsCeiling(n);
    hide DataBlocks;
  }

  // ----- one block on disk

  type Plain = s: bytes | |s| <= CHUNK

  function BlockBytes(c: Suite, k: Key, id: u128, i: nat, p: Plain): BlockImage {
    DecBlockOfEncBlock(c, k, id, i, p);
    Le(|p|, 4) + c.encBlock(k, id, i, p) + Zeros(BLOCK_SIZE - 20 - |p|)
  }

  function OpenBlock(c: Suite, k: Key, id: u128, i: nat, img: BlockImage): Result<bytes> {
    var n := U32Of(Slice(img, 0, 4));
    if 4 + n > BLOCK_SIZE then Err(CorruptContainer)
    else if n + 16 > BLOCK_SIZE - 4 then Err(CorruptContainer)
    else
      match c.decBlock(k, id, i, Slice(img, 4, n + 16))
      case Some(p) => Ok(p)
      case None => Err(CorruptContainer)
  }

  lemma OpenBlockBytes(c: Suite, k: Key, id: u128, i: nat, p: Plain)
    ensures OpenBlock(c, k, id, i, BlockBytes(c, k, id, i, p)) == Ok(p)
  {
    DecBlockOfEncBlock(c, k, id, i, p);
    var img := BlockBytes(c, k, id, i, p);
    assert Slice(img, 0, 4) == Le(|p|, 4);
    assert Slice(img, 4, |p| + 16) == c.encBlock(k, id, i, p);
    FixedWidthRoundTrips(0, |p|, 0, 0, 0);
  }

  /** On disk: the length, then the ciphertext, then zeros; and what was encrypted for one file and one
      block opens under any other only if the cipher says so. */
  lemma BlockIsBound(c: Suite, k: Key, id: u128, i: nat, p: Plain, id': u128, i': nat)
    ensures var b, sealed := BlockBytes(c, k, id, i, p), c.encBlock(k, id, i, p);
            && |sealed| == |p| + 16 && b == Le(|p|, 4) + sealed + Zeros(4076 - |p|)
            && OpenBlock(c, k, id', i', b) == match c.decBlock(k, id', i', sealed)
                                              case Some(q) => Ok(q)
                                              case None => Err(CorruptContainer)
  {
    DecBlockOfEncBlock(c, k, id, i, p);
    var img := BlockBytes(c, k, id, i, p);
    assert Slice(img, 0, 4) == Le(|p|, 4);
    assert Slice(img, 4, |p| + 16) == c.encBlock(k, id, i, p);
    FixedWidthRoundTrips(0, |p|, 0, 0, 0);
  }

  // ----- index blocks

  type IndexList = s: seq<u64> | |s| <= PER_INDEX

  function IndexPayload(next: u64, idx: IndexList): Plain {
    Le(next, 8) + Le(|idx|, 4) + LeSeq(idx)
  }

  function ParseIndex(p: bytes): Result<(u64, seq<u64>)> {
    if |p| < INDEX_HEADER then Err(CorruptContainer)
    else
      var count := U32Of(Slice(p, 8, 4));
      if INDEX_HEADER + 8 * count > |p| then Err(CorruptContainer)
      else Ok((U64Of(Slice(p, 0, 8)), UnLeSeq(Slice(p, INDEX_HEADER, 8 * count), count)))
  }

  lemma IndexRoundTrip(next: u64, idx: IndexList)
    ensures ParseIndex(IndexPayload(next, idx)) == Ok((next, idx))
    ensures var p := IndexPayload(next, idx);
            Slice(p, 0, 8) == Le(next, 8) && Slice(p, 8, 4) == Le(|idx|, 4) && p[12..] == LeSeq(idx)
  {
    var p := IndexPayload(next, idx);
    assert Slice(p, 0, 8) == Le(next, 8) && Slice(p, 8, 4) == Le(|idx|, 4) && Slice(p, 12, 8 * |idx|) == LeSeq(idx);
    FixedWidthRoundTrips(0, |idx|, next, 0, 0);
    UnLeSeqOfLeSeq(idx);
  }

  // ----- a file over its blocks

  /** A file's contents and the blocks it owns: data blocks first, then index blocks. */
  datatype FileRec = FileRec(data: bytes, blocks: seq<u64>) {
    function D(): nat {
      DataBlocks(|data|)
    }

    predicate Shaped() {
      |data| < U63 && |blocks| == Need(|data|) && Increasing(blocks)
    }
  }

  const NO_FILE := FileRec([], [])

  /** The `j`-th chunk of the data. */
  function Chunk(data: bytes, j: nat): Plain
    requires j < DataBlocks(|data|)
  {
    data[j * CHUNK..Min((j + 1) * CHUNK, |data|)]
  }

  /** The pointers held by the `j`-th index block, and where they stop. */
  function IndexEnd(d: nat, j: nat): nat {
    Min(DIRECT_BLOCKS + PER_INDEX * (j + 1), d)
  }

  function IndexPart(r: FileRec, j: nat): IndexList
    requires r.Shaped() && j < IndexBlocks(r.D())
  {
    r.blocks[DIRECT_BLOCKS + PER_INDEX * j..IndexEnd(r.D(), j)]
  }

  /** The successor of the `j`-th index block, 0 for none. */
  function NextIndex(r: FileRec, j: nat): u64
    requires r.Shaped() && j <= IndexBlocks(r.D())
  {
    if j < IndexBlocks(r.D()) then r.blocks[r.D() + j] else 0
  }

  /** What block number `p` of a file holds in the clear. */
  function Payload(r: FileRec, p: nat): Plain
    requires r.Shaped() && p < |r.blocks|
  {
    if p < r.D() then Chunk(r.data, p)
    else IndexPayload(NextIndex(r, p - r.D() + 1), IndexPart(r, p - r.D()))
  }

  /** A file entry that describes a file. */
  predicate Describes(c: Suite, e: FileEntry, r: FileRec) {
    && r.Shaped()
    && e.size == |r.data| && e.fileHash == c.hash(r.data) && e.blocksUsed == |r.blocks| % U32
    && (forall j | 0 <= j < DIRECT_BLOCKS :: e.direct[j] == if j < r.D() then r.blocks[j] else 0)
    && e.overflow == NextIndex(r, 0)
  }

  /** The sentinel is unambiguous: index blocks come after at least nine data blocks, so none of them
      is block 0, and each is larger than the one before it in the chain. */
  lemma IndexChainAscends(r: FileRec, j: nat)
    requires r.Shaped() && j < IndexBlocks(r.D())
    ensures 0 < NextIndex(r, j)
    ensures NextIndex(r, j + 1) == 0 || NextIndex(r, j) < NextIndex(r, j + 1)
    ensures forall k | 0 <= k < r.D() :: r.blocks[k] < NextIndex(r, j)
  {
    assert r.blocks[0] < r.blocks[r.D() + j];
  }

  lemma IndexPartBounds(r: FileRec, j: nat)
    requires r.Shaped() && j < IndexBlocks(r.D())
    ensures DIRECT_BLOCKS + PER_INDEX * j < IndexEnd(r.D(), j) <= r.D()
    ensures j + 1 == IndexBlocks(r.D()) <==> IndexEnd(r.D(), j) == r.D()
    ensures j + 1 < IndexBlocks(r.D()) ==> IndexEnd(r.D(), j) == DIRECT_BLOCKS + PER_INDEX * (j + 1)
  {
  }
}
