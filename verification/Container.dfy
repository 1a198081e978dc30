/** The single-file container: which bytes of the file stand for which record. A container is six
    regions end to end; each region is an array of fixed-size cells, and every byte belongs to
    exactly one cell. */
module Container {

  import opened Bytes
  import opened Results
  import opened Crypto
  import opened Codec
  import opened Format
  import opened Headers
  import opened WriteLog
  import opened Allocator

  type BlockImage = s: bytes | |s| == BLOCK_SIZE witness Zeros(BLOCK_SIZE)

  /** The records a container holds. */
  datatype Store = Store(
    header: Header, bitmap: bytes, entries: seq<FileEntry>, recipients: seq<RecipientSlot>,
    chain: seq<Option<ChainRecord>>, blocks: seq<BlockImage>)

  datatype Geometry = Geometry(blockCount: nat, maxFiles: nat, chainSlots: nat) {
    function TableAt(): nat {
      HEADER_SIZE + BitmapLen(blockCount)
    }
    function KeyringAt(): nat {
      TableAt() + ENTRY_SIZE * maxFiles
    }
    function ChainAt(): nat {
      KeyringAt() + RECIPIENT_SLOT_SIZE * MAX_RECIPIENTS
    }
    function DataAt(): nat {
      ChainAt() + CHAIN_RECORD_SIZE * chainSlots
    }
    function Total(): nat {
      DataAt() + BLOCK_SIZE * blockCount
    }
  }

  function Geo(st: Store): Geometry {
    Geometry(|st.blocks|, |st.entries|, |st.chain|)
  }

  /** The header describes this geometry. */
  predicate LaidOut(h: Header, g: Geometry) {
    && h.meta.version == FORMAT_VERSION && h.meta.blockSize == BLOCK_SIZE && h.meta.blockCount == g.blockCount > 0
    && h.layout.bitmapOffset == HEADER_SIZE && h.layout.bitmapLen == BitmapLen(g.blockCount)
    && h.layout.fileTableOffset == g.TableAt() && h.layout.fileTableLen == ENTRY_SIZE * g.maxFiles
    && h.layout.maxFiles == g.maxFiles && h.layout.entrySize == ENTRY_SIZE
    && h.layout.recipientOffset == g.KeyringAt() && h.layout.recipientLen == RECIPIENT_SLOT_SIZE * MAX_RECIPIENTS
    && h.layout.maxRecipients == MAX_RECIPIENTS && h.layout.recipientSlotSize == RECIPIENT_SLOT_SIZE
    && h.layout.chainOffset == g.ChainAt() && h.layout.chainLen == CHAIN_RECORD_SIZE * g.chainSlots
    && h.layout.maxChainRecords == g.chainSlots > 0 && h.layout.chainRecordSize == CHAIN_RECORD_SIZE
    && h.layout.dataOffset == g.DataAt() && g.Total() < U64
  }

  lemma LaidOutIsSane(h: Header, g: Geometry)
    requires LaidOut(h, g)
    ensures Sane(h) && h.TotalContainerSize() == g.Total()
  {
  }

  predicate Shaped(st: Store) {
    LaidOut(st.header, Geo(st)) && |st.bitmap| == BitmapLen(|st.blocks|) && |st.recipients| == MAX_RECIPIENTS
  }

  /** The regions follow each other without a gap: header, bitmap, file table, keyring, chain, data. */
  lemma RegionsInNumbers(g: Geometry)
    ensures g.TableAt() == 1024 + (g.blockCount + 7) / 8
    ensures g.KeyringAt() == g.TableAt() + 320 * g.maxFiles && g.ChainAt() == g.KeyringAt() + 192 * 16
    ensures g.DataAt() == g.ChainAt() + 224 * g.chainSlots && g.Total() == g.DataAt() + 4096 * g.blockCount
  {
  }

  // ----- cells

  datatype Cell = HeaderCell | BitmapCell | EntryCell(i: nat) | RecipientCell(i: nat) | ChainCell(i: nat) | BlockCell(i: nat)

  predicate Has(g: Geometry, x: Cell) {
    match x
    case HeaderCell => true
    case BitmapCell => true
    case EntryCell(i) => i < g.maxFiles
    case RecipientCell(i) => i < MAX_RECIPIENTS
    case ChainCell(i) => i < g.chainSlots
    case BlockCell(i) => i < g.blockCount
  }

  function Off(g: Geometry, x: Cell): nat {
    match x
    case HeaderCell => 0
    case BitmapCell => HEADER_SIZE
    case EntryCell(i) => g.TableAt() + ENTRY_SIZE * i
    case RecipientCell(i) => g.KeyringAt() + RECIPIENT_SLOT_SIZE * i
    case ChainCell(i) => g.ChainAt() + CHAIN_RECORD_SIZE * i
    case BlockCell(i) => g.DataAt() + BLOCK_SIZE * i
  }

  function Len(g: Geometry, x: Cell): nat {
    match x
    case HeaderCell => HEADER_SIZE
    case BitmapCell => BitmapLen(g.blockCount)
    case EntryCell(_) => ENTRY_SIZE
    case RecipientCell(_) => RECIPIENT_SLOT_SIZE
    case ChainCell(_) => CHAIN_RECORD_SIZE
    case BlockCell(_) => BLOCK_SIZE
  }

  function CellBytes(c: Suite, st: Store, x: Cell): bytes
    requires Has(Geo(st), x) && |st.recipients| == MAX_RECIPIENTS
  {
    match x
    case HeaderCell => HeaderBytes(c, st.header)
    case BitmapCell => st.bitmap
    case EntryCell(i) => EntryBytes(c, st.entries[i])
    case RecipientCell(i) => RecipientBytes(c, st.recipients[i])
    case ChainCell(i) => ChainSlotBytes(st.chain[i])
    case BlockCell(i) => st.blocks[i]
  }

  /** Regions are ordered, cells are disjoint and inside the container. */
  lemma CellsDisjoint(g: Geometry, x: Cell, y: Cell)
    requires Has(g, x) && Has(g, y)
    ensures Off(g, x) + Len(g, x) <= g.Total()
    ensures x != y ==> Off(g, x) + Len(g, x) <= Off(g, y) || Off(g, y) + Len(g, y) <= Off(g, x)
  {
  }

  /** ... and they cover it. */
  lemma CellsCover(g: Geometry, k: nat) returns (x: Cell)
    requires k < g.Total()
    ensures Has(g, x) && Off(g, x) <= k < Off(g, x) + Len(g, x)
  {
    if k < HEADER_SIZE {
      x := HeaderCell;
    } else if k < g.TableAt() {
      x := BitmapCell;
    } else if k < g.KeyringAt() {
      x := EntryCell((k - g.TableAt()) / ENTRY_SIZE);
    } else if k < g.ChainAt() {
      x := RecipientCell((k - g.KeyringAt()) / RECIPIENT_SLOT_SIZE);
    } else if k < g.DataAt() {
      x := ChainCell((k - g.ChainAt()) / CHAIN_RECORD_SIZE);
    } else {
      x := BlockCell((k - g.DataAt()) / BLOCK_SIZE);
    }
  }

  // ----- a file that holds a store

  predicate Holds(c: Suite, file: bytes, st: Store, x: Cell)
    requires Has(Geo(st), x) && |st.recipients| == MAX_RECIPIENTS
  {
    var g := Geo(st);
    Off(g, x) + Len(g, x) <= |file| && Slice(file, Off(g, x), Len(g, x)) == CellBytes(c, st, x)
  }

  ghost predicate Represents(c: Suite, file: bytes, st: Store) {
    && Shaped(st)
    && |file| == Geo(st).Total()
    && forall x | Has(Geo(st), x) :: Holds(c, file, st, x)
  }

  lemma ByteIsDetermined(c: Suite, f: bytes, f': bytes, st: Store, k: nat)
    requires Represents(c, f, st) && Represents(c, f', st) && k < |f|
    ensures |f| == |f'| && f[k] == f'[k]
  {
    var g := Geo(st);
    var x := CellsCover(g, k);
    assert Holds(c, f, st, x) && Holds(c, f', st, x);
    hide Represents, CellBytes, Has, Off, Len;
    assert f[k] == Slice(f, Off(g, x), Len(g, x))[k - Off(g, x)];
    assert f'[k] == Slice(f', Off(g, x), Len(g, x))[k - Off(g, x)];
  }

  /** A container is determined by its records, byte for byte. */
  lemma ContainerIsDetermined(c: Suite, f: bytes, f': bytes, st: Store)
    requires Represents(c, f, st) && Represents(c, f', st)
    ensures f == f'
  {
    forall k: nat | k < |f|
      ensures f[k] == f'[k]
    {
      ByteIsDetermined(c, f, f', st, k);
    }
  }

  /** `st'` differs from `st` in one cell, which `data` prints and which sits at `offset`. */
  ghost predicate OneCell(c: Suite, st: Store, st': Store, x: Cell, offset: nat, data: bytes)
    requires Shaped(st)
  {
    && Shaped(st') && Geo(st') == Geo(st) && Has(Geo(st), x)
    && offset == Off(Geo(st), x) && data == CellBytes(c, st', x)
    && forall y | Has(Geo(st), y) && y != x :: CellBytes(c, st', y) == CellBytes(c, st, y)
  }

  lemma CellLength(c: Suite, st: Store, x: Cell)
    requires Has(Geo(st), x) && Shaped(st)
    ensures |CellBytes(c, st, x)| == Len(Geo(st), x)
  {
  }

  lemma KeepsSlice(file: bytes, off: nat, data: bytes, lo: nat, n: nat)
    requires off + |data| <= |file| && lo + n <= |file| && (lo + n <= off || off + |data| <= lo)
    ensures |Splice(file, off, data)| == |file| && Slice(Splice(file, off, data), lo, n) == Slice(file, lo, n)
  {
    SpliceElsewhere(file, off, data, lo, lo + n);
  }

  lemma OtherCell(c: Suite, file: bytes, st: Store, g: Geometry, x: Cell, data: bytes, y: Cell)
    requires |st.recipients| == MAX_RECIPIENTS && g == Geo(st) && |file| == g.Total()
    requires Has(g, x) && Has(g, y) && x != y && |data| == Len(g, x) && Holds(c, file, st, y)
    ensures Holds(c, Splice(file, Off(g, x), data), st, y)
  {
    CellsDisjoint(g, x, y);
    CellsDisjoint(g, y, x);
    KeepsSlice(file, Off(g, x), data, Off(g, y), Len(g, y));
  }

  /** Writing one cell changes that record and nothing else. */
  lemma WriteCell(c: Suite, file: bytes, st: Store, st': Store, x: Cell, offset: nat, data: bytes)
    requires Represents(c, file, st) && OneCell(c, st, st', x, offset, data)
    ensures Len(Geo(st), x) == |data| && offset + |data| <= |file| < U64
    ensures Represents(c, Splice(file, offset, data), st')
  {
    var g := Geo(st);
    CellsDisjoint(g, x, x);
    CellLength(c, st', x);
    SpliceInside(file, offset, data);
    forall y | Has(g, y)
      ensures Holds(c, Splice(file, offset, data), st', y)
    {
      if y != x {
        OtherCell(c, file, st, g, x, data, y);
      }
    }
  }

  lemma SetHeader(c: Suite, st: Store, h: Header)
    requires Shaped(st) && LaidOut(h, Geo(st))
    ensures OneCell(c, st, st.(header := h), HeaderCell, 0, HeaderBytes(c, h))
  {
  }

  lemma SetBitmap(c: Suite, st: Store, bitmap: bytes)
    requires Shaped(st) && |bitmap| == BitmapLen(|st.blocks|)
    ensures OneCell(c, st, st.(bitmap := bitmap), BitmapCell, HEADER_SIZE, bitmap)
  {
  }

  lemma SetEntry(c: Suite, st: Store, i: nat, e: FileEntry)
    requires Shaped(st) && i < |st.entries|
    ensures OneCell(c, st, st.(entries := st.entries[i := e]), EntryCell(i), Off(Geo(st), EntryCell(i)), EntryBytes(c, e))
  {
  }

  lemma SetRecipient(c: Suite, st: Store, i: nat, s: RecipientSlot)
    requires Shaped(st) && i < |st.recipients|
    ensures OneCell(c, st, st.(recipients := st.recipients[i := s]), RecipientCell(i), Off(Geo(st), RecipientCell(i)),
                    RecipientBytes(c, s))
  {
  }

  lemma SetChain(c: Suite, st: Store, i: nat, r: ChainRecord)
    requires Shaped(st) && i < |st.chain|
    ensures OneCell(c, st, st.(chain := st.chain[i := Some(r)]), ChainCell(i), Off(Geo(st), ChainCell(i)), RecordBytes(r))
  {
  }

  lemma SetBlock(c: Suite, st: Store, i: nat, b: BlockImage)
    requires Shaped(st) && i < |st.blocks|
    ensures OneCell(c, st, st.(blocks := st.blocks[i := b]), BlockCell(i), Off(Geo(st), BlockCell(i)), b)
  {
  }

  // ----- reading cells

  /** The offsets computed from the header are those of the cells. */
  lemma SlotsAreCells(h: Header, g: Geometry, i: nat)
    requires LaidOut(h, g)
    ensures h.layout.fileTableOffset + i * h.layout.entrySize == Off(g, EntryCell(i)) && h.layout.entrySize == ENTRY_SIZE
    ensures h.layout.recipientOffset + i * h.layout.recipientSlotSize == Off(g, RecipientCell(i))
    ensures h.layout.recipientSlotSize == RECIPIENT_SLOT_SIZE
  {
  }

  lemma ReadHeaderCell(c: Suite, file: bytes, st: Store)
    requires Represents(c, file, st)
    ensures |file| >= HEADER_SIZE && ParseHeader(c, Slice(file, 0, HEADER_SIZE)) == Ok(st.header)
  {
    assert Holds(c, file, st, HeaderCell);
    LaidOutIsSane(st.header, Geo(st));
    PrintedHeader(c, st.header);
  }

  lemma ReadEntryCell(c: Suite, file: bytes, st: Store, i: nat)
    requires Represents(c, file, st) && i < |st.entries|
    ensures var off := Off(Geo(st), EntryCell(i));
            off + ENTRY_SIZE <= |file| && ParseEntry(c, Slice(file, off, ENTRY_SIZE)) == Ok(st.entries[i])
  {
    assert Holds(c, file, st, EntryCell(i));
    EntryRoundTrip(c, st.entries[i]);
  }

  lemma ReadRecipientCell(c: Suite, file: bytes, st: Store, i: nat)
    requires Represents(c, file, st) && i < |st.recipients|
    ensures var off := Off(Geo(st), RecipientCell(i));
            && off + RECIPIENT_SLOT_SIZE <= |file|
            && ParseRecipient(c, Slice(file, off, RECIPIENT_SLOT_SIZE)) == Ok(st.recipients[i])
  {
    assert Holds(c, file, st, RecipientCell(i));
    RecipientRoundTrip(c, st.recipients[i]);
  }

  lemma ReadChainCell(c: Suite, file: bytes, st: Store, i: nat)
    requires Represents(c, file, st) && i < |st.chain|
    ensures var off := Off(Geo(st), ChainCell(i));
            && off + CHAIN_RECORD_SIZE <= |file|
            && ParseRecord(Slice(file, off, CHAIN_RECORD_SIZE)) == Ok(st.chain[i])
  {
    assert Holds(c, file, st, ChainCell(i));
    ChainSlotRoundTrip(st.chain[i]);
  }

  lemma ReadBlockCell(c: Suite, file: bytes, st: Store, i: nat)
    requires Represents(c, file, st) && i < |st.blocks|
    ensures var off := Off(Geo(st), BlockCell(i));
            off + BLOCK_SIZE <= |file| && Slice(file, off, BLOCK_SIZE) == st.blocks[i]
  {
    assert Holds(c, file, st, BlockCell(i));
  }

  lemma ReadBitmapCell(c: Suite, file: bytes, st: Store)
    requires Represents(c, file, st)
    ensures HEADER_SIZE + |st.bitmap| <= |file| && Slice(file, HEADER_SIZE, |st.bitmap|) == st.bitmap
  {
    assert Holds(c, file, st, BitmapCell);
  }
}
