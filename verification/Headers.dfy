/** The fixed-size container header (`Header` of `src/core/format.rs`): printer, parser, structural
    checks and their inverse law. */
module Headers {

  import opened Bytes
  import opened Results
  import opened Crypto
  import opened Codec
  import opened Format

  type VaultName = s: text | |s| <= MAX_NAME_LEN
  type Description = s: text | |s| <= MAX_DESC_LEN
  type KeySlot = s: bytes | |s| <= ADMIN_KEY_SLOT_LEN

  datatype Meta = Meta(
    version: u32, flags: u32, blockSize: u32, blockCount: u64, capacityBytes: u64,
    name: VaultName, description: Description, createdAt: i64)

  datatype KeyMaterial = KeyMaterial(
    salt: Arr16, argon: Argon, adminKeySlot: KeySlot, adminSigning: Arr32, adminEncryption: Arr32)

  datatype Layout = Layout(
    bitmapOffset: u64, bitmapLen: u64,
    fileTableOffset: u64, fileTableLen: u64, maxFiles: u32, entrySize: u32,
    recipientOffset: u64, recipientLen: u64, maxRecipients: u32, recipientSlotSize: u32,
    chainOffset: u64, chainLen: u64, maxChainRecords: u32, chainRecordSize: u32,
    chainNextSeq: u64, chainLastHash: Arr32, dataOffset: u64)

  datatype Header = Header(meta: Meta, keys: KeyMaterial, layout: Layout) {
    function TotalContainerSize(): nat {
      layout.dataOffset + meta.blockCount * meta.blockSize
    }
  }

  // ----- fields

  function MetaFields(m: Meta): seq<bytes> {
    [MAGIC, Le(m.version, 4), Le(m.flags, 4), Le(m.blockSize, 4), Le(m.blockCount, 8), Le(m.capacityBytes, 8),
     Le(|m.name|, 2), Fixed(m.name, MAX_NAME_LEN), Le(|m.description|, 2), Fixed(m.description, MAX_DESC_LEN),
     I64Bytes(m.createdAt)]
  }

  function KeyFields(k: KeyMaterial): seq<bytes> {
    [k.salt, Le(k.argon.mCost, 4), Le(k.argon.tCost, 4), Le(k.argon.pCost, 4),
     Le(|k.adminKeySlot|, 2), Fixed(k.adminKeySlot, ADMIN_KEY_SLOT_LEN), k.adminSigning, k.adminEncryption]
  }

  function TableFields(l: Layout): seq<bytes> {
    [Le(l.bitmapOffset, 8), Le(l.bitmapLen, 8), Le(l.fileTableOffset, 8), Le(l.fileTableLen, 8),
     Le(l.maxFiles, 4), Le(l.entrySize, 4), Le(l.recipientOffset, 8), Le(l.recipientLen, 8),
     Le(l.maxRecipients, 4), Le(l.recipientSlotSize, 4)]
  }

  function ChainFields(l: Layout): seq<bytes> {
    [Le(l.chainOffset, 8), Le(l.chainLen, 8), Le(l.maxChainRecords, 4), Le(l.chainRecordSize, 4),
     Le(l.chainNextSeq, 8), l.chainLastHash, Le(l.dataOffset, 8)]
  }

  lemma MetaStarts(m: Meta)
    ensures var fs := MetaFields(m);
            && Start(fs, 1) == 8 && Start(fs, 2) == 12 && Start(fs, 3) == 16 && Start(fs, 4) == 20
            && Start(fs, 5) == 28 && Start(fs, 6) == 36 && Start(fs, 7) == 38 && Start(fs, 8) == 166
            && Start(fs, 9) == 168 && Start(fs, 10) == 424 && |Flat(fs)| == 432
  {
    FlatLength(MetaFields(m));
  }

  lemma KeyStarts(k: KeyMaterial)
    ensures var fs := KeyFields(k);
            && Start(fs, 1) == 16 && Start(fs, 2) == 20 && Start(fs, 3) == 24 && Start(fs, 4) == 28
            && Start(fs, 5) == 30 && Start(fs, 6) == 94 && Start(fs, 7) == 126 && |Flat(fs)| == 158
  {
    FlatLength(KeyFields(k));
  }

  lemma TableStarts(l: Layout)
    ensures var fs := TableFields(l);
            && Start(fs, 1) == 8 && Start(fs, 2) == 16 && Start(fs, 3) == 24 && Start(fs, 4) == 32
            && Start(fs, 5) == 36 && Start(fs, 6) == 40 && Start(fs, 7) == 48 && Start(fs, 8) == 56
            && Start(fs, 9) == 60 && |Flat(fs)| == 64
  {
    FlatLength(TableFields(l));
  }

  lemma ChainStarts(l: Layout)
    ensures var fs := ChainFields(l);
            && Start(fs, 1) == 8 && Start(fs, 2) == 16 && Start(fs, 3) == 20 && Start(fs, 4) == 24
            && Start(fs, 5) == 32 && Start(fs, 6) == 64 && |Flat(fs)| == 72
  {
    FlatLength(ChainFields(l));
  }

  lemma FourParts(a: bytes, b: bytes, d: bytes, e: bytes)
    ensures var r := a + b + d + e;
            && Slice(r, 0, |a|) == a && Slice(r, |a|, |b|) == b && Slice(r, |a| + |b|, |d|) == d
            && Slice(r, |a| + |b| + |d|, |e|) == e
  {
  }

  function HeaderBody(h: Header): (r: bytes)
    ensures |r| == 726
    ensures Slice(r, 0, 432) == Flat(MetaFields(h.meta)) && Slice(r, 432, 158) == Flat(KeyFields(h.keys))
    ensures Slice(r, 590, 64) == Flat(TableFields(h.layout)) && Slice(r, 654, 72) == Flat(ChainFields(h.layout))
  {
    MetaStarts(h.meta); KeyStarts(h.keys); TableStarts(h.layout); ChainStarts(h.layout);
    var m, k, t, n := Flat(MetaFields(h.meta)), Flat(KeyFields(h.keys)), Flat(TableFields(h.layout)), Flat(ChainFields(h.layout));
    FourParts(m, k, t, n);
    m + k + t + n
  }

  function HeaderBytes(c: Suite, h: Header): (r: bytes)
    ensures |r| == HEADER_SIZE
  {
    Sealed(HeaderBody(h), c.hash(HeaderBody(h)), HEADER_SIZE)
  }

  // ----- parsing

  function MetaAt(buf: bytes): (r: Result<Meta>)
    requires |buf| >= HEADER_SIZE
  {
    if Slice(buf, 0, 8) != MAGIC then Err(NotARvltFile)
    else
      var version := U32Of(Slice(buf, 8, 4));
      if version != FORMAT_VERSION then Err(UnsupportedVersion(version))
      else
        var name :- TextAt(buf, 36, MAX_NAME_LEN);
        var description :- TextAt(buf, 166, MAX_DESC_LEN);
        Ok(Meta(version, U32Of(Slice(buf, 12, 4)), U32Of(Slice(buf, 16, 4)), U64Of(Slice(buf, 20, 8)),
                U64Of(Slice(buf, 28, 8)), name, description, I64Of(Slice(buf, 424, 8))))
  }

  function KeysAt(buf: bytes): (r: Result<KeyMaterial>)
    requires |buf| >= HEADER_SIZE
  {
    var slot :- BlobAt(buf, 460, ADMIN_KEY_SLOT_LEN);
    Ok(KeyMaterial(Slice(buf, 432, 16),
                   Argon(U32Of(Slice(buf, 448, 4)), U32Of(Slice(buf, 452, 4)), U32Of(Slice(buf, 456, 4))),
                   slot, Slice(buf, 526, 32), Slice(buf, 558, 32)))
  }

  function LayoutAt(buf: bytes): (l: Layout)
    requires |buf| >= HEADER_SIZE
  {
    Layout(U64Of(Slice(buf, 590, 8)), U64Of(Slice(buf, 598, 8)), U64Of(Slice(buf, 606, 8)),
           U64Of(Slice(buf, 614, 8)), U32Of(Slice(buf, 622, 4)), U32Of(Slice(buf, 626, 4)),
           U64Of(Slice(buf, 630, 8)), U64Of(Slice(buf, 638, 8)), U32Of(Slice(buf, 646, 4)),
           U32Of(Slice(buf, 650, 4)), U64Of(Slice(buf, 654, 8)), U64Of(Slice(buf, 662, 8)),
           U32Of(Slice(buf, 670, 4)), U32Of(Slice(buf, 674, 4)), U64Of(Slice(buf, 678, 8)),
           Slice(buf, 686, 32), U64Of(Slice(buf, 718, 8)))
  }

  /** The structural checks: nonempty data, no overflow of the data region, regions in order; their
      ends are summed in 64 bits. */
  predicate Sane(h: Header) {
    && h.meta.blockSize != 0 && h.meta.blockCount != 0
    && h.meta.blockCount * h.meta.blockSize < U64
    && HEADER_SIZE <= h.layout.bitmapOffset
    && Add64(h.layout.bitmapOffset, h.layout.bitmapLen) <= h.layout.fileTableOffset
    && Add64(h.layout.fileTableOffset, h.layout.fileTableLen) <= h.layout.recipientOffset
    && Add64(h.layout.recipientOffset, h.layout.recipientLen) <= h.layout.chainOffset
    && Add64(h.layout.chainOffset, h.layout.chainLen) <= h.layout.dataOffset
  }

  function ParseHeader(c: Suite, buf: bytes): (r: Result<Header>)
  {
    if |buf| < HEADER_SIZE then Err(CorruptContainer)
    else
      var meta :- MetaAt(buf);
      var keys :- KeysAt(buf);
      var h := Header(meta, keys, LayoutAt(buf));
      if Slice(buf, 726, 32) != c.hash(buf[..726]) then Err(ChecksumMismatch)
      else if !Sane(h) then Err(CorruptContainer)
      else Ok(h)
  }

  // ----- printing and parsing are inverse

  lemma MetaNumbers(buf: bytes, m: Meta)
    requires |buf| >= HEADER_SIZE && Slice(buf, 0, 432) == Flat(MetaFields(m))
    ensures Slice(buf, 0, 8) == MAGIC && U32Of(Slice(buf, 8, 4)) == m.version && U32Of(Slice(buf, 12, 4)) == m.flags
    ensures U32Of(Slice(buf, 16, 4)) == m.blockSize && U64Of(Slice(buf, 20, 8)) == m.blockCount
    ensures U64Of(Slice(buf, 28, 8)) == m.capacityBytes && I64Of(Slice(buf, 424, 8)) == m.createdAt
  {
    MetaStarts(m);
    var fs := MetaFields(m);
    FieldIn(buf, 0, fs, 0); FieldIn(buf, 0, fs, 1); FieldIn(buf, 0, fs, 2); FieldIn(buf, 0, fs, 3);
    FieldIn(buf, 0, fs, 4); FieldIn(buf, 0, fs, 5); FieldIn(buf, 0, fs, 10);
    hide Start, Flat, Le, UnLe, Slice, I64Bytes, I64Of;
    FixedWidthRoundTrips(0, m.version, m.blockCount, 0, m.createdAt);
    FixedWidthRoundTrips(0, m.flags, m.capacityBytes, 0, 0);
    FixedWidthRoundTrips(0, m.blockSize, 0, 0, 0);
  }

  lemma MetaTexts(buf: bytes, m: Meta)
    requires |buf| >= HEADER_SIZE && Slice(buf, 0, 432) == Flat(MetaFields(m))
    ensures TextAt(buf, 36, MAX_NAME_LEN) == Ok(m.name) && TextAt(buf, 166, MAX_DESC_LEN) == Ok(m.description)
  {
    MetaStarts(m);
    var fs := MetaFields(m);
    FieldIn(buf, 0, fs, 6); FieldIn(buf, 0, fs, 7); FieldIn(buf, 0, fs, 8); FieldIn(buf, 0, fs, 9);
    hide Start, Flat, Le, Slice, TextAt, BlobAt, Fixed;
    BlobRoundTrip(buf, 36, MAX_NAME_LEN, m.name);
    BlobRoundTrip(buf, 166, MAX_DESC_LEN, m.description);
  }

  lemma MetaRoundTrip(buf: bytes, m: Meta)
    requires |buf| >= HEADER_SIZE && Slice(buf, 0, 432) == Flat(MetaFields(m))
    ensures MetaAt(buf) == if m.version == FORMAT_VERSION then Ok(m) else Err(UnsupportedVersion(m.version))
  {
    hide Slice, Flat, TextAt, U32Of, U64Of, I64Of;
    MetaNumbers(buf, m);
    MetaTexts(buf, m);
  }

  lemma KeysRoundTrip(buf: bytes, k: KeyMaterial)
    requires |buf| >= HEADER_SIZE && Slice(buf, 432, 158) == Flat(KeyFields(k))
    ensures KeysAt(buf) == Ok(k)
  {
    KeyStarts(k);
    var fs := KeyFields(k);
    FieldIn(buf, 432, fs, 0); FieldIn(buf, 432, fs, 1); FieldIn(buf, 432, fs, 2); FieldIn(buf, 432, fs, 3);
    FieldIn(buf, 432, fs, 4); FieldIn(buf, 432, fs, 5); FieldIn(buf, 432, fs, 6); FieldIn(buf, 432, fs, 7);
    FixedWidthRoundTrips(0, k.argon.mCost, 0, 0, 0);
    FixedWidthRoundTrips(0, k.argon.tCost, 0, 0, 0);
    FixedWidthRoundTrips(0, k.argon.pCost, 0, 0, 0);
    BlobRoundTrip(buf, 460, ADMIN_KEY_SLOT_LEN, k.adminKeySlot);
  }

  lemma TableRoundTrip(buf: bytes, l: Layout)
    requires |buf| >= HEADER_SIZE && Slice(buf, 590, 64) == Flat(TableFields(l))
    ensures var p := LayoutAt(buf);
            && p.bitmapOffset == l.bitmapOffset && p.bitmapLen == l.bitmapLen
            && p.fileTableOffset == l.fileTableOffset && p.fileTableLen == l.fileTableLen
            && p.maxFiles == l.maxFiles && p.entrySize == l.entrySize
            && p.recipientOffset == l.recipientOffset && p.recipientLen == l.recipientLen
            && p.maxRecipients == l.maxRecipients && p.recipientSlotSize == l.recipientSlotSize
  {
    TableStarts(l);
    var fs := TableFields(l);
    FieldIn(buf, 590, fs, 0); FieldIn(buf, 590, fs, 1); FieldIn(buf, 590, fs, 2); FieldIn(buf, 590, fs, 3);
    FieldIn(buf, 590, fs, 4); FieldIn(buf, 590, fs, 5); FieldIn(buf, 590, fs, 6); FieldIn(buf, 590, fs, 7);
    FieldIn(buf, 590, fs, 8); FieldIn(buf, 590, fs, 9);
    FixedWidthRoundTrips(0, l.maxFiles, l.bitmapOffset, 0, 0);
    FixedWidthRoundTrips(0, l.entrySize, l.bitmapLen, 0, 0);
    FixedWidthRoundTrips(0, l.maxRecipients, l.fileTableOffset, 0, 0);
    FixedWidthRoundTrips(0, l.recipientSlotSize, l.fileTableLen, 0, 0);
    FixedWidthRoundTrips(0, 0, l.recipientOffset, 0, 0);
    FixedWidthRoundTrips(0, 0, l.recipientLen, 0, 0);
  }

  lemma ChainRoundTrip(buf: bytes, l: Layout)
    requires |buf| >= HEADER_SIZE && Slice(buf, 654, 72) == Flat(ChainFields(l))
    ensures var p := LayoutAt(buf);
            && p.chainOffset == l.chainOffset && p.chainLen == l.chainLen
            && p.maxChainRecords == l.maxChainRecords && p.chainRecordSize == l.chainRecordSize
            && p.chainNextSeq == l.chainNextSeq && p.chainLastHash == l.chainLastHash && p.dataOffset == l.dataOffset
  {
    ChainStarts(l);
    var fs := ChainFields(l);
    FieldIn(buf, 654, fs, 0); FieldIn(buf, 654, fs, 1); FieldIn(buf, 654, fs, 2); FieldIn(buf, 654, fs, 3);
    FieldIn(buf, 654, fs, 4); FieldIn(buf, 654, fs, 5); FieldIn(buf, 654, fs, 6);
    FixedWidthRoundTrips(0, l.maxChainRecords, l.chainOffset, 0, 0);
    FixedWidthRoundTrips(0, l.chainRecordSize, l.chainLen, 0, 0);
    FixedWidthRoundTrips(0, 0, l.chainNextSeq, 0, 0);
    FixedWidthRoundTrips(0, 0, l.dataOffset, 0, 0);
  }

  lemma SaneInFull(h: Header)
    ensures var l := h.layout;
            Sane(h) <==>
              && 0 < h.meta.blockSize && 0 < h.meta.blockCount && h.meta.blockCount * h.meta.blockSize < U64
              && 1024 <= l.bitmapOffset
              && (l.bitmapOffset + l.bitmapLen) % U64 <= l.fileTableOffset
              && (l.fileTableOffset + l.fileTableLen) % U64 <= l.recipientOffset
              && (l.recipientOffset + l.recipientLen) % U64 <= l.chainOffset
              && (l.chainOffset + l.chainLen) % U64 <= l.dataOffset
  {
  }

  lemma PrintedHeader(c: Suite, h: Header)
    ensures ParseHeader(c, HeaderBytes(c, h))
         == if h.meta.version != FORMAT_VERSION then Err(UnsupportedVersion(h.meta.version))
            else if Sane(h) then Ok(h)
            else Err(CorruptContainer)
  {
    var b, body := HeaderBytes(c, h), HeaderBody(h);
    assert b[..726] == body;
    assert Slice(b, 0, 432) == Slice(body, 0, 432) && Slice(b, 432, 158) == Slice(body, 432, 158);
    assert Slice(b, 590, 64) == Slice(body, 590, 64) && Slice(b, 654, 72) == Slice(body, 654, 72);
    MetaRoundTrip(b, h.meta);
    KeysRoundTrip(b, h.keys);
    TableRoundTrip(b, h.layout);
    ChainRoundTrip(b, h.layout);
  }

  /** The parser accepts a printed header exactly when it carries the supported version and passes the
      structural checks, and then returns it unchanged. */
  lemma HeaderRoundTrip(c: Suite, h: Header)
    ensures ParseHeader(c, HeaderBytes(c, h))
         == if h.meta.version != FORMAT_VERSION then Err(UnsupportedVersion(h.meta.version))
            else
              var l := h.layout;
              if && 0 < h.meta.blockSize && 0 < h.meta.blockCount && h.meta.blockCount * h.meta.blockSize < U64
                 && 1024 <= l.bitmapOffset
                 && (l.bitmapOffset + l.bitmapLen) % U64 <= l.fileTableOffset
                 && (l.fileTableOffset + l.fileTableLen) % U64 <= l.recipientOffset
                 && (l.recipientOffset + l.recipientLen) % U64 <= l.chainOffset
                 && (l.chainOffset + l.chainLen) % U64 <= l.dataOffset
              then Ok(h)
              else Err(CorruptContainer)
  {
    PrintedHeader(c, h);
    SaneInFull(h);
    hide Sane, ParseHeader, HeaderBytes;
  }

  /** What is accepted carries the magic bytes, the version, and the hash of everything before it. */
  lemma HeaderAccepted(c: Suite, buf: bytes)
    requires ParseHeader(c, buf).Ok?
    ensures |buf| >= 1024 && Slice(buf, 0, 8) == [0x52, 0x56, 0x4C, 0x54, 0x30, 0x30, 0x30, 0x31]
    ensures U32Of(Slice(buf, 8, 4)) == 2 && Slice(buf, 726, 32) == c.hash(buf[..726])
  {
    hide KeysAt, LayoutAt, Sane, TextAt, U32Of, U64Of, I64Of;
  }

  // ----- the cursors of the source

  method PutSizes(w: Writer, m: Meta)
    requires w.Valid()
    modifies w
    ensures w.Valid() && w.fields == old(w.fields) + MetaFields(m)[..6]
  {
    hide Le, Fixed, I64Bytes, Flat;
    w.Raw(MAGIC);
    w.PutU32(m.version);
    w.PutU32(m.flags);
    w.PutU32(m.blockSize);
    w.PutU64(m.blockCount);
    w.PutU64(m.capacityBytes);
  }

  method PutNames(w: Writer, m: Meta)
    requires w.Valid()
    modifies w
    ensures w.Valid() && w.fields == old(w.fields) + MetaFields(m)[6..]
  {
    hide Le, Fixed, I64Bytes, Flat;
    w.PutU16(|m.name|);
    w.PutFixed(m.name, MAX_NAME_LEN);
    w.PutU16(|m.description|);
    w.PutFixed(m.description, MAX_DESC_LEN);
    w.PutI64(m.createdAt);
  }

  method PutMeta(w: Writer, m: Meta)
    requires w.Valid()
    modifies w
    ensures w.Valid() && w.fields == old(w.fields) + MetaFields(m)
  {
    PutSizes(w, m);
    PutNames(w, m);
  }

  method PutKdf(w: Writer, k: KeyMaterial)
    requires w.Valid()
    modifies w
    ensures w.Valid() && w.fields == old(w.fields) + KeyFields(k)[..4]
  {
    hide Le, Fixed, I64Bytes, Flat;
    w.PutFixed(k.salt, 16);
    w.PutU32(k.argon.mCost);
    w.PutU32(k.argon.tCost);
    w.PutU32(k.argon.pCost);
  }

  method PutKeySlots(w: Writer, k: KeyMaterial)
    requires w.Valid()
    modifies w
    ensures w.Valid() && w.fields == old(w.fields) + KeyFields(k)[4..]
  {
    hide Le, Fixed, I64Bytes, Flat;
    w.PutU16(|k.adminKeySlot|);
    w.PutFixed(k.adminKeySlot, ADMIN_KEY_SLOT_LEN);
    w.PutFixed(k.adminSigning, 32);
    w.PutFixed(k.adminEncryption, 32);
  }

  method PutKeys(w: Writer, k: KeyMaterial)
    requires w.Valid()
    modifies w
    ensures w.Valid() && w.fields == old(w.fields) + KeyFields(k)
  {
    PutKdf(w, k);
    PutKeySlots(w, k);
  }

  method PutFileTable(w: Writer, l: Layout)
    requires w.Valid()
    modifies w
    ensures w.Valid() && w.fields == old(w.fields) + TableFields(l)[..6]
  {
    hide Le, Fixed, I64Bytes, Flat;
    w.PutU64(l.bitmapOffset);
    w.PutU64(l.bitmapLen);
    w.PutU64(l.fileTableOffset);
    w.PutU64(l.fileTableLen);
    w.PutU32(l.maxFiles);
    w.PutU32(l.entrySize);
    assert w.fields == old(w.fields)
      + [Le(l.bitmapOffset, 8), Le(l.bitmapLen, 8), Le(l.fileTableOffset, 8), Le(l.fileTableLen, 8),
         Le(l.maxFiles, 4), Le(l.entrySize, 4)];
  }

  method PutKeyring(w: Writer, l: Layout)
    requires w.Valid()
    modifies w
    ensures w.Valid() && w.fields == old(w.fields) + TableFields(l)[6..]
  {
    hide Le, Fixed, I64Bytes, Flat;
    w.PutU64(l.recipientOffset);
    w.PutU64(l.recipientLen);
    w.PutU32(l.maxRecipients);
    w.PutU32(l.recipientSlotSize);
  }

  method PutTables(w: Writer, l: Layout)
    requires w.Valid()
    modifies w
    ensures w.Valid() && w.fields == old(w.fields) + TableFields(l)
  {
    PutFileTable(w, l);
    PutKeyring(w, l);
  }

  method PutChain(w: Writer, l: Layout)
    requires w.Valid()
    modifies w
    ensures w.Valid() && w.fields == old(w.fields) + ChainFields(l)
  {
    hide Le, Fixed, I64Bytes, Flat;
    w.PutU64(l.chainOffset);
    w.PutU64(l.chainLen);
    w.PutU32(l.maxChainRecords);
    w.PutU32(l.chainRecordSize);
    w.PutU64(l.chainNextSeq);
    w.PutFixed(l.chainLastHash, 32);
    w.PutU64(l.dataOffset);
    assert w.fields == old(w.fields)
      + [Le(l.chainOffset, 8), Le(l.chainLen, 8), Le(l.maxChainRecords, 4), Le(l.chainRecordSize, 4),
         Le(l.chainNextSeq, 8), l.chainLastHash, Le(l.dataOffset, 8)];
  }

  method EncodeHeader(c: Suite, h: Header) returns (r: bytes)
    ensures r == HeaderBytes(c, h)
  {
    var w := new Writer();
    PutMeta(w, h.meta);
    PutKeys(w, h.keys);
    PutTables(w, h.layout);
    PutChain(w, h.layout);
    assert [] + MetaFields(h.meta) == MetaFields(h.meta);
    FlatConcat(MetaFields(h.meta), KeyFields(h.keys));
    FlatConcat(MetaFields(h.meta) + KeyFields(h.keys), TableFields(h.layout));
    FlatConcat(MetaFields(h.meta) + KeyFields(h.keys) + TableFields(h.layout), ChainFields(h.layout));
    assert w.buf == HeaderBody(h);
    r := Finish(w, c.hash(w.buf), HEADER_SIZE);
  }

  method TakeMeta(rd: Reader) returns (r: Result<Meta>)
    requires rd.Valid() && rd.pos == 0 && rd.limit == HEADER_SIZE
    modifies rd
    ensures rd.Valid() && r == MetaAt(rd.buf) && (r.Ok? ==> rd.pos == 432)
  {
    hide Slice, TextAt, U32Of, U64Of, I64Of;
    var magic := rd.Field(8);
    if magic != MAGIC {
      return Err(NotARvltFile);
    }
    var version := rd.Field(4);
    if U32Of(version) < FORMAT_VERSION || U32Of(version) > FORMAT_VERSION {
      return Err(UnsupportedVersion(U32Of(version)));
    }
    var flags := rd.Field(4);
    var blockSize := rd.Field(4);
    var blockCount := rd.Field(8);
    var capacity := rd.Field(8);
    var name :- rd.Text(MAX_NAME_LEN);
    var description :- rd.Text(MAX_DESC_LEN);
    var created := rd.Field(8);
    r := Ok(Meta(U32Of(version), U32Of(flags), U32Of(blockSize), U64Of(blockCount), U64Of(capacity),
                 name, description, I64Of(created)));
  }

  method TakeKeys(rd: Reader) returns (r: Result<KeyMaterial>)
    requires rd.Valid() && rd.pos == 432 && rd.limit == HEADER_SIZE
    modifies rd
    ensures rd.Valid() && r == KeysAt(rd.buf) && (r.Ok? ==> rd.pos == 590)
  {
    var salt := rd.Field(16);
    var m := rd.Field(4);
    var t := rd.Field(4);
    var p := rd.Field(4);
    var slot :- rd.Blob(ADMIN_KEY_SLOT_LEN);
    var signing := rd.Field(32);
    var encryption := rd.Field(32);
    r := Ok(KeyMaterial(salt, Argon(U32Of(m), U32Of(t), U32Of(p)), slot, signing, encryption));
  }

  method TakeFileTable(rd: Reader) returns (bo: bytes, bl: bytes, fo: bytes, fl: bytes, mf: bytes, es: bytes)
    requires rd.Valid() && rd.pos == 590 && rd.limit == HEADER_SIZE
    modifies rd
    ensures rd.Valid() && rd.pos == 630
    ensures bo == Slice(rd.buf, 590, 8) && bl == Slice(rd.buf, 598, 8) && fo == Slice(rd.buf, 606, 8)
    ensures fl == Slice(rd.buf, 614, 8) && mf == Slice(rd.buf, 622, 4) && es == Slice(rd.buf, 626, 4)
  {
    bo := rd.Field(8);
    bl := rd.Field(8);
    fo := rd.Field(8);
    fl := rd.Field(8);
    mf := rd.Field(4);
    es := rd.Field(4);
  }

  method TakeChain(rd: Reader)
    returns (co: bytes, cl: bytes, mc: bytes, cs: bytes, next: bytes, last: bytes, data: bytes)
    requires rd.Valid() && rd.pos == 654 && rd.limit == HEADER_SIZE
    modifies rd
    ensures rd.Valid() && rd.pos == 726
    ensures co == Slice(rd.buf, 654, 8) && cl == Slice(rd.buf, 662, 8) && mc == Slice(rd.buf, 670, 4)
    ensures cs == Slice(rd.buf, 674, 4) && next == Slice(rd.buf, 678, 8) && last == Slice(rd.buf, 686, 32)
    ensures data == Slice(rd.buf, 718, 8)
  {
    co := rd.Field(8);
    cl := rd.Field(8);
    mc := rd.Field(4);
    cs := rd.Field(4);
    next := rd.Field(8);
    last := rd.Field(32);
    data := rd.Field(8);
  }

  method TakeLayout(rd: Reader) returns (l: Layout)
    requires rd.Valid() && rd.pos == 590 && rd.limit == HEADER_SIZE
    modifies rd
    ensures rd.Valid() && l == LayoutAt(rd.buf) && rd.pos == 726
  {
    var bo, bl, fo, fl, mf, es := TakeFileTable(rd);
    var ro := rd.Field(8);
    var rl := rd.Field(8);
    var mr := rd.Field(4);
    var rs := rd.Field(4);
    var co, cl, mc, cs, next, last, data := TakeChain(rd);
    l := Layout(U64Of(bo), U64Of(bl), U64Of(fo), U64Of(fl), U32Of(mf), U32Of(es), U64Of(ro), U64Of(rl), U32Of(mr),
                U32Of(rs), U64Of(co), U64Of(cl), U32Of(mc), U32Of(cs), U64Of(next), last, U64Of(data));
  }

  method DecodeHeader(c: Suite, buf: bytes) returns (r: Result<Header>)
    ensures r == ParseHeader(c, buf)
  {
    if |buf| < HEADER_SIZE {
      return Err(CorruptContainer);
    }
    var rd := new Reader(buf, HEADER_SIZE);
    var meta :- TakeMeta(rd);
    var keys :- TakeKeys(rd);
    var layout := TakeLayout(rd);
    var checksumPos := rd.pos;
    var stored := rd.Field(32);
    if stored != c.hash(buf[..checksumPos]) {
      return Err(ChecksumMismatch);
    }
    var h := Header(meta, keys, layout);
    if !Sane(h) {
      return Err(CorruptContainer);
    }
    r := Ok(h);
  }
}
