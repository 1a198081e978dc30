/** The `.rvlt` on-disk records (`src/core/format.rs`): the header, file-table entries, recipient
    slots and chain records, each with its printer, its parser and their inverse law. */
module Format {

  import opened Bytes
  import opened Results
  import opened Crypto
  import opened Codec

  const HEADER_SIZE: nat := 1024
  const BLOCK_SIZE: nat := 4096
  const MAX_NAME_LEN: nat := 128
  const MAX_DESC_LEN: nat := 256
  const MAX_FILENAME_LEN: nat := 128
  const DIRECT_BLOCKS: nat := 8
  const ADMIN_KEY_SLOT_LEN: nat := 64
  const MAX_RECIPIENTS: nat := 16
  const ENTRY_SIZE: nat := 320
  const RECIPIENT_SLOT_SIZE: nat := 192
  const CHAIN_RECORD_SIZE: nat := 224
  const FORMAT_VERSION: nat := 2
  const MAGIC: bytes := [0x52, 0x56, 0x4C, 0x54, 0x30, 0x30, 0x30, 0x31]

  // ----- file-table entries

  /** Flag bits: 1 is occupied, 2 is deleted. */
  const FLAG_OCCUPIED: u32 := 1

  const FLAG_DELETED: u32 := 2

  type Direct = s: seq<u64> | |s| == 8 witness [0, 0, 0, 0, 0, 0, 0, 0]
  type FileName = s: text | |s| <= 128

  datatype FileEntry = FileEntry(
    id: u128, name: FileName, size: u64, blocksUsed: u32, direct: Direct, overflow: u64,
    fileHash: Arr32, createdAt: i64, modifiedAt: i64, flags: u32)
  {
    predicate Occupied() {
      flags % 2 == 1 && (flags / 2) % 2 == 0
    }
  }

  const EMPTY_ENTRY := FileEntry(0, [], 0, 0, [0, 0, 0, 0, 0, 0, 0, 0], 0, Zeros(32), 0, 0, 0)

  function EntryFields(e: FileEntry): seq<bytes> {
    [Le(e.id, 16), Le(|e.name|, 2), Fixed(e.name, 128), Le(e.size, 8), Le(e.blocksUsed, 4), LeSeq(e.direct),
     Le(e.overflow, 8), e.fileHash, I64Bytes(e.createdAt), I64Bytes(e.modifiedAt), Le(e.flags, 4)]
  }

  /** The first four bytes of a record's hash. */
  function Crc(c: Suite, body: bytes): (r: bytes)
    ensures |r| == 4
  {
    c.hash(body)[..4]
  }

  /** A record body, its check bytes `sum`, and zeros up to the record size. */
  function Sealed(body: bytes, sum: bytes, size: nat): (r: bytes)
    requires |body| + |sum| <= size
    ensures |r| == size && r[..|body|] == body && Slice(r, |body|, |sum|) == sum
  {
    body + sum + Zeros(size - |body| - |sum|)
  }

  /** Every field of a sealed record is found at its offset. */
  lemma SealedFieldAt(fs: seq<bytes>, sum: bytes, size: nat, k: nat)
    requires |Flat(fs)| + |sum| <= size && k < |fs|
    ensures Start(fs, k) + |fs[k]| <= size
    ensures Slice(Sealed(Flat(fs), sum, size), Start(fs, k), |fs[k]|) == fs[k]
  {
    var tail := sum + Zeros(size - |Flat(fs)| - |sum|);
    assert Sealed(Flat(fs), sum, size) == Flat(fs) + tail;
    FieldAt(fs, tail, k);
  }

  lemma EntryStarts(e: FileEntry)
    ensures var fs := EntryFields(e);
            && Start(fs, 1) == 16 && Start(fs, 2) == 18 && Start(fs, 3) == 146 && Start(fs, 4) == 154
            && Start(fs, 5) == 158 && Start(fs, 6) == 222 && Start(fs, 7) == 230 && Start(fs, 8) == 262
            && Start(fs, 9) == 270 && Start(fs, 10) == 278 && |Flat(fs)| == 282
  {
    FlatLength(EntryFields(e));
  }

  function EntryBytes(c: Suite, e: FileEntry): (r: bytes)
    ensures |r| == ENTRY_SIZE
  {
    EntryStarts(e);
    Sealed(Flat(EntryFields(e)), Crc(c, Flat(EntryFields(e))), ENTRY_SIZE)
  }

  /** An entry from its raw fields. */
  function EntryOf(id: bytes, name: FileName, size: bytes, used: bytes, direct: Direct, overflow: bytes,
                   hash: Arr32, created: bytes, modified: bytes, flags: bytes): FileEntry
    requires |id| == 16 && |size| == |overflow| == |created| == |modified| == 8 && |used| == |flags| == 4
  {
    FileEntry(U128Of(id), name, U64Of(size), U32Of(used), direct, U64Of(overflow), hash,
              I64Of(created), I64Of(modified), U32Of(flags))
  }

  function ParseEntry(c: Suite, buf: bytes): (r: Result<FileEntry>)
  {
    if |buf| < ENTRY_SIZE then Err(CorruptContainer)
    else
      var name :- TextAt(buf, 16, MAX_FILENAME_LEN);
      if Slice(buf, 282, 4) != Crc(c, buf[..282]) then Err(ChecksumMismatch)
      else Ok(EntryOf(Slice(buf, 0, 16), name, Slice(buf, 146, 8), Slice(buf, 154, 4),
                      UnLeSeq(Slice(buf, 158, 64), 8), Slice(buf, 222, 8), Slice(buf, 230, 32),
                      Slice(buf, 262, 8), Slice(buf, 270, 8), Slice(buf, 278, 4)))
  }

  lemma EntryFieldAt(c: Suite, e: FileEntry, k: nat)
    requires k < 11
    ensures var fs := EntryFields(e);
            Start(fs, k) + |fs[k]| <= ENTRY_SIZE && Slice(EntryBytes(c, e), Start(fs, k), |fs[k]|) == fs[k]
  {
    EntryStarts(e);
    SealedFieldAt(EntryFields(e), Crc(c, Flat(EntryFields(e))), ENTRY_SIZE, k);
  }

  lemma EntryRoundTrip(c: Suite, e: FileEntry)
    ensures ParseEntry(c, EntryBytes(c, e)) == Ok(e)
  {
    hide Flat, Sealed, Crc, Le, UnLe;
    EntryStarts(e);
    var b := EntryBytes(c, e);
    EntryFieldAt(c, e, 0); EntryFieldAt(c, e, 1); EntryFieldAt(c, e, 2); EntryFieldAt(c, e, 3);
    EntryFieldAt(c, e, 4); EntryFieldAt(c, e, 5); EntryFieldAt(c, e, 6); EntryFieldAt(c, e, 7);
    EntryFieldAt(c, e, 8); EntryFieldAt(c, e, 9); EntryFieldAt(c, e, 10);
    FixedWidthRoundTrips(0, e.blocksUsed, e.size, e.id, e.createdAt);
    FixedWidthRoundTrips(0, e.flags, e.overflow, 0, e.modifiedAt);
    UnLeSeqOfLeSeq(e.direct);
    BlobRoundTrip(b, 16, 128, e.name);
  }

  /** Where each field of an entry is on disk. */
  lemma EntryLayout(c: Suite, e: FileEntry)
    ensures var b := EntryBytes(c, e);
            && Slice(b, 0, 16) == Le(e.id, 16) && Slice(b, 16, 2) == Le(|e.name|, 2) && Slice(b, 18, 128)[..|e.name|] == e.name
            && Slice(b, 146, 8) == Le(e.size, 8) && Slice(b, 154, 4) == Le(e.blocksUsed, 4)
            && Slice(b, 158, 64) == LeSeq(e.direct) && Slice(b, 222, 8) == Le(e.overflow, 8)
            && Slice(b, 230, 32) == e.fileHash && Slice(b, 262, 8) == I64Bytes(e.createdAt)
            && Slice(b, 270, 8) == I64Bytes(e.modifiedAt) && Slice(b, 278, 4) == Le(e.flags, 4)
            && Slice(b, 282, 4) == c.hash(b[..282])[..4]
  {
    EntryStarts(e);
    EntryFieldAt(c, e, 0); EntryFieldAt(c, e, 1); EntryFieldAt(c, e, 2); EntryFieldAt(c, e, 3);
    EntryFieldAt(c, e, 4); EntryFieldAt(c, e, 5); EntryFieldAt(c, e, 6); EntryFieldAt(c, e, 7);
    EntryFieldAt(c, e, 8); EntryFieldAt(c, e, 9); EntryFieldAt(c, e, 10);
    hide Flat, Sealed, Le, UnLe;
  }

  /** An entry is read exactly when it is long enough, its name fits and is text, and its check bytes are
      those of the fields. */
  lemma EntryAccepted(c: Suite, buf: bytes)
    ensures ParseEntry(c, buf).Ok? <==>
              && |buf| >= 320 && U16Of(Slice(buf, 16, 2)) <= 128 && ValidUtf8(Slice(buf, 18, U16Of(Slice(buf, 16, 2))))
              && Slice(buf, 282, 4) == c.hash(buf[..282])[..4]
  {
    hide U16Of, ValidUtf8, UnLeSeq;
  }

  /** Appends the check bytes, then pads to the record size. */
  method Finish(w: Writer, sum: bytes, size: nat) returns (r: bytes)
    requires w.Valid() && |w.buf| + |sum| <= size
    modifies w
    ensures r == Sealed(old(w.buf), sum, size)
  {
    ghost var fs := w.fields;
    w.PutFixed(sum, |sum|);
    assert w.fields[..|fs|] == fs;
    r := w.PadTo(size);
  }

  method PutPlace(w: Writer, e: FileEntry)
    requires w.Valid()
    modifies w
    ensures w.Valid() && w.fields == old(w.fields) + EntryFields(e)[..6]
  {
    hide Le, Fixed, LeSeq, Flat;
    w.PutU128(e.id);
    w.PutU16(|e.name|);
    w.PutFixed(e.name, MAX_FILENAME_LEN);
    w.PutU64(e.size);
    w.PutU32(e.blocksUsed);
    w.PutU64s(e.direct);
  }

  method PutRest(w: Writer, e: FileEntry)
    requires w.Valid()
    modifies w
    ensures w.Valid() && w.fields == old(w.fields) + EntryFields(e)[6..]
  {
    hide Le, Fixed, I64Bytes, Flat;
    w.PutU64(e.overflow);
    w.PutFixed(e.fileHash, 32);
    w.PutI64(e.createdAt);
    w.PutI64(e.modifiedAt);
    w.PutU32(e.flags);
  }

  /** The entry printer of the source, one field at a time. */
  method EncodeEntry(c: Suite, e: FileEntry) returns (r: bytes)
    ensures r == EntryBytes(c, e)
  {
    hide Flat, Sealed, Crc;
    var w := new Writer();
    PutPlace(w, e);
    PutRest(w, e);
    assert w.fields == EntryFields(e);
    EntryStarts(e);
    r := Finish(w, Crc(c, w.buf), ENTRY_SIZE);
  }

  method TakeTimesAndFlags(rd: Reader) returns (created: bytes, modified: bytes, flags: bytes)
    requires rd.Valid() && rd.pos + 20 <= rd.limit
    modifies rd`pos
    ensures rd.Valid() && rd.pos == old(rd.pos) + 20
    ensures created == Slice(rd.buf, old(rd.pos), 8) && modified == Slice(rd.buf, old(rd.pos) + 8, 8)
    ensures flags == Slice(rd.buf, old(rd.pos) + 16, 4)
  {
    created := rd.Field(8);
    modified := rd.Field(8);
    flags := rd.Field(4);
  }

  /** The entry parser of the source, one field at a time. */
  method DecodeEntry(c: Suite, buf: bytes) returns (r: Result<FileEntry>)
    ensures r == ParseEntry(c, buf)
  {
    hide Slice, TextAt, UnLeSeq, Crc, EntryOf;
    if |buf| < ENTRY_SIZE {
      return Err(CorruptContainer);
    }
    var rd := new Reader(buf, ENTRY_SIZE);
    var id := rd.Field(16);
    var name :- rd.Text(MAX_FILENAME_LEN);
    var size := rd.Field(8);
    var used := rd.Field(4);
    var direct := rd.U64s(DIRECT_BLOCKS);
    var overflow := rd.Field(8);
    var hash := rd.Field(32);
    var created, modified, flags := TakeTimesAndFlags(rd);
    var crcPos := rd.pos;
    var crc := rd.Field(4);
    if crc != Crc(c, buf[..crcPos]) {
      return Err(ChecksumMismatch);
    }
    r := Ok(EntryOf(id, name, size, used, direct, overflow, hash, created, modified, flags));
  }

  // ----- recipient slots

  type WrappedKey = s: bytes | |s| <= WRAPPED_LEN

  datatype RecipientSlot = RecipientSlot(
    signing: Arr32, encryption: Arr32, wrapped: WrappedKey, grantedAt: i64, flags: u32)
  {
    predicate Occupied() {
      flags % 2 == 1
    }
  }

  const EMPTY_RECIPIENT := RecipientSlot(Zeros(32), Zeros(32), [], 0, 0)

  function RecipientFields(s: RecipientSlot): seq<bytes> {
    [s.signing, s.encryption, Le(|s.wrapped|, 2), Fixed(s.wrapped, WRAPPED_LEN), I64Bytes(s.grantedAt), Le(s.flags, 4)]
  }

  lemma RecipientStarts(s: RecipientSlot)
    ensures var fs := RecipientFields(s);
            && Start(fs, 1) == 32 && Start(fs, 2) == 64 && Start(fs, 3) == 66 && Start(fs, 4) == 158
            && Start(fs, 5) == 166 && |Flat(fs)| == 170
  {
    FlatLength(RecipientFields(s));
  }

  function RecipientBytes(c: Suite, s: RecipientSlot): (r: bytes)
    ensures |r| == RECIPIENT_SLOT_SIZE
  {
    RecipientStarts(s);
    Sealed(Flat(RecipientFields(s)), Crc(c, Flat(RecipientFields(s))), RECIPIENT_SLOT_SIZE)
  }

  function ParseRecipient(c: Suite, buf: bytes): (r: Result<RecipientSlot>)
  {
    if |buf| < RECIPIENT_SLOT_SIZE then Err(CorruptContainer)
    else
      var wrapped :- BlobAt(buf, 64, WRAPPED_LEN);
      if Slice(buf, 170, 4) != Crc(c, buf[..170]) then Err(ChecksumMismatch)
      else Ok(RecipientSlot(Slice(buf, 0, 32), Slice(buf, 32, 32), wrapped, I64Of(Slice(buf, 158, 8)),
                            U32Of(Slice(buf, 166, 4))))
  }

  lemma RecipientRoundTrip(c: Suite, s: RecipientSlot)
    ensures ParseRecipient(c, RecipientBytes(c, s)) == Ok(s)
  {
    RecipientStarts(s);
    var fs := RecipientFields(s);
    var sum := Crc(c, Flat(fs));
    SealedFieldAt(fs, sum, RECIPIENT_SLOT_SIZE, 0);
    SealedFieldAt(fs, sum, RECIPIENT_SLOT_SIZE, 1);
    SealedFieldAt(fs, sum, RECIPIENT_SLOT_SIZE, 2);
    SealedFieldAt(fs, sum, RECIPIENT_SLOT_SIZE, 3);
    SealedFieldAt(fs, sum, RECIPIENT_SLOT_SIZE, 4);
    SealedFieldAt(fs, sum, RECIPIENT_SLOT_SIZE, 5);
    FixedWidthRoundTrips(0, s.flags, 0, 0, s.grantedAt);
    BlobRoundTrip(RecipientBytes(c, s), 64, WRAPPED_LEN, s.wrapped);
  }

  /** Where each field of a keyring slot is on disk. */
  lemma RecipientLayout(c: Suite, s: RecipientSlot)
    ensures var b := RecipientBytes(c, s);
            && Slice(b, 0, 32) == s.signing && Slice(b, 32, 32) == s.encryption
            && Slice(b, 64, 2) == Le(|s.wrapped|, 2) && Slice(b, 66, 92)[..|s.wrapped|] == s.wrapped
            && Slice(b, 158, 8) == I64Bytes(s.grantedAt) && Slice(b, 166, 4) == Le(s.flags, 4)
            && Slice(b, 170, 4) == c.hash(b[..170])[..4]
  {
    RecipientStarts(s);
    var fs := RecipientFields(s);
    var sum := Crc(c, Flat(fs));
    SealedFieldAt(fs, sum, RECIPIENT_SLOT_SIZE, 0);
    SealedFieldAt(fs, sum, RECIPIENT_SLOT_SIZE, 1);
    SealedFieldAt(fs, sum, RECIPIENT_SLOT_SIZE, 2);
    SealedFieldAt(fs, sum, RECIPIENT_SLOT_SIZE, 3);
    SealedFieldAt(fs, sum, RECIPIENT_SLOT_SIZE, 4);
    SealedFieldAt(fs, sum, RECIPIENT_SLOT_SIZE, 5);
    hide Flat, Sealed, Le;
  }

  /** So is a keyring slot. */
  lemma RecipientAccepted(c: Suite, buf: bytes)
    ensures ParseRecipient(c, buf).Ok? <==>
              |buf| >= 192 && U16Of(Slice(buf, 64, 2)) <= 92 && Slice(buf, 170, 4) == c.hash(buf[..170])[..4]
  {
    hide U16Of;
  }

  method EncodeRecipient(c: Suite, s: RecipientSlot) returns (r: bytes)
    ensures r == RecipientBytes(c, s)
  {
    hide Le, Fixed, I64Bytes, Flat, Sealed, Crc;
    var w := new Writer();
    w.PutFixed(s.signing, 32);
    w.PutFixed(s.encryption, 32);
    w.PutU16(|s.wrapped|);
    w.PutFixed(s.wrapped, WRAPPED_LEN);
    w.PutI64(s.grantedAt);
    w.PutU32(s.flags);
    assert w.fields == RecipientFields(s);
    RecipientStarts(s);
    r := Finish(w, Crc(c, w.buf), RECIPIENT_SLOT_SIZE);
  }

  method DecodeRecipient(c: Suite, buf: bytes) returns (r: Result<RecipientSlot>)
    ensures r == ParseRecipient(c, buf)
  {
    if |buf| < RECIPIENT_SLOT_SIZE {
      return Err(CorruptContainer);
    }
    var rd := new Reader(buf, RECIPIENT_SLOT_SIZE);
    var signing := rd.Field(32);
    var encryption := rd.Field(32);
    var wrapped :- rd.Blob(WRAPPED_LEN);
    var granted := rd.Field(8);
    var flags := rd.Field(4);
    var crcPos := rd.pos;
    var crc := rd.Field(4);
    if crc != Crc(c, buf[..crcPos]) {
      return Err(ChecksumMismatch);
    }
    r := Ok(RecipientSlot(signing, encryption, wrapped, I64Of(granted), U32Of(flags)));
  }

  // ----- chain records

  datatype ChainOp = VaultCreated | FileAdded | FileUpdated | FileDeleted | AccessGranted | KeyRotated

  function OpByte(op: ChainOp): byte {
    match op
    case VaultCreated => 1
    case FileAdded => 2
    case FileUpdated => 3
    case FileDeleted => 4
    case AccessGranted => 5
    case KeyRotated => 6
  }

  function OpOf(b: byte): Option<ChainOp> {
    match b
    case 1 => Some(VaultCreated)
    case 2 => Some(FileAdded)
    case 3 => Some(FileUpdated)
    case 4 => Some(FileDeleted)
    case 5 => Some(AccessGranted)
    case 6 => Some(KeyRotated)
    case _ => None
  }

  datatype ChainRecord = ChainRecord(
    seqNo: u64, prevHash: Arr32, op: ChainOp, targetId: u128, dataHash: Arr32, timestamp: i64,
    recordHash: Arr32, signature: Arr64)

  /** What a record's hash is taken over. */
  function HashedFields(r: ChainRecord): seq<bytes> {
    [Le(r.seqNo, 8), r.prevHash, [OpByte(r.op)], Le(r.targetId, 16), r.dataHash, I64Bytes(r.timestamp)]
  }

  function HashInput(r: ChainRecord): bytes {
    Flat(HashedFields(r))
  }

  predicate VerifySelf(c: Suite, r: ChainRecord) {
    c.hash(HashInput(r)) == r.recordHash
  }

  function NewSigned(c: Suite, seqNo: u64, prevHash: Arr32, op: ChainOp, targetId: u128, dataHash: Arr32,
                     timestamp: i64, signer: Identity): (r: ChainRecord)
    ensures VerifySelf(c, r) && c.verify(c.signPub(signer.signSecret), r.recordHash, r.signature)
    ensures r.seqNo == seqNo && r.prevHash == prevHash && r.op == op && r.targetId == targetId && r.dataHash == dataHash
    ensures r.timestamp == timestamp && r.recordHash == c.hash(HashInput(r))
    ensures r.signature == c.sign(signer.signSecret, r.recordHash)
  {
    var r := ChainRecord(seqNo, prevHash, op, targetId, dataHash, timestamp, Zeros(32), Zeros(64));
    var h := c.hash(HashInput(r));
    assert HashedFields(r.(recordHash := h, signature := c.sign(signer.signSecret, h))) == HashedFields(r);
    r.(recordHash := h, signature := c.sign(signer.signSecret, h))
  }

  lemma HashedStarts(r: ChainRecord)
    ensures var fs := HashedFields(r);
            && Start(fs, 1) == 8 && Start(fs, 2) == 40 && Start(fs, 3) == 41 && Start(fs, 4) == 57
            && Start(fs, 5) == 89 && |Flat(fs)| == 97
  {
    FlatLength(HashedFields(r));
  }

  lemma HashedFieldAt(r: ChainRecord, k: nat)
    requires k < 6
    ensures var fs := HashedFields(r);
            Start(fs, k) + |fs[k]| <= |HashInput(r)| && Slice(HashInput(r), Start(fs, k), |fs[k]|) == fs[k]
  {
    FieldAt(HashedFields(r), [], k);
    assert HashInput(r) + [] == HashInput(r);
  }

  /** What the hash of a record covers, byte for byte. */
  lemma HashInputLayout(r: ChainRecord)
    ensures var b, code := HashInput(r), match r.op
                                         case VaultCreated => 1
                                         case FileAdded => 2
                                         case FileUpdated => 3
                                         case FileDeleted => 4
                                         case AccessGranted => 5
                                         case KeyRotated => 6;
            && |b| == 97 && Slice(b, 0, 8) == Le(r.seqNo, 8) && Slice(b, 8, 32) == r.prevHash && b[40] as int == code
            && Slice(b, 41, 16) == Le(r.targetId, 16) && Slice(b, 57, 32) == r.dataHash
            && Slice(b, 89, 8) == I64Bytes(r.timestamp)
  {
    HashedStarts(r);
    HashedFieldAt(r, 0); HashedFieldAt(r, 1); HashedFieldAt(r, 2);
    HashedFieldAt(r, 3); HashedFieldAt(r, 4); HashedFieldAt(r, 5);
    hide Flat, Le;
    assert Slice(HashInput(r), 40, 1)[0] == HashInput(r)[40];
  }

  lemma OpByteRoundTrip(op: ChainOp)
    ensures OpOf(OpByte(op)) == Some(op)
  {
  }

  /** The hash input is injective: its fields have fixed widths. */
  lemma HashInputInjective(a: ChainRecord, b: ChainRecord)
    requires HashInput(a) == HashInput(b)
    ensures a.(recordHash := b.recordHash, signature := b.signature) == b
  {
    HashedStarts(a);
    HashedStarts(b);
    HashedFieldAt(a, 0); HashedFieldAt(a, 1); HashedFieldAt(a, 2);
    HashedFieldAt(a, 3); HashedFieldAt(a, 4); HashedFieldAt(a, 5);
    HashedFieldAt(b, 0); HashedFieldAt(b, 1); HashedFieldAt(b, 2);
    HashedFieldAt(b, 3); HashedFieldAt(b, 4); HashedFieldAt(b, 5);
    FixedWidthRoundTrips(0, 0, a.seqNo, a.targetId, a.timestamp);
    FixedWidthRoundTrips(0, 0, b.seqNo, b.targetId, b.timestamp);
    assert OpByte(a.op) == OpByte(b.op);
    OpByteRoundTrip(a.op);
    OpByteRoundTrip(b.op);
  }

  function RecordFields(r: ChainRecord): seq<bytes> {
    [Le(r.seqNo, 8), r.prevHash, [OpByte(r.op)], Le(r.targetId, 16), r.dataHash, I64Bytes(r.timestamp),
     r.recordHash, r.signature, [1]]
  }

  lemma RecordStarts(r: ChainRecord)
    ensures var fs := RecordFields(r);
            && Start(fs, 1) == 8 && Start(fs, 2) == 40 && Start(fs, 3) == 41 && Start(fs, 4) == 57
            && Start(fs, 5) == 89 && Start(fs, 6) == 97 && Start(fs, 7) == 129 && Start(fs, 8) == 193
            && |Flat(fs)| == 194
  {
    FlatLength(RecordFields(r));
  }

  function RecordBytes(r: ChainRecord): (b: bytes)
    ensures |b| == CHAIN_RECORD_SIZE
  {
    RecordStarts(r);
    Sealed(Flat(RecordFields(r)), [], CHAIN_RECORD_SIZE)
  }

  /** A slot of the chain region: all zeros until a record is written there. */
  function ChainSlotBytes(slot: Option<ChainRecord>): (b: bytes)
    ensures |b| == CHAIN_RECORD_SIZE
  {
    match slot
    case None => Zeros(CHAIN_RECORD_SIZE)
    case Some(r) => RecordBytes(r)
  }

  function ParseRecord(buf: bytes): (r: Result<Option<ChainRecord>>)
  {
    if |buf| < CHAIN_RECORD_SIZE then Err(CorruptContainer)
    else if buf[193] == 0 then Ok(None)
    else
      match OpOf(buf[40])
      case None => Err(CorruptContainer)
      case Some(op) =>
        Ok(Some(ChainRecord(U64Of(Slice(buf, 0, 8)), Slice(buf, 8, 32), op, U128Of(Slice(buf, 41, 16)),
                            Slice(buf, 57, 32), I64Of(Slice(buf, 89, 8)), Slice(buf, 97, 32), Slice(buf, 129, 64))))
  }

  /** On disk, a record is what its hash covers, the hash, the signature, and a mark that it is there. */
  lemma RecordLayout(r: ChainRecord)
    ensures var b := RecordBytes(r);
            b[..97] == HashInput(r) && Slice(b, 97, 32) == r.recordHash && Slice(b, 129, 64) == r.signature && b[193] == 1
  {
    RecordStarts(r);
    HashedStarts(r);
    var fs, b := RecordFields(r), RecordBytes(r);
    SealedFieldAt(fs, [], CHAIN_RECORD_SIZE, 6);
    SealedFieldAt(fs, [], CHAIN_RECORD_SIZE, 7);
    SealedFieldAt(fs, [], CHAIN_RECORD_SIZE, 8);
    assert Slice(b, 193, 1)[0] == b[193];
    assert fs == HashedFields(r) + [r.recordHash, r.signature, [1]];
    FlatConcat(HashedFields(r), [r.recordHash, r.signature, [1]]);
    hide Flat, Le;
  }

  /** A record is read exactly when there is one and its operation is known. */
  lemma RecordAccepted(buf: bytes)
    ensures ParseRecord(buf).Ok? <==> |buf| >= 224 && (buf[193] == 0 || 1 <= buf[40] <= 6)
    ensures ParseRecord(buf).Ok? ==> (ParseRecord(buf).value.None? <==> buf[193] == 0)
  {
    hide Slice, U64Of, U128Of, I64Of;
  }

  lemma RecordRoundTrip(r: ChainRecord)
    ensures ParseRecord(RecordBytes(r)) == Ok(Some(r))
  {
    RecordStarts(r);
    var fs, b := RecordFields(r), RecordBytes(r);
    SealedFieldAt(fs, [], CHAIN_RECORD_SIZE, 0);
    SealedFieldAt(fs, [], CHAIN_RECORD_SIZE, 1);
    SealedFieldAt(fs, [], CHAIN_RECORD_SIZE, 2);
    SealedFieldAt(fs, [], CHAIN_RECORD_SIZE, 3);
    SealedFieldAt(fs, [], CHAIN_RECORD_SIZE, 4);
    SealedFieldAt(fs, [], CHAIN_RECORD_SIZE, 5);
    SealedFieldAt(fs, [], CHAIN_RECORD_SIZE, 6);
    SealedFieldAt(fs, [], CHAIN_RECORD_SIZE, 7);
    SealedFieldAt(fs, [], CHAIN_RECORD_SIZE, 8);
    assert Slice(b, 40, 1)[0] == b[40] && Slice(b, 193, 1)[0] == b[193];
    FixedWidthRoundTrips(0, 0, r.seqNo, r.targetId, r.timestamp);
    OpByteRoundTrip(r.op);
  }

  lemma ChainSlotRoundTrip(slot: Option<ChainRecord>)
    ensures ParseRecord(ChainSlotBytes(slot)) == Ok(slot)
  {
    if slot.Some? {
      RecordRoundTrip(slot.value);
    }
  }

  method EncodeRecord(r: ChainRecord) returns (b: bytes)
    ensures b == RecordBytes(r)
  {
    hide Le, Fixed, I64Bytes, Flat;
    var w := new Writer();
    w.PutU64(r.seqNo);
    w.PutFixed(r.prevHash, 32);
    w.PutU8(OpByte(r.op));
    w.PutU128(r.targetId);
    w.PutFixed(r.dataHash, 32);
    w.PutI64(r.timestamp);
    w.PutFixed(r.recordHash, 32);
    w.PutFixed(r.signature, 64);
    w.PutU8(1);
    assert w.fields == RecordFields(r);
    RecordStarts(r);
    b := w.PadTo(CHAIN_RECORD_SIZE);
    assert Flat(RecordFields(r)) + [] == Flat(RecordFields(r));
  }

  method DecodeRecord(buf: bytes) returns (r: Result<Option<ChainRecord>>)
    ensures r == ParseRecord(buf)
  {
    hide U64Of, U128Of, I64Of;
    if |buf| < CHAIN_RECORD_SIZE {
      return Err(CorruptContainer);
    }
    var rd := new Reader(buf, CHAIN_RECORD_SIZE);
    var seqNo := rd.Field(8);
    var prevHash := rd.Field(32);
    var opByte := rd.Field(1);
    var targetId := rd.Field(16);
    var dataHash := rd.Field(32);
    var timestamp := rd.Field(8);
    var recordHash := rd.Field(32);
    var signature := rd.Field(64);
    var occupied := rd.Field(1);
    if occupied[0] == 0 {
      return Ok(None);
    }
    var op := OpOf(opByte[0]);
    if op == None {
      return Err(CorruptContainer);
    }
    r := Ok(Some(ChainRecord(U64Of(seqNo), prevHash, op.value, U128Of(targetId), dataHash, I64Of(timestamp),
                             recordHash, signature)));
  }
}
