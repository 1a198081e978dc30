/** Creating a container and opening it as its admin or as a granted peer. */
module Opening {

  import opened Bytes
  import opened Results
  import opened Crypto
  import opened WriteLog
  import opened Codec
  import opened Format
  import opened Headers
  import opened Allocator
  import opened Container
  import opened Content
  import opened Tables
  import opened Model
  import opened Shelf
  import opened Chain
  import opened Image
  import opened Vaults

  // ----- the layout `create` chooses

  function Clamp(x: nat, lo: nat, hi: nat): nat
    requires lo <= hi
  {
    Max(lo, Min(x, hi))
  }

  function GeometryFor(capacity: nat): Geometry {
    var maxFiles := Clamp(capacity / (16 * 1024), 4, 4096);
    Geometry(capacity / BLOCK_SIZE, maxFiles, Clamp(maxFiles * 4, 8, 16384))
  }

  /** In numbers: one block per 4096 bytes, a slot in the file table per 16 KiB but no fewer than 4 and no
      more than 4096, and four chain slots to each. */
  lemma GeometryInNumbers(capacity: nat)
    ensures var g := GeometryFor(capacity);
            && g.blockCount == capacity / 4096
            && g.maxFiles == (if capacity < 65_536 then 4 else if capacity >= 67_108_864 then 4096 else capacity / 16_384)
            && g.chainSlots == 4 * g.maxFiles
  {
  }

  function LayoutFor(g: Geometry, genesis: ChainRecord): Layout
    requires g.Total() < U64 && g.maxFiles < U32 && g.chainSlots < U32
  {
    Layout(HEADER_SIZE, BitmapLen(g.blockCount), g.TableAt(), ENTRY_SIZE * g.maxFiles, g.maxFiles, ENTRY_SIZE,
           g.KeyringAt(), RECIPIENT_SLOT_SIZE * MAX_RECIPIENTS, MAX_RECIPIENTS, RECIPIENT_SLOT_SIZE,
           g.ChainAt(), CHAIN_RECORD_SIZE * g.chainSlots, g.chainSlots, CHAIN_RECORD_SIZE,
           1, genesis.recordHash, g.DataAt())
  }

  /** The records of a new container. */
  function FreshStore(g: Geometry, h: Header, genesis: ChainRecord): Store
    requires g.chainSlots > 0
  {
    Store(h, Zeros(BitmapLen(g.blockCount)), seq(g.maxFiles, _ => EMPTY_ENTRY), seq(MAX_RECIPIENTS, _ => EMPTY_RECIPIENT),
          [Some(genesis)] + seq(g.chainSlots - 1, _ => None), seq(g.blockCount, _ => Zeros(BLOCK_SIZE)))
  }

  function FreshImage(g: Geometry, h: Header, genesis: ChainRecord, dek: Key, password: bytes): Image
    requires g.chainSlots > 0
  {
    Image(FreshStore(g, h, genesis), dek, seq(g.maxFiles, _ => NO_FILE), seq(g.blockCount, _ => Free), [genesis], password)
  }

  // ----- sequential writing

  /** Everything before `pos` is in place, everything from `pos` on is still zero. */
  ghost predicate WrittenTo(c: Suite, file: bytes, st: Store, pos: nat)
    requires Shaped(st)
  {
    && |file| == Geo(st).Total()
    && (forall x | Has(Geo(st), x) && Off(Geo(st), x) < pos :: Holds(c, file, st, x))
    && forall k | pos <= k < |file| :: file[k] == 0
  }

  lemma EarlierCell(g: Geometry, x: Cell, y: Cell)
    requires Has(g, x) && Has(g, y) && x != y && Off(g, y) < Off(g, x) + Len(g, x) && g.blockCount > 0
    ensures Off(g, y) < Off(g, x)
  {
    CellsDisjoint(g, x, y);
  }

  lemma CellIsWritten(c: Suite, file: bytes, st: Store, x: Cell)
    requires Shaped(st) && |file| == Geo(st).Total() && Has(Geo(st), x)
    ensures |CellBytes(c, st, x)| == Len(Geo(st), x)
    ensures var file' := Splice(file, Off(Geo(st), x), CellBytes(c, st, x));
            && |file'| == |file| && Holds(c, file', st, x)
            && forall k | Off(Geo(st), x) + Len(Geo(st), x) <= k < |file| :: file'[k] == file[k]
  {
    CellLength(c, st, x);
    CellsDisjoint(Geo(st), x, x);
    hide CellBytes, Has, Off, Len, Shaped, Geometry.Total, Splice;
    SpliceInside(file, Off(Geo(st), x), CellBytes(c, st, x));
  }

  /** Writing the next cell at the cursor moves the cursor past it. */
  lemma EmitCell(c: Suite, file: bytes, st: Store, pos: nat, x: Cell)
    requires Shaped(st) && WrittenTo(c, file, st, pos) && Has(Geo(st), x) && Off(Geo(st), x) == pos
    ensures |CellBytes(c, st, x)| == Len(Geo(st), x)
    ensures WrittenTo(c, Splice(file, pos, CellBytes(c, st, x)), st, pos + Len(Geo(st), x))
  {
    var g, data := Geo(st), CellBytes(c, st, x);
    var file' := Splice(file, pos, data);
    CellIsWritten(c, file, st, x);
    hide Holds, Splice, CellBytes, Has, Off, Len, Geometry.Total;
    forall y | Has(g, y) && Off(g, y) < pos + Len(g, x)
      ensures Holds(c, file', st, y)
    {
      if y != x {
        EarlierCell(g, x, y);
        OtherCell(c, file, st, g, x, data, y);
      }
    }
  }

  lemma CellBeforeData(g: Geometry, x: Cell)
    requires Has(g, x) && !x.BlockCell?
    ensures Off(g, x) < g.DataAt()
  {
  }

  /** Once the cursor reaches the data region, the zeros there are the empty blocks. */
  lemma FreshBlocksHold(c: Suite, file: bytes, g: Geometry, h: Header, genesis: ChainRecord)
    requires g.chainSlots > 0 && Shaped(FreshStore(g, h, genesis)) && Geo(FreshStore(g, h, genesis)) == g
    requires WrittenTo(c, file, FreshStore(g, h, genesis), g.DataAt())
    ensures Represents(c, file, FreshStore(g, h, genesis))
  {
    var st := FreshStore(g, h, genesis);
    forall x | Has(g, x)
      ensures Holds(c, file, st, x)
    {
      CellsDisjoint(g, x, x);
      if x.BlockCell? {
        assert Slice(file, Off(g, x), BLOCK_SIZE) == Zeros(BLOCK_SIZE);
      } else {
        CellBeforeData(g, x);
      }
    }
  }

  method WriteFreshTable(c: Suite, g: Geometry, h: Header, genesis: ChainRecord, f: bytes, p: nat)
    returns (file: bytes, pos: nat)
    requires g.chainSlots > 0 && Shaped(FreshStore(g, h, genesis)) && Geo(FreshStore(g, h, genesis)) == g
    requires p == g.TableAt() && WrittenTo(c, f, FreshStore(g, h, genesis), p)
    ensures pos == g.KeyringAt() && WrittenTo(c, file, FreshStore(g, h, genesis), pos)
  {
    hide WrittenTo, Shaped;
    file, pos := f, p;
    var empty := EncodeEntry(c, EMPTY_ENTRY);
    for i := 0 to g.maxFiles
      invariant pos == g.TableAt() + ENTRY_SIZE * i && WrittenTo(c, file, FreshStore(g, h, genesis), pos)
    {
      EmitCell(c, file, FreshStore(g, h, genesis), pos, EntryCell(i));
      file, pos := Splice(file, pos, empty), pos + |empty|;
    }
  }

  method WriteFreshKeyring(c: Suite, g: Geometry, h: Header, genesis: ChainRecord, f: bytes, p: nat)
    returns (file: bytes, pos: nat)
    requires g.chainSlots > 0 && Shaped(FreshStore(g, h, genesis)) && Geo(FreshStore(g, h, genesis)) == g
    requires p == g.KeyringAt() && WrittenTo(c, f, FreshStore(g, h, genesis), p)
    ensures pos == g.ChainAt() && WrittenTo(c, file, FreshStore(g, h, genesis), pos)
  {
    hide WrittenTo, Shaped;
    file, pos := f, p;
    var empty := EncodeRecipient(c, EMPTY_RECIPIENT);
    for i := 0 to MAX_RECIPIENTS
      invariant pos == g.KeyringAt() + RECIPIENT_SLOT_SIZE * i && WrittenTo(c, file, FreshStore(g, h, genesis), pos)
    {
      EmitCell(c, file, FreshStore(g, h, genesis), pos, RecipientCell(i));
      file, pos := Splice(file, pos, empty), pos + |empty|;
    }
  }

  method WriteFreshChain(c: Suite, g: Geometry, h: Header, genesis: ChainRecord, f: bytes, p: nat)
    returns (file: bytes, pos: nat)
    requires g.chainSlots > 0 && Shaped(FreshStore(g, h, genesis)) && Geo(FreshStore(g, h, genesis)) == g
    requires p == g.ChainAt() && WrittenTo(c, f, FreshStore(g, h, genesis), p)
    ensures pos == g.DataAt() && WrittenTo(c, file, FreshStore(g, h, genesis), pos)
  {
    hide WrittenTo, Shaped;
    var encoded := EncodeRecord(genesis);
    EmitCell(c, f, FreshStore(g, h, genesis), p, ChainCell(0));
    file, pos := Splice(f, p, encoded), p + |encoded|;
    for i := 1 to g.chainSlots
      invariant pos == g.ChainAt() + CHAIN_RECORD_SIZE * i && WrittenTo(c, file, FreshStore(g, h, genesis), pos)
    {
      EmitCell(c, file, FreshStore(g, h, genesis), pos, ChainCell(i));
      file, pos := Splice(file, pos, Zeros(CHAIN_RECORD_SIZE)), pos + CHAIN_RECORD_SIZE;
    }
  }

  /** The container of a new vault, written front to back. */
  method WriteFresh(c: Suite, g: Geometry, h: Header, genesis: ChainRecord) returns (file: bytes)
    requires g.chainSlots > 0 && Shaped(FreshStore(g, h, genesis)) && Geo(FreshStore(g, h, genesis)) == g
    ensures Represents(c, file, FreshStore(g, h, genesis))
  {
    ghost var st := FreshStore(g, h, genesis);
    file := Zeros(g.Total());
    var pos := 0;
    var encoded := EncodeHeader(c, h);
    assert WrittenTo(c, file, st, 0);
    EmitCell(c, file, st, pos, HeaderCell);
    hide WrittenTo, Represents, Shaped;
    file, pos := Splice(file, pos, encoded), pos + |encoded|;
    EmitCell(c, file, st, pos, BitmapCell);
    file, pos := Splice(file, pos, Zeros(BitmapLen(g.blockCount))), pos + BitmapLen(g.blockCount);
    file, pos := WriteFreshTable(c, g, h, genesis, file, pos);
    file, pos := WriteFreshKeyring(c, g, h, genesis, file, pos);
    file, pos := WriteFreshChain(c, g, h, genesis, file, pos);
    FreshBlocksHold(c, file, g, h, genesis);
  }

  // ----- a new vault is healthy and empty

  lemma {:induction false} EmptyTable<K, V>(t: Table<K, V>)
    requires forall i | 0 <= i < |t| :: t[i] == None
    ensures AsMap(t) == map[]
  {
    if t != [] {
      EmptyTable(t[..|t| - 1]);
    }
  }

  lemma FreshShelfOk(c: Suite, g: Geometry, h: Header, genesis: ChainRecord, dek: Key, password: bytes)
    requires g.chainSlots > 0 && g.Total() < U64
    ensures var img := FreshImage(g, h, genesis, dek, password);
            ShelfOk(c, dek, ShelfOf(img)) && FilesOf(ShelfOf(img)) == map[]
  {
    var img := FreshImage(g, h, genesis, dek, password);
    var sh := ShelfOf(img);
    assert !EMPTY_ENTRY.Occupied();
    forall b | 0 <= b < |sh.owner|
      ensures OwnerOk(sh, b)
    {
      ZeroByteIsFree(b % 8);
    }
    EmptyTable(Rows(sh.entries, sh.recs));
  }

  lemma FreshIsHealthy(c: Suite, g: Geometry, h: Header, genesis: ChainRecord, dek: Key, password: bytes)
    requires g.chainSlots > 0 && Shaped(FreshStore(g, h, genesis)) && Geo(FreshStore(g, h, genesis)) == g
    requires AdminSlotOk(c, h.keys, password, dek)
    requires h.layout.chainNextSeq == 1 && h.layout.chainLastHash == genesis.recordHash
    requires genesis.seqNo == 0 && genesis.prevHash == Zeros(32) && VerifySelf(c, genesis)
    requires c.verify(h.keys.adminSigning, genesis.recordHash, genesis.signature)
    ensures Healthy(c, FreshImage(g, h, genesis, dek, password))
    ensures forall admin :: ModelOf(FreshImage(g, h, genesis, dek, password), admin)
                         == Model(map[], map[], g.blockCount, g.maxFiles, admin, 1, password)
  {
    var img := FreshImage(g, h, genesis, dek, password);
    FreshShelfOk(c, g, h, genesis, dek, password);
    EmptyTable(KeyringRows(img.st.recipients));
    hide ShelfOk, FilesOf, AdminSlotOk, VerifySelf;
    assert GenuineAt(c, h.keys.adminSigning, [genesis], 0);
    assert Window(img.st.chain, [genesis]);
  }

  function Genesis(c: Suite, name: text, description: text, capacity: u64, who: Identity, ts: i64): ChainRecord {
    NewSigned(c, 0, Zeros(32), VaultCreated, 0, c.hash(name + description + Le(capacity, 8) + c.signPub(who.signSecret)), ts, who)
  }

  /** The first record of a chain, field by field. */
  predicate IsGenesis(c: Suite, r: ChainRecord, name: text, description: text, capacity: u64, who: Identity, ts: i64) {
    && r.seqNo == 0 && r.prevHash == Zeros(32) && r.op == VaultCreated && r.targetId == 0 && r.timestamp == ts
    && r.dataHash == c.hash(name + description + Le(capacity, 8) + c.signPub(who.signSecret))
    && r.recordHash == c.hash(HashInput(r)) && r.signature == c.sign(who.signSecret, r.recordHash)
  }

  lemma GenesisInFull(c: Suite, name: text, description: text, capacity: u64, who: Identity, ts: i64)
    ensures IsGenesis(c, Genesis(c, name, description, capacity, who, ts), name, description, capacity, who, ts)
  {
    hide HashInput;
  }

  /** The file is the container of a new vault: its records, and so its bytes, are determined by the
      header. */
  ghost predicate NewContainer(c: Suite, file: bytes, name: text, description: text, capacity: u64, who: Identity, ts: i64,
                               h: Header)
  {
    && Represents(c, file, FreshStore(GeometryFor(capacity), h, Genesis(c, name, description, capacity, who, ts)))
    && h.meta.name == name && h.meta.description == description && h.meta.capacityBytes == capacity && h.meta.createdAt == ts
    && h.keys.adminSigning == c.signPub(who.signSecret) && h.keys.adminEncryption == c.encPub(who.encSecret)
  }

  /** Writes the container and sets up its first handle. */
  method Assemble(c: Suite, g: Geometry, h: Header, genesis: ChainRecord, dek: Key, who: Identity, ghost password: bytes)
    returns (v: Vault)
    requires g.chainSlots > 0 && Shaped(FreshStore(g, h, genesis)) && Geo(FreshStore(g, h, genesis)) == g
    requires AdminSlotOk(c, h.keys, password, dek) && h.keys.adminSigning == c.signPub(who.signSecret)
    requires h.layout.chainNextSeq == 1 && h.layout.chainLastHash == genesis.recordHash
    requires genesis.seqNo == 0 && genesis.prevHash == Zeros(32) && VerifySelf(c, genesis)
    requires c.verify(h.keys.adminSigning, genesis.recordHash, genesis.signature)
    ensures fresh(v) && fresh(v.allocator) && v.c == c && v.key == dek && v.header == h && v.changeLog == []
    ensures v.Valid() && v.View() == Model(map[], map[], g.blockCount, g.maxFiles, true, 1, password)
    ensures v.img == FreshImage(g, h, genesis, dek, password) && Represents(c, v.file, FreshStore(g, h, genesis))
  {
    hide Healthy, Represents, ModelOf, AdminSlotOk, VerifySelf;
    FreshIsHealthy(c, g, h, genesis, dek, password);
    var file := WriteFresh(c, g, h, genesis);
    var allocator := new BlockAllocator(g.blockCount);
    v := new Vault(c, file, h, allocator, dek, Some(who), FreshImage(g, h, genesis, dek, password));
    ApplyNothing(file);
  }

  method Create(c: Suite, name: text, description: text, capacity: u64, password: bytes, who: Identity,
                salt: Arr16, dek: Key, seed: bytes, ts: i64) returns (r: Result<Vault>)
    requires GeometryFor(capacity).Total() < U64
    ensures r.Err? <==> |name| > MAX_NAME_LEN || |description| > MAX_DESC_LEN || capacity < BLOCK_SIZE
    ensures r.Err? ==> r.error == if |name| > MAX_NAME_LEN || |description| > MAX_DESC_LEN then FieldTooLong else CapacityTooSmall
    ensures r.Ok? ==>
              && fresh(r.value) && fresh(r.value.allocator) && r.value.c == c && r.value.Valid() && r.value.changeLog == []
              && r.value.View() == Model(map[], map[], capacity / BLOCK_SIZE, GeometryFor(capacity).maxFiles, true, 1, password)
              && r.value.key == dek
              && NewContainer(c, r.value.file, name, description, capacity, who, ts, r.value.header)
              && r.value.img == FreshImage(GeometryFor(capacity), r.value.header,
                                           Genesis(c, name, description, capacity, who, ts), dek, password)
    ensures r.Ok? ==> IsGenesis(c, Genesis(c, name, description, capacity, who, ts), name, description, capacity, who, ts)
  {
    if |name| > MAX_NAME_LEN {
      return Err(FieldTooLong);
    }
    if |description| > MAX_DESC_LEN {
      return Err(FieldTooLong);
    }
    var g := GeometryFor(capacity);
    if g.blockCount == 0 {
      return Err(CapacityTooSmall);
    }
    var argon := Argon(19 * 1024, 2, 1);
    var adminKeySlot := c.seal(c.derive(password, salt, argon), dek, seed);
    SealOpens(c, c.derive(password, salt, argon), dek, seed);
    if |adminKeySlot| > ADMIN_KEY_SLOT_LEN {
      return Err(CorruptContainer);
    }
    hide Represents, FreshImage, Vault.Valid, Vault.View, HashInput;
    var peer := c.Peer(who);
    var genesis := NewSigned(c, 0, Zeros(32), VaultCreated, 0, c.hash(name + description + Le(capacity, 8) + peer.signing), ts, who);
    assert genesis == Genesis(c, name, description, capacity, who, ts);
    var h := Header(Meta(FORMAT_VERSION, 0, BLOCK_SIZE, g.blockCount, capacity, name, description, ts),
                    KeyMaterial(salt, argon, adminKeySlot, peer.signing, peer.encryption), LayoutFor(g, genesis));
    GenesisInFull(c, name, description, capacity, who, ts);
    hide NewSigned, Genesis, IsGenesis;
    var v := Assemble(c, g, h, genesis, dek, who, password);
    r := Ok(v);
  }

  // ----- opening with the password

  /** Reads and checks the header. */
  method LoadHeader(c: Suite, file: bytes) returns (r: Result<Header>)
    ensures r == HeaderIn(c, file)
  {
    hide ParseHeader;
    if |file| < HEADER_SIZE {
      return Err(IoError);
    }
    r := DecodeHeader(c, Slice(file, 0, HEADER_SIZE));
  }

  /** Reads the bitmap the header points at and sets up the handle. */
  method LoadHandle(c: Suite, file: bytes, h: Header, key: Key, admin: Option<Identity>, ghost g: Image) returns (r: Result<Vault>)
    ensures r.Ok? <==> h.layout.bitmapOffset + h.layout.bitmapLen <= |file|
    ensures r.Err? ==> r.error == IoError
    ensures r.Ok? ==>
              && fresh(r.value) && fresh(r.value.allocator) && r.value.c == c && r.value.file == file
              && r.value.header == h && r.value.key == key && r.value.admin == admin && r.value.changeLog == []
    ensures Represents(c, file, g.st) && Healthy(c, g) && h == g.st.header && key == g.key
            && (admin.Some? ==> c.signPub(admin.value.signSecret) == h.keys.adminSigning) ==>
              r.Ok? && r.value.Valid() && r.value.View() == ModelOf(g, admin.Some?) && r.value.img == g
  {
    if Represents(c, file, g.st) && Healthy(c, g) {
      ReloadedParts(c, file, g);
    }
    ApplyNothing(file);
    hide Represents, Healthy, ModelOf, Apply, LaidOut;
    if h.layout.bitmapOffset + h.layout.bitmapLen > |file| {
      return Err(IoError);
    }
    var stored := Slice(file, h.layout.bitmapOffset, h.layout.bitmapLen);
    var allocator := new BlockAllocator.FromBytes(stored, h.meta.blockCount);
    var v := new Vault(c, file, h, allocator, key, admin, g);
    r := Ok(v);
  }

  /** The key a password yields, whatever the file holds. */
  function AdminKeyIn(c: Suite, file: bytes, password: bytes): Result<Key> {
    var h :- HeaderIn(c, file);
    if |h.keys.adminKeySlot| < NONCE_AND_TAG then Err(CorruptContainer)
    else
      match c.unseal(c.derive(password, h.keys.salt, h.keys.argon), h.keys.adminKeySlot)
      case None => Err(IncorrectPassword)
      case Some(k) => if |k| != 32 then Err(CorruptContainer) else Ok(k)
  }

  /** The exact outcome: the header has to be readable, and the password has to unseal a key of 32 bytes. */
  lemma AdminKeyExactly(c: Suite, file: bytes, password: bytes)
    ensures match HeaderIn(c, file)
            case Err(e) => AdminKeyIn(c, file, password) == Err(e)
            case Ok(h) =>
              var plain := c.unseal(c.derive(password, h.keys.salt, h.keys.argon), h.keys.adminKeySlot);
              && (AdminKeyIn(c, file, password) == Err(IncorrectPassword) <==> |h.keys.adminKeySlot| >= 28 && plain.None?)
              && (forall k: Key :: AdminKeyIn(c, file, password) == Ok(k) <==> |h.keys.adminKeySlot| >= 28 && plain == Some(k))
              && (AdminKeyIn(c, file, password).Err? ==> AdminKeyIn(c, file, password).error in {IncorrectPassword, CorruptContainer})
  {
    hide HeaderIn;
  }

  lemma AdminKeyInHealthy(c: Suite, file: bytes, password: bytes, g: Image)
    requires Represents(c, file, g.st) && Healthy(c, g)
    ensures AdminKeyIn(c, file, password) == Ok(g.key) <==> AdminSlotOk(c, g.st.header.keys, password, g.key)
  {
    hide Represents, Healthy, HeaderIn, ParseHeader, LaidOut, Reloads, Slice;
    ReloadedParts(c, file, g);
  }

  /** The admin's own password yields the content key. */
  lemma OwnPasswordYieldsKey(c: Suite, file: bytes, g: Image)
    requires Represents(c, file, g.st) && Healthy(c, g)
    ensures AdminKeyIn(c, file, g.password) == Ok(g.key)
  {
    hide Represents, ShelfOk, KeyringOk, ChainOk, AdminSlotOk, AdminKeyIn;
    AdminKeyInHealthy(c, file, g.password, g);
  }

  /** `Vault::open`, for every file and every password. On the container of a healthy vault the admin's
      own password always opens it, with exactly the files and grants it holds. */
  method Open(c: Suite, file: bytes, password: bytes, who: Identity, ghost g: Image) returns (r: Result<Vault>)
    ensures r.Ok? <==> AdminKeyIn(c, file, password).Ok? && Reloads(c, file).Ok?
    ensures r.Err? ==> r.error == if AdminKeyIn(c, file, password).Err? then AdminKeyIn(c, file, password).error else IoError
    ensures r.Ok? ==>
              && fresh(r.value) && fresh(r.value.allocator) && r.value.c == c && r.value.file == file && r.value.changeLog == []
              && AdminKeyIn(c, file, password) == Ok(r.value.key) && HeaderIn(c, file) == Ok(r.value.header)
              && (r.value.admin.Some? <==> c.signPub(who.signSecret) == r.value.header.keys.adminSigning)
    ensures Represents(c, file, g.st) && Healthy(c, g) ==>
              && (AdminKeyIn(c, file, password) == Ok(g.key) <==> AdminSlotOk(c, g.st.header.keys, password, g.key))
              && (AdminSlotOk(c, g.st.header.keys, password, g.key) ==>
                    && r.Ok? && r.value.Valid() && r.value.img == g
                    && r.value.View() == ModelOf(g, c.signPub(who.signSecret) == g.st.header.keys.adminSigning))
  {
    if Represents(c, file, g.st) && Healthy(c, g) {
      ReloadedParts(c, file, g);
      AdminKeyInHealthy(c, file, password, g);
    }
    hide Represents, Healthy, ModelOf, LaidOut, HeaderIn, AdminSlotOk, ParseHeader, Vault.Valid, Vault.View;
    var h :- LoadHeader(c, file);
    var kek := c.derive(password, h.keys.salt, h.keys.argon);
    if |h.keys.adminKeySlot| < NONCE_AND_TAG {
      return Err(CorruptContainer);
    }
    var plain := c.unseal(kek, h.keys.adminKeySlot);
    if plain.None? {
      return Err(IncorrectPassword);
    }
    if |plain.value| != 32 {
      return Err(CorruptContainer);
    }
    var admin := if c.Peer(who).signing == h.keys.adminSigning then Some(who) else None;
    r := LoadHandle(c, file, h, plain.value, admin, g);
  }

  // ----- opening as a granted peer

  predicate Mine(slot: RecipientSlot, pub: Arr32) {
    slot.Occupied() && slot.encryption == pub
  }

  lemma KeyringSize(c: Suite, file: bytes, g: Image)
    requires Represents(c, file, g.st) && Healthy(c, g)
    ensures g.st.header.layout.maxRecipients == |g.st.recipients| == MAX_RECIPIENTS
  {
    ReloadedParts(c, file, g);
    hide Represents, ParseHeader;
  }

  /** Where the header says the `i`-th keyring slot is. */
  function KeyringSlotAt(h: Header, i: nat): u64 {
    Add64(h.layout.recipientOffset, i * h.layout.recipientSlotSize)
  }

  lemma KeyringOffset(h: Header, g: Geometry, i: nat)
    requires LaidOut(h, g) && i < MAX_RECIPIENTS
    ensures KeyringSlotAt(h, i) == Off(g, RecipientCell(i))
    ensures h.layout.recipientSlotSize == RECIPIENT_SLOT_SIZE
  {
  }

  lemma RecipientAt(c: Suite, file: bytes, g: Image, i: nat)
    requires Represents(c, file, g.st) && Healthy(c, g) && i < |g.st.recipients|
    ensures var l := g.st.header.layout;
            var offset := KeyringSlotAt(g.st.header, i);
            && offset + l.recipientSlotSize <= |file|
            && ParseRecipient(c, Slice(file, offset, l.recipientSlotSize)) == Ok(g.st.recipients[i])
  {
    hide Represents, Healthy, ParseHeader, ParseRecipient, Slice, LaidOut, Off, KeyringSlotAt;
    ReloadedParts(c, file, g);
    KeyringSize(c, file, g);
    ReadRecipientCell(c, file, g.st, i);
    KeyringOffset(g.st.header, Geo(g.st), i);
  }

  /** Slot by slot from `i` on, the first one made out to this encryption key, whatever the file holds. */
  function MySlotFrom(c: Suite, file: bytes, h: Header, pub: Arr32, i: nat): Result<Option<RecipientSlot>>
    requires i <= h.layout.maxRecipients
    decreases h.layout.maxRecipients - i
  {
    var offset := KeyringSlotAt(h, i);
    if i == h.layout.maxRecipients then Ok(None)
    else if offset + h.layout.recipientSlotSize > |file| then Err(IoError)
    else
      var slot :- ParseRecipient(c, Slice(file, offset, h.layout.recipientSlotSize));
      if Mine(slot, pub) then Ok(Some(slot)) else MySlotFrom(c, file, h, pub, i + 1)
  }

  method FindMySlot(c: Suite, file: bytes, h: Header, pub: Arr32) returns (r: Result<Option<RecipientSlot>>)
    ensures r == MySlotFrom(c, file, h, pub, 0)
  {
    hide ParseRecipient, Slice, Mine, KeyringSlotAt;
    for i := 0 to h.layout.maxRecipients
      invariant MySlotFrom(c, file, h, pub, 0) == MySlotFrom(c, file, h, pub, i)
    {
      var offset := KeyringSlotAt(h, i);
      if offset + h.layout.recipientSlotSize > |file| {
        return Err(IoError);
      }
      var slot :- DecodeRecipient(c, Slice(file, offset, h.layout.recipientSlotSize));
      if Mine(slot, pub) {
        return Ok(Some(slot));
      }
    }
    r := Ok(None);
  }

  /** In a healthy container every slot can be read, and the search finds one if there is one. */
  lemma {:induction false} MySlotInHealthy(c: Suite, file: bytes, g: Image, pub: Arr32, i: nat)
    requires Represents(c, file, g.st) && Healthy(c, g) && i <= g.st.header.layout.maxRecipients == |g.st.recipients|
    ensures var r := MySlotFrom(c, file, g.st.header, pub, i);
            && r.Ok?
            && (r.value.Some? ==> r.value.value in g.st.recipients && Mine(r.value.value, pub))
            && (r.value.None? ==> forall j | i <= j < |g.st.recipients| :: !Mine(g.st.recipients[j], pub))
    decreases |g.st.recipients| - i
  {
    hide Represents, Healthy, ParseRecipient, Slice, Mine;
    if i < |g.st.recipients| {
      RecipientAt(c, file, g, i);
      MySlotInHealthy(c, file, g, pub, i + 1);
    }
  }

  lemma EveryoneUnlocks(c: Suite, g: Image)
    requires Healthy(c, g)
    ensures forall s | s in g.st.recipients && s.Occupied() :: Unlocks(c, s, g.key)
  {
    hide Unlocks, ShelfOk, AdminSlotOk, ChainOk;
  }

  lemma GrantIsASlot(c: Suite, g: Image, pub: Arr32, admin: bool)
    requires Healthy(c, g)
    ensures |g.recs| == |g.st.entries|
    ensures HoldsGrant(ModelOf(g, admin), pub) <==> exists s :: s in g.st.recipients && Mine(s, pub)
    ensures forall s | s in g.st.recipients && s.Occupied() :: Unlocks(c, s, g.key)
  {
    HealthyKeyring(c, g, admin);
    hide Healthy, ModelOf, Unlocks;
    var t := KeyringRows(g.st.recipients);
    if signing :| signing in AsMap(t) && AsMap(t)[signing] == pub {
      var i := FindRow(t, signing);
      assert Mine(g.st.recipients[i], pub) && g.st.recipients[i] in g.st.recipients;
    }
    if s :| s in g.st.recipients && Mine(s, pub) {
      var i :| 0 <= i < |g.st.recipients| && g.st.recipients[i] == s;
      RowInMap(t, i);
      assert AsMap(t)[s.signing] == pub;
    }
    EveryoneUnlocks(c, g);
  }

  /** The key a peer's identity yields, whatever the file holds. */
  function RecipientKeyIn(c: Suite, file: bytes, who: Identity): Result<Key> {
    var h :- HeaderIn(c, file);
    var found :- MySlotFrom(c, file, h, c.encPub(who.encSecret), 0);
    match found
    case None => Err(AccessNotGranted)
    case Some(slot) =>
      if |slot.wrapped| != WRAPPED_LEN then Err(CorruptContainer)
      else
        match c.unwrap(who.encSecret, slot.wrapped)
        case None => Err(AccessNotGranted)
        case Some(k) => Ok(k)
  }

  /** The exact outcome, once the slot is found: it has to be of the right length, and the peer's secret has
      to unwrap it. */
  lemma RecipientKeyExactly(c: Suite, file: bytes, who: Identity, h: Header, slot: Option<RecipientSlot>)
    requires HeaderIn(c, file) == Ok(h) && MySlotFrom(c, file, h, c.encPub(who.encSecret), 0) == Ok(slot)
    ensures slot.None? ==> RecipientKeyIn(c, file, who) == Err(AccessNotGranted)
    ensures slot.Some? && |slot.value.wrapped| != 92 ==> RecipientKeyIn(c, file, who) == Err(CorruptContainer)
    ensures slot.Some? && |slot.value.wrapped| == 92 ==>
              match c.unwrap(who.encSecret, slot.value.wrapped)
              case Some(k) => RecipientKeyIn(c, file, who) == Ok(k)
              case None => RecipientKeyIn(c, file, who) == Err(AccessNotGranted)
  {
    hide HeaderIn, MySlotFrom;
  }

  lemma MineUnlocks(c: Suite, slot: RecipientSlot, who: Identity, k: Key)
    requires Mine(slot, c.encPub(who.encSecret)) && (slot.Occupied() ==> Unlocks(c, slot, k))
    ensures slot.Occupied() && |slot.wrapped| == WRAPPED_LEN && c.unwrap(who.encSecret, slot.wrapped) == Some(k)
  {
  }

  /** From a healthy container, exactly the peers with a grant get the content key. */
  lemma RecipientKeyInHealthy(c: Suite, file: bytes, who: Identity, g: Image)
    requires Represents(c, file, g.st) && Healthy(c, g)
    ensures |g.recs| == |g.st.entries|
    ensures RecipientKeyIn(c, file, who) == if HoldsGrant(ModelOf(g, false), c.encPub(who.encSecret)) then Ok(g.key)
                                            else Err(AccessNotGranted)
  {
    var pub := c.encPub(who.encSecret);
    ReloadedParts(c, file, g);
    KeyringSize(c, file, g);
    GrantIsASlot(c, g, pub, false);
    MySlotInHealthy(c, file, g, pub, 0);
    hide Represents, Healthy, ModelOf, HeaderIn, MySlotFrom, HoldsGrant, Mine, ParseHeader;
    var found := MySlotFrom(c, file, g.st.header, pub, 0).value;
    if found.Some? {
      MineUnlocks(c, found.value, who, g.key);
    }
  }

  /** Unlocks the content key with a peer's own identity. */
  method MyKey(c: Suite, file: bytes, who: Identity) returns (r: Result<(Header, Key)>)
    ensures r.Ok? <==> RecipientKeyIn(c, file, who).Ok?
    ensures r.Err? ==> RecipientKeyIn(c, file, who) == Err(r.error)
    ensures r.Ok? ==> HeaderIn(c, file) == Ok(r.value.0) && RecipientKeyIn(c, file, who) == Ok(r.value.1)
  {
    hide LaidOut, HeaderIn, MySlotFrom;
    var h :- LoadHeader(c, file);
    var found :- FindMySlot(c, file, h, c.Peer(who).encryption);
    if found.None? {
      return Err(AccessNotGranted);
    }
    var slot := found.value;
    if |slot.wrapped| != WRAPPED_LEN {
      return Err(CorruptContainer);
    }
    var dek := c.unwrap(who.encSecret, slot.wrapped);
    if dek.None? {
      return Err(AccessNotGranted);
    }
    r := Ok((h, dek.value));
  }

  lemma ReloadsHere(c: Suite, file: bytes, h: Header)
    requires HeaderIn(c, file) == Ok(h)
    ensures Reloads(c, file) == if h.layout.bitmapOffset + h.layout.bitmapLen <= |file| then Ok(()) else Err(IoError)
  {
    hide HeaderIn;
  }

  /** `Vault::open_as_recipient`, for every file. On the container of a healthy vault it succeeds for
      exactly the peers that hold a grant, and hands them every file, read-only. */
  method OpenAsRecipient(c: Suite, file: bytes, who: Identity, ghost g: Image) returns (r: Result<Vault>)
    ensures r.Ok? <==> RecipientKeyIn(c, file, who).Ok? && Reloads(c, file).Ok?
    ensures r.Err? ==> r.error == if RecipientKeyIn(c, file, who).Err? then RecipientKeyIn(c, file, who).error else IoError
    ensures r.Ok? ==> fresh(r.value) && fresh(r.value.allocator) && r.value.c == c && r.value.file == file
                      && r.value.changeLog == [] && r.value.admin == None
                      && RecipientKeyIn(c, file, who) == Ok(r.value.key) && HeaderIn(c, file) == Ok(r.value.header)
    ensures Represents(c, file, g.st) && Healthy(c, g) ==>
              && |g.recs| == |g.st.entries|
              && (r.Ok? <==> HoldsGrant(ModelOf(g, false), c.encPub(who.encSecret)))
              && (r.Err? ==> r.error == AccessNotGranted)
              && (r.Ok? ==> r.value.Valid() && r.value.View() == ModelOf(g, false) && r.value.img == g)
  {
    ghost var sound := Represents(c, file, g.st) && Healthy(c, g);
    if sound {
      ReloadedParts(c, file, g);
      RecipientKeyInHealthy(c, file, who, g);
    }
    hide *;
    var found :- MyKey(c, file, who);
    var (h, dek) := found;
    ReloadsHere(c, file, h);
    r := LoadHandle(c, file, h, dek, None, g);
  }
}
