/** A healthy vault: everything its container must satisfy, and how it stands for a `Model`. */
module Image {

  import opened Bytes
  import opened Results
  import opened Crypto
  import opened Format
  import opened Headers
  import opened Container
  import opened Content
  import opened Allocator
  import opened Tables
  import opened Model
  import opened Shelf
  import opened Chain

  /** A container's records together with what is not on disk: the content key, the files, who owns
      each block, the whole history of the chain, and the admin's current password. */
  datatype Image = Image(
    st: Store, key: Key, recs: seq<FileRec>, owner: seq<Loc>, history: seq<ChainRecord>, password: bytes)

  function ShelfOf(img: Image): Shelf {
    Shelf(img.st.entries, img.recs, img.owner, img.st.bitmap, img.st.blocks)
  }

  // ----- the keyring

  function KeyringRows(recipients: seq<RecipientSlot>): Table<Arr32, Arr32> {
    seq(|recipients|, i requires 0 <= i < |recipients| =>
      if recipients[i].Occupied() then Some((recipients[i].signing, recipients[i].encryption)) else None)
  }

  /** The slot yields `k` to whoever holds the secret behind its encryption key. */
  ghost predicate Unlocks(c: Suite, slot: RecipientSlot, k: Key) {
    && |slot.wrapped| == WRAPPED_LEN
    && forall sk: Arr32 :: c.encPub(sk) == slot.encryption ==> c.unwrap(sk, slot.wrapped) == Some(k)
  }

  ghost predicate KeyringOk(c: Suite, recipients: seq<RecipientSlot>, k: Key) {
    && Distinct(KeyringRows(recipients))
    && forall i | 0 <= i < |recipients| && recipients[i].Occupied() :: Unlocks(c, recipients[i], k)
  }

  lemma WrappedUnlocks(c: Suite, slot: RecipientSlot, k: Key, seed: bytes)
    requires slot.wrapped == c.wrap(slot.encryption, k, seed)
    ensures Unlocks(c, slot, k)
  {
  }

  const NONCE_AND_TAG: nat := 28

  /** The password opens the admin slot and yields `k`. */
  predicate AdminSlotOk(c: Suite, keys: KeyMaterial, password: bytes, k: Key) {
    && |keys.adminKeySlot| >= NONCE_AND_TAG
    && c.unseal(c.derive(password, keys.salt, keys.argon), keys.adminKeySlot) == Some(k)
  }

  // ----- the chain

  ghost predicate ChainOk(c: Suite, h: Header, ring: seq<Option<ChainRecord>>, history: seq<ChainRecord>) {
    && |ring| > 0 && history != []
    && h.layout.chainNextSeq == |history|
    && h.layout.chainLastHash == history[|history| - 1].recordHash
    && Genuine(c, h.keys.adminSigning, history)
    && Window(ring, history)
  }

  ghost predicate Healthy(c: Suite, img: Image) {
    && Shaped(img.st)
    && ShelfOk(c, img.key, ShelfOf(img))
    && KeyringOk(c, img.st.recipients, img.key)
    && AdminSlotOk(c, img.st.header.keys, img.password, img.key)
    && ChainOk(c, img.st.header, img.st.chain, img.history)
  }

  ghost function ModelOf(img: Image, admin: bool): Model
    requires |img.recs| == |img.st.entries|
  {
    Model(FilesOf(ShelfOf(img)), AsMap(KeyringRows(img.st.recipients)), |img.st.blocks|, |img.st.entries|,
          admin, img.st.header.layout.chainNextSeq, img.password)
  }

  lemma ModelFields(img: Image, admin: bool)
    requires |img.recs| == |img.st.entries|
    ensures var m := ModelOf(img, admin);
            && m.files == FilesOf(ShelfOf(img)) && m.grants == AsMap(KeyringRows(img.st.recipients))
            && m.blockCount == |img.st.blocks| && m.maxFiles == |img.st.entries| && m.admin == admin
            && m.nextSeq == img.st.header.layout.chainNextSeq && m.password == img.password
  {
  }

  // ----- steps

  function Appended(st: Store, r: ChainRecord): Store
    requires |st.chain| > 0 && st.header.layout.chainNextSeq + 1 < U64
  {
    var next := st.header.layout.chainNextSeq;
    st.(chain := st.chain[next % |st.chain| := Some(r)],
        header := st.header.(layout := st.header.layout.(chainNextSeq := next + 1, chainLastHash := r.recordHash)))
  }

  function Advanced(img: Image, r: ChainRecord): Image
    requires |img.st.chain| > 0 && img.st.header.layout.chainNextSeq + 1 < U64
  {
    img.(st := Appended(img.st, r), history := img.history + [r])
  }

  /** A correctly linked and signed record keeps a vault healthy and advances its sequence number. */
  lemma Advance(c: Suite, img: Image, r: ChainRecord)
    requires Healthy(c, img) && img.st.header.layout.chainNextSeq + 1 < U64
    requires r.seqNo == img.st.header.layout.chainNextSeq && r.prevHash == img.st.header.layout.chainLastHash
    requires VerifySelf(c, r) && c.verify(img.st.header.keys.adminSigning, r.recordHash, r.signature)
    ensures Healthy(c, Advanced(img, r))
    ensures forall admin :: ModelOf(Advanced(img, r), admin)
                         == ModelOf(img, admin).(nextSeq := img.st.header.layout.chainNextSeq + 1)
  {
    hide ShelfOk, KeyringOk, AdminSlotOk;
    AppendKeepsWindow(img.st.chain, img.history, r);
    AppendKeepsGenuine(c, img.st.header.keys.adminSigning, img.history, r);
    assert ShelfOf(Advanced(img, r)) == ShelfOf(img);
  }

  function WithShelf(img: Image, sh: Shelf): Image {
    img.(st := img.st.(entries := sh.entries, bitmap := sh.bitmap, blocks := sh.blocks), recs := sh.recs, owner := sh.owner)
  }

  /** Changing the files of a healthy vault. */
  lemma ChangeShelf(c: Suite, img: Image, sh: Shelf)
    requires Healthy(c, img) && ShelfOk(c, img.key, sh)
    requires |sh.entries| == |img.st.entries| && |sh.blocks| == |img.st.blocks| && |sh.bitmap| == |img.st.bitmap|
    ensures Healthy(c, WithShelf(img, sh))
    ensures forall admin :: ModelOf(WithShelf(img, sh), admin) == ModelOf(img, admin).(files := FilesOf(sh))
  {
    hide KeyringOk, AdminSlotOk, ChainOk;
    assert ShelfOf(WithShelf(img, sh)) == sh;
  }

  /** Storing a file in a free slot, on free blocks. */
  lemma StoreStep(c: Suite, img: Image, i: nat, e: FileEntry, rec: FileRec, bitmap: bytes, blocks: seq<BlockImage>)
    requires Healthy(c, img) && i < |img.st.entries| && !img.st.entries[i].Occupied() && e.Occupied()
    requires |img.recs| == |img.st.entries|
    requires e.name !in FilesOf(ShelfOf(img)) && Describes(c, e, rec) && |bitmap| == |img.st.bitmap|
    requires Stored(c, img.key, e.id, rec, img.st.blocks, blocks)
    requires forall p | 0 <= p < |rec.blocks| :: rec.blocks[p] in FreeSet(img.st.bitmap, |img.st.blocks|)
    requires forall b: nat :: Bit(bitmap, b) <==> Bit(img.st.bitmap, b) || b in rec.blocks
    ensures var img' := WithShelf(img, WithFile(ShelfOf(img), i, e, rec, bitmap, blocks));
            && Healthy(c, img') && |img'.recs| == |img'.st.entries|
            && forall admin :: ModelOf(img', admin)
                            == ModelOf(img, admin).(files := ModelOf(img, admin).files[e.name := rec.data])
  {
    var sh := WithFile(ShelfOf(img), i, e, rec, bitmap, blocks);
    assert ShelfOk(c, img.key, ShelfOf(img));
    StoreFile(c, img.key, ShelfOf(img), i, e, rec, bitmap, blocks);
    hide ShelfOk, KeyringOk, AdminSlotOk, ChainOk, Describes, Stored, FilesOf, Bit, FreeSet;
    ChangeShelf(c, img, sh);
  }

  /** Dropping a stored file and releasing its blocks. */
  lemma RemoveStep(c: Suite, img: Image, i: nat, e: FileEntry, bitmap: bytes)
    requires Healthy(c, img) && i < |img.st.entries| && img.st.entries[i].Occupied() && !e.Occupied()
    requires |img.recs| == |img.st.entries| && |bitmap| == |img.st.bitmap|
    requires forall b: nat :: Bit(bitmap, b) <==> Bit(img.st.bitmap, b) && !(b in img.recs[i].blocks && b < |img.st.blocks|)
    ensures var img' := WithShelf(img, WithoutFile(ShelfOf(img), i, e, bitmap));
            && Healthy(c, img') && |img'.recs| == |img'.st.entries|
            && forall admin :: ModelOf(img', admin)
                            == ModelOf(img, admin).(files := ModelOf(img, admin).files - {img.st.entries[i].name})
  {
    var sh := WithoutFile(ShelfOf(img), i, e, bitmap);
    assert ShelfOk(c, img.key, ShelfOf(img));
    RemoveFile(c, img.key, ShelfOf(img), i, e, bitmap);
    hide ShelfOk, KeyringOk, AdminSlotOk, ChainOk, FilesOf, Bit;
    ChangeShelf(c, img, sh);
  }

  function WithRecipient(img: Image, i: nat, slot: RecipientSlot): Image
    requires i < |img.st.recipients|
  {
    img.(st := img.st.(recipients := img.st.recipients[i := slot]))
  }

  /** Granting a new peer. */
  lemma GrantSlot(c: Suite, img: Image, i: nat, slot: RecipientSlot)
    requires Healthy(c, img) && i < |img.st.recipients| && !img.st.recipients[i].Occupied()
    requires slot.Occupied() && Unlocks(c, slot, img.key)
    requires slot.signing !in AsMap(KeyringRows(img.st.recipients))
    ensures Healthy(c, WithRecipient(img, i, slot))
    ensures forall admin :: ModelOf(WithRecipient(img, i, slot), admin)
                         == ModelOf(img, admin).(grants := ModelOf(img, admin).grants[slot.signing := slot.encryption])
  {
    hide ShelfOk, AdminSlotOk, ChainOk, Unlocks;
    var rs := img.st.recipients;
    var rs' := rs[i := slot];
    assert KeyringRows(rs') == KeyringRows(rs)[i := Some((slot.signing, slot.encryption))];
    FillRow(KeyringRows(rs), i, slot.signing, slot.encryption);
    assert ShelfOf(WithRecipient(img, i, slot)) == ShelfOf(img);
  }

  // ----- key rotation

  /** Rotation re-encrypts every owned block, re-wraps the key for everybody but the revoked peer, and
      re-seals the admin slot; the files, the bitmap and who owns which block stay as they are. */
  ghost predicate Rotated(c: Suite, img: Image, k': Key, gone: nat, st': Store)
    requires |img.recs| == |img.st.entries| && gone < |img.st.recipients|
  {
    && st'.entries == img.st.entries && st'.bitmap == img.st.bitmap && st'.chain == img.st.chain
    && |st'.blocks| == |img.st.blocks| && |st'.recipients| == |img.st.recipients|
    && st'.header == img.st.header.(keys := img.st.header.keys.(adminKeySlot := st'.header.keys.adminKeySlot))
    && BlocksRekeyed(c, k', ShelfOf(img), st'.blocks)
    && KeyringRows(st'.recipients) == KeyringRows(img.st.recipients)[gone := None]
    && (forall i | 0 <= i < |st'.recipients| && st'.recipients[i].Occupied() :: Unlocks(c, st'.recipients[i], k'))
  }

  lemma Rotate(c: Suite, img: Image, k': Key, password: bytes, gone: nat, st': Store)
    requires Healthy(c, img) && gone < |img.st.recipients| && img.st.recipients[gone].Occupied()
    requires Rotated(c, img, k', gone, st') && AdminSlotOk(c, st'.header.keys, password, k')
    ensures var img' := img.(st := st', key := k', password := password);
            && Healthy(c, img')
            && forall admin :: ModelOf(img', admin)
                 == ModelOf(img, admin).(grants := ModelOf(img, admin).grants - {img.st.recipients[gone].signing},
                                         password := password)
  {
    var img' := img.(st := st', key := k', password := password);
    hide AdminSlotOk, Unlocks;
    Rekey(c, img.key, k', ShelfOf(img), st'.blocks);
    assert ShelfOf(img') == ShelfOf(img).(blocks := st'.blocks);
    ClearRow(KeyringRows(img.st.recipients), gone);
    assert Rows(img'.st.entries, img'.recs) == Rows(img.st.entries, img.recs);
  }

  // ----- what a healthy vault gives its readers

  /** `verify_integrity`'s chain check accepts. */
  lemma HealthyChainPasses(c: Suite, img: Image)
    requires Healthy(c, img)
    ensures img.st.header.layout.maxChainRecords == |img.st.chain| > 0
    ensures CheckChain(c, img.st.header.keys.adminSigning, img.st.header.layout.chainNextSeq,
                       img.st.header.layout.chainLastHash, AsRegion(img.st.chain)) == Ok(())
  {
    hide ShelfOk, KeyringOk, AdminSlotOk;
    GenuinePasses(c, img.st.header.keys.adminSigning, img.st.chain, img.history);
  }

  /** The free blocks of the bitmap are the model's budget. */
  lemma HealthySpace(c: Suite, img: Image, admin: bool)
    requires Healthy(c, img)
    ensures |FreeSet(img.st.bitmap, |img.st.blocks|)| == ModelOf(img, admin).Free()
  {
    hide KeyringOk, AdminSlotOk, ChainOk;
    SpaceAccounting(c, img.key, ShelfOf(img));
  }

  /** There are no more files and grants than slots, and no block is promised twice. */
  lemma HealthyBounds(c: Suite, img: Image, admin: bool)
    requires Healthy(c, img)
    ensures |img.recs| == |img.st.entries|
    ensures var m := ModelOf(img, admin); |m.files| <= m.maxFiles && |m.grants| <= 16 && m.Free() >= 0 && m.admin == admin
  {
    HealthySpace(c, img, admin);
    FullTable(Rows(img.st.entries, img.recs));
    FullTable(KeyringRows(img.st.recipients));
    hide TotalNeed, AdminSlotOk, ChainOk;
  }

  lemma HealthySize(c: Suite, img: Image)
    requires Healthy(c, img)
    ensures |img.recs| == |img.st.entries| && |img.owner| == |img.st.blocks| < U64 && Shaped(img.st)
  {
    hide KeyringOk, AdminSlotOk, ChainOk;
  }

  /** An occupied slot is a file of the model, and readable. */
  lemma HealthyFile(c: Suite, img: Image, i: nat, admin: bool)
    requires Healthy(c, img) && i < |img.st.entries| && img.st.entries[i].Occupied()
    ensures |img.recs| == |img.st.entries|
    ensures Readable(c, img.key, img.st.blocks, img.st.entries[i], img.recs[i])
    ensures var m := ModelOf(img, admin);
            img.st.entries[i].name in m.files && m.files[img.st.entries[i].name] == img.recs[i].data
  {
    assert ShelfOk(c, img.key, ShelfOf(img));
    StoredFileIsReadable(c, img.key, ShelfOf(img), i);
  }

  lemma HealthyNoFile(c: Suite, img: Image, name: Name, admin: bool)
    requires Healthy(c, img)
    requires forall i | 0 <= i < |img.st.entries| :: img.st.entries[i].Occupied() ==> img.st.entries[i].name != name
    ensures |img.recs| == |img.st.entries| && name !in ModelOf(img, admin).files
  {
    NameNotStored(ShelfOf(img), name);
  }

  lemma HealthyFreeSlots(c: Suite, img: Image, admin: bool)
    requires Healthy(c, img)
    ensures |img.recs| == |img.st.entries|
    ensures |ModelOf(img, admin).files| == ModelOf(img, admin).maxFiles
       <==> forall i | 0 <= i < |img.st.entries| :: img.st.entries[i].Occupied()
  {
    FreeSlots(c, img.key, ShelfOf(img));
  }
}
