/** The vault engine (`src/core/vault.rs`): one class over the bytes of one container file. The low
    layer reads and writes single cells and logs every write; the high layer is proved to refine
    `Model`. File-system calls and the cryptographic primitives are taken to succeed. */
module Vaults {

  import opened Bytes
  import opened Results
  import opened Crypto
  import opened WriteLog
  import opened Codec
  import opened Format
  import opened Headers
  import opened Allocator
  import opened Container
  import opened Content
  import opened Tables
  import opened Model
  import opened Shelf
  import opened Chain
  import opened Image

  // ----- the change log

  /** The range is exactly one cell of the container: one slot, one block, the bitmap or the header. */
  ghost predicate IsCell(g: Geometry, r: Range) {
    exists x: Cell :: Has(g, x) && r.0 == Off(g, x) && |r.1| == Len(g, x)
  }

  /** The log contains every write since the file held `base`. */
  ghost predicate Logged(g: Geometry, base: bytes, log: seq<Range>, file: bytes) {
    file == Apply(log, base) && forall k | 0 <= k < |log| :: IsCell(g, log[k])
  }

  lemma LogOneMore(g: Geometry, base: bytes, log: seq<Range>, file: bytes, x: Cell, data: bytes)
    requires Logged(g, base, log, file) && Has(g, x) && |data| == Len(g, x) && Off(g, x) < U64
    ensures Logged(g, base, log + [(Off(g, x), data)], Splice(file, Off(g, x), data))
  {
    var r: Range := (Off(g, x), data);
    assert (log + [r])[..|log|] == log;
    assert IsCell(g, r);
  }

  /** What was written since an earlier moment, replayed on the file as it was then. */
  lemma LogSuffix(base: bytes, log: seq<Range>, log': seq<Range>, file: bytes, file': bytes)
    requires log <= log' && file == Apply(log, base) && file' == Apply(log', base)
    ensures file' == Apply(log'[|log|..], file)
  {
    assert log' == log + log'[|log|..];
    ApplyConcat(log, log'[|log|..], base);
  }

  // ----- progress of storing a file

  /** The first `n` blocks of `rec` are written, everything else is as before. */
  ghost predicate Progress(c: Suite, k: Key, id: u128, rec: FileRec, before: seq<BlockImage>, now: seq<BlockImage>, n: nat)
    requires rec.Shaped() && n <= |rec.blocks|
  {
    && |now| == |before|
    && (forall p | 0 <= p < n :: rec.blocks[p] < |now|
          && now[rec.blocks[p]] == BlockBytes(c, k, id, rec.blocks[p], Payload(rec, p)))
    && (forall b | 0 <= b < |before| && b !in rec.blocks :: now[b] == before[b])
  }

  lemma ProgressStep(c: Suite, k: Key, id: u128, rec: FileRec, before: seq<BlockImage>, now: seq<BlockImage>, n: nat)
    requires rec.Shaped() && n < |rec.blocks| && rec.blocks[n] < |now| && Progress(c, k, id, rec, before, now, n)
    ensures Progress(c, k, id, rec, before,
                     now[rec.blocks[n] := BlockBytes(c, k, id, rec.blocks[n], Payload(rec, n))], n + 1)
  {
    hide BlockBytes, Payload;
  }

  /** An index block, opened and parsed. */
  function OpenIndex(c: Suite, k: Key, id: u128, i: nat, img: BlockImage): Result<(u64, seq<u64>)> {
    var payload :- OpenBlock(c, k, id, i, img);
    ParseIndex(payload)
  }

  // ----- what an operation leaves behind besides its effect on the model

  /** The history grew by exactly one record: in the next place of the chain, linked to the one before,
      about this operation, target and data, at this time, hashed, and signed by `who`. */
  ghost predicate LogsAs(c: Suite, l: Layout, who: Identity, before: seq<ChainRecord>, after: seq<ChainRecord>,
                         op: ChainOp, targetId: u128, dataHash: Arr32, ts: i64)
  {
    && |after| == |before| + 1 && after[..|before|] == before
    && var r := after[|before|];
       && r.seqNo == l.chainNextSeq && r.prevHash == l.chainLastHash && r.op == op && r.targetId == targetId
       && r.dataHash == dataHash && r.timestamp == ts
       && r.recordHash == c.hash(HashInput(r)) && r.signature == c.sign(who.signSecret, r.recordHash)
  }

  lemma LoggedAs(c: Suite, l: Layout, who: Identity, before: seq<ChainRecord>, op: ChainOp, targetId: u128, dataHash: Arr32, ts: i64)
    ensures LogsAs(c, l, who, before,
                   before + [NewSigned(c, l.chainNextSeq, l.chainLastHash, op, targetId, dataHash, ts, who)],
                   op, targetId, dataHash, ts)
  {
    hide HashInput;
  }

  /** One slot of the file table was written, with this identity, for contents of this size and hash, and
      with these times. */
  predicate Filed(before: seq<FileEntry>, after: seq<FileEntry>, slot: nat, id: u128, name: Name, size: nat, hash: Arr32,
                  created: i64, modified: i64)
  {
    && slot < |before| == |after| && after == before[slot := after[slot]]
    && after[slot].id == id && after[slot].name == name && after[slot].flags == FLAG_OCCUPIED
    && after[slot].size == size && after[slot].fileHash == hash
    && after[slot].createdAt == created && after[slot].modifiedAt == modified
  }

  lemma EntryFiled(before: seq<FileEntry>, slot: nat, e: FileEntry)
    requires slot < |before| && e.flags == FLAG_OCCUPIED
    ensures Filed(before, before[slot := e], slot, e.id, e.name, e.size, e.fileHash, e.createdAt, e.modifiedAt)
  {
  }

  /** The file kept its slot, its id and its creation time. */
  predicate Refiled(before: seq<FileEntry>, after: seq<FileEntry>, slot: nat, name: Name, size: nat, hash: Arr32, ts: i64) {
    && slot < |before| && before[slot].Occupied() && before[slot].name == name
    && Filed(before, after, slot, before[slot].id, name, size, hash, before[slot].createdAt, ts)
  }

  /** The file's entry stayed where it was, as a tombstone. */
  predicate Buried(before: seq<FileEntry>, after: seq<FileEntry>, slot: nat, name: Name) {
    && slot < |before| && before[slot].Occupied() && before[slot].name == name
    && after == before[slot := before[slot].(flags := FLAG_DELETED)]
  }

  /** One keyring slot was filled in for the peer. */
  predicate Enrolled(before: seq<RecipientSlot>, after: seq<RecipientSlot>, i: nat, peer: PeerId, ts: i64) {
    && i < |before| == |after| && |after[i].wrapped| == WRAPPED_LEN && !before[i].Occupied()
    && after == before[i := RecipientSlot(peer.signing, peer.encryption, after[i].wrapped, ts, FLAG_OCCUPIED)]
  }

  datatype FileInfo = FileInfo(name: Name, size: nat, createdAt: i64, modifiedAt: i64)

  /** Reading the header of a file, whatever it holds. */
  function HeaderIn(c: Suite, file: bytes): Result<Header> {
    if |file| < HEADER_SIZE then Err(IoError) else ParseHeader(c, Slice(file, 0, HEADER_SIZE))
  }

  /** Reading header and bitmap of a file, whatever it holds. */
  function Reloads(c: Suite, file: bytes): Result<()> {
    var h :- HeaderIn(c, file);
    if h.layout.bitmapOffset + h.layout.bitmapLen > |file| then Err(IoError) else Ok(())
  }

  /** What a healthy container yields to whoever reads its header and bitmap. */
  lemma ReloadedParts(c: Suite, file: bytes, g: Image)
    requires Represents(c, file, g.st) && Healthy(c, g)
    ensures |file| >= HEADER_SIZE && ParseHeader(c, Slice(file, 0, HEADER_SIZE)) == Ok(g.st.header)
    ensures HeaderIn(c, file) == Ok(g.st.header) && Reloads(c, file) == Ok(())
    ensures var h := g.st.header;
            && h.layout.bitmapOffset + h.layout.bitmapLen <= |file|
            && Slice(file, h.layout.bitmapOffset, h.layout.bitmapLen) == g.st.bitmap
            && |g.st.bitmap| == BitmapLen(h.meta.blockCount) && h.meta.blockCount == |g.st.blocks|
            && LaidOut(h, Geo(g.st)) && |g.recs| == |g.st.entries|
  {
    ReadHeaderCell(c, file, g.st);
    ReadBitmapCell(c, file, g.st);
    HealthySize(c, g);
  }

  lemma ApplyLast(ranges: seq<Range>, k: nat, file: bytes)
    requires k < |ranges|
    ensures Apply(ranges[..k + 1], file) == Splice(Apply(ranges[..k], file), ranges[k].0, ranges[k].1)
  {
    assert ranges[..k + 1][..k] == ranges[..k];
  }

  /** What reading each slot of the chain region yields, whatever the bytes. */
  function RegionOf(file: bytes, g: Geometry): (r: Region)
    requires |file| == g.Total() && g.chainSlots > 0
    ensures |r| == g.chainSlots
  {
    seq(g.chainSlots, j requires 0 <= j < g.chainSlots =>
      ParseRecord(Slice(file, g.ChainAt() + CHAIN_RECORD_SIZE * j, CHAIN_RECORD_SIZE)))
  }

  /** Tamper evidence for files: under a healthy vault's header, and short of a hash collision, the
      chain check accepts a file of the right size if and only if its chain window is a genuine
      suffix. */
  lemma FileTamperEvidence(c: Suite, img: Image, file: bytes)
    requires Healthy(c, img) && |file| == Geo(img.st).Total() && |img.st.chain| > 0
    requires NoCollision(c, RegionOf(file, Geo(img.st)), img.history)
    ensures (var h := img.st.header;
             CheckChain(c, h.keys.adminSigning, h.layout.chainNextSeq, h.layout.chainLastHash,
                        RegionOf(file, Geo(img.st))).Ok?)
       <==> exists k: nat :: GenuineFrom(c, img.st.header.keys.adminSigning, RegionOf(file, Geo(img.st)), img.history, k)
  {
    hide ShelfOk, KeyringOk, AdminSlotOk, RegionOf;
    TamperEvidence(c, img.st.header.keys.adminSigning, RegionOf(file, Geo(img.st)), img.history);
  }

  /** A block in use: its index, its file's id, and what it holds in the clear. */
  type Item = (u64, u128, bytes)

  ghost predicate IsBlockOf(sh: Shelf, t: Item, i: nat, p: nat) {
    && i < |sh.recs| && i < |sh.entries| && sh.entries[i].Occupied()
    && sh.recs[i].Shaped() && p < |sh.recs[i].blocks| && sh.recs[i].blocks[p] == t.0
    && t.1 == sh.entries[i].id && t.2 == Payload(sh.recs[i], p)
  }

  /** The item is what its block's owner keeps there. */
  ghost predicate ItemOk(sh: Shelf, t: Item) {
    && t.0 < |sh.owner| && sh.owner[t.0].OwnedBy?
    && IsBlockOf(sh, t, sh.owner[t.0].slot, sh.owner[t.0].p)
  }

  ghost predicate ItemsOk(sh: Shelf, items: seq<Item>) {
    forall k | 0 <= k < |items| :: ItemOk(sh, items[k])
  }

  predicate HasBlock(items: seq<Item>, b: u64) {
    exists k :: 0 <= k < |items| && items[k].0 == b
  }

  /** Every block of the file is among the items. */
  predicate Covered(rec: FileRec, items: seq<Item>) {
    forall p | 0 <= p < |rec.blocks| :: HasBlock(items, rec.blocks[p])
  }

  lemma CoveredByMore(rec: FileRec, items: seq<Item>, more: seq<Item>)
    requires Covered(rec, items) || Covered(rec, more)
    ensures Covered(rec, items + more)
  {
    forall p | 0 <= p < |rec.blocks|
      ensures HasBlock(items + more, rec.blocks[p])
    {
      if Covered(rec, items) {
        var k :| 0 <= k < |items| && items[k].0 == rec.blocks[p];
        assert (items + more)[k] == items[k];
      } else {
        var k :| 0 <= k < |more| && more[k].0 == rec.blocks[p];
        assert (items + more)[|items| + k] == more[k];
      }
    }
  }

  lemma PositionOf(s: seq<u64>, b: u64) returns (p: nat)
    requires b in s
    ensures p < |s| && s[p] == b
  {
    p :| 0 <= p < |s| && s[p] == b;
  }

  lemma AllCovered(rec: FileRec, all: seq<u64>, items: seq<Item>)
    requires |items| == |all| && forall j | 0 <= j < |all| :: items[j].0 == all[j]
    requires forall b :: b in all <==> b in rec.blocks
    ensures Covered(rec, items)
  {
    forall p | 0 <= p < |rec.blocks|
      ensures HasBlock(items, rec.blocks[p])
    {
      var j := PositionOf(all, rec.blocks[p]);
      assert items[j].0 == rec.blocks[p];
    }
  }

  lemma OwnedItem(c: Suite, img: Image, i: nat, p: nat)
    requires Healthy(c, img) && i < |img.st.entries| == |img.recs| && img.st.entries[i].Occupied()
    requires img.recs[i].Shaped() && p < |img.recs[i].blocks|
    ensures ItemOk(ShelfOf(img), (img.recs[i].blocks[p], img.st.entries[i].id, Payload(img.recs[i], p)))
  {
    assert SlotOk(c, img.key, ShelfOf(img), i);
    assert BlockOk(c, img.key, ShelfOf(img), i, p);
  }

  /** The items are on disk, encrypted under `k`. */
  ghost predicate Rewritten(c: Suite, k: Key, items: seq<Item>, blocks: seq<BlockImage>) {
    forall j | 0 <= j < |items| ::
      |items[j].2| <= CHUNK && items[j].0 < |blocks|
      && blocks[items[j].0] == BlockBytes(c, k, items[j].1, items[j].0, items[j].2)
  }

  lemma ItemFits(sh: Shelf, items: seq<Item>, k: nat)
    requires ItemsOk(sh, items) && k < |items|
    ensures items[k].0 < |sh.owner| && |items[k].2| <= CHUNK
  {
    assert ItemOk(sh, items[k]);
  }

  /** A block none of the items lists is as it was. */
  ghost predicate OthersKept(items: seq<Item>, before: seq<BlockImage>, now: seq<BlockImage>) {
    |now| == |before| && forall b: u64 | b < |now| && !HasBlock(items, b) :: now[b] == before[b]
  }

  lemma NoneTouched(items: seq<Item>, blocks: seq<BlockImage>)
    ensures OthersKept(items, blocks, blocks)
    ensures forall c: Suite, k: Key :: Rewritten(c, k, [], blocks)
  {
  }

  lemma OneMoreTouched(items: seq<Item>, k: nat, before: seq<BlockImage>, now: seq<BlockImage>, b: BlockImage)
    requires k < |items| && OthersKept(items, before, now) && items[k].0 < |now|
    ensures OthersKept(items, before, now[items[k].0 := b])
  {
    assert HasBlock(items, items[k].0);
  }

  /** Writing one more item does not disturb the earlier ones: two items on the same block are equal,
      because a block has one owner. */
  lemma RewriteOne(c: Suite, key: Key, sh: Shelf, items: seq<Item>, k: nat, blocks: seq<BlockImage>)
    requires ItemsOk(sh, items) && k < |items| && items[k].0 < |blocks| && |items[k].2| <= CHUNK
    requires Rewritten(c, key, items[..k], blocks)
    ensures Rewritten(c, key, items[..k + 1],
                      blocks[items[k].0 := BlockBytes(c, key, items[k].1, items[k].0, items[k].2)])
  {
    hide BlockBytes;
    var (b, id, plain) := items[k];
    forall j | 0 <= j < k + 1
      ensures |items[..k + 1][j].2| <= CHUNK && items[..k + 1][j].0 < |blocks|
      ensures blocks[b := BlockBytes(c, key, id, b, plain)][items[j].0]
           == BlockBytes(c, key, items[j].1, items[j].0, items[j].2)
    {
      assert ItemOk(sh, items[j]) && ItemOk(sh, items[k]);
      if j < k {
        assert items[..k][j] == items[j];
      }
    }
  }

  lemma FindItem(items: seq<Item>, b: u64) returns (j: nat)
    requires HasBlock(items, b)
    ensures j < |items| && items[j].0 == b
  {
    j :| 0 <= j < |items| && items[j].0 == b;
  }

  predicate OwnedHere(sh: Shelf, i: nat, p: nat)
    requires i < |sh.recs| && p < |sh.recs[i].blocks|
  {
    sh.recs[i].blocks[p] < |sh.owner| && sh.owner[sh.recs[i].blocks[p]] == OwnedBy(i, p)
  }

  lemma RekeyedAt(c: Suite, k: Key, sh: Shelf, items: seq<Item>, blocks: seq<BlockImage>, i: nat, p: nat)
    requires |sh.recs| == |sh.entries| && ItemsOk(sh, items) && Rewritten(c, k, items, blocks)
    requires i < |sh.entries| && sh.entries[i].Occupied() && p < |sh.recs[i].blocks|
    requires Covered(sh.recs[i], items) && OwnedHere(sh, i, p)
    ensures BlockRekeyed(c, k, sh, blocks, i, p)
  {
    hide BlockBytes;
    assert HasBlock(items, sh.recs[i].blocks[p]);
    var j := FindItem(items, sh.recs[i].blocks[p]);
    assert ItemOk(sh, items[j]);
  }

  lemma AllRekeyed(c: Suite, k: Key, sh: Shelf, items: seq<Item>, blocks: seq<BlockImage>)
    requires |sh.recs| == |sh.entries| && ItemsOk(sh, items) && Rewritten(c, k, items, blocks)
    requires forall i | 0 <= i < |sh.entries| && sh.entries[i].Occupied() :: Covered(sh.recs[i], items)
    requires forall i, p | 0 <= i < |sh.entries| && sh.entries[i].Occupied() && 0 <= p < |sh.recs[i].blocks| ::
               OwnedHere(sh, i, p)
    ensures BlocksRekeyed(c, k, sh, blocks)
  {
    hide BlockRekeyed, Covered, OwnedHere, ItemsOk, Rewritten;
    forall i, p | 0 <= i < |sh.entries| && sh.entries[i].Occupied() && 0 <= p < |sh.recs[i].blocks|
      ensures BlockRekeyed(c, k, sh, blocks, i, p)
    {
      assert Covered(sh.recs[i], items) && OwnedHere(sh, i, p);
      RekeyedAt(c, k, sh, items, blocks, i, p);
    }
  }

  lemma EverythingIsOwned(c: Suite, img: Image)
    requires Healthy(c, img) && |img.recs| == |img.st.entries|
    ensures forall i, p | 0 <= i < |img.st.entries| && img.st.entries[i].Occupied() && 0 <= p < |img.recs[i].blocks| ::
              OwnedHere(ShelfOf(img), i, p)
  {
    var sh := ShelfOf(img);
    forall i, p | 0 <= i < |img.st.entries| && img.st.entries[i].Occupied() && 0 <= p < |img.recs[i].blocks|
      ensures OwnedHere(sh, i, p)
    {
      assert SlotOk(c, img.key, sh, i);
      assert BlockOk(c, img.key, sh, i, p);
    }
  }

  lemma SameRow(rows: Table<Arr32, Arr32>, after: seq<RecipientSlot>, i: nat)
    requires |after| == |rows| && i < |after| && after[i].Occupied()
    requires rows[i] == Some((after[i].signing, after[i].encryption))
    requires forall j | 0 <= j < |after| && j != i :: KeyringRows(after)[j] == rows[j]
    ensures KeyringRows(after) == rows
  {
  }

  lemma SealOpens(c: Suite, kek: Key, dek: Key, seed: bytes)
    ensures NONCE_AND_TAG <= |c.seal(kek, dek, seed)| <= ADMIN_KEY_SLOT_LEN && c.unseal(kek, c.seal(kek, dek, seed)) == Some(dek)
  {
    var sealed: bytes := c.seal(kek, dek, seed);
    assert c.SealLawful();
    assert |sealed| == |dek| + 28;
  }

  lemma ResealKeepsLayout(h: Header, g: Geometry, slot: KeySlot)
    requires LaidOut(h, g)
    ensures LaidOut(h.(keys := h.keys.(adminKeySlot := slot)), g)
  {
  }

  function PeerTargetId(c: Suite, signing: Arr32): u128 {
    U128Of(c.hash(signing)[..16])
  }

  lemma WrapLength(c: Suite, pub: Arr32, k: Key, seed: bytes)
    ensures |c.wrap(pub, k, seed)| == WRAPPED_LEN
  {
  }

  function InfoOf(e: FileEntry): FileInfo {
    FileInfo(e.name, e.size, e.createdAt, e.modifiedAt)
  }

  /** The line is about the file in this slot. */
  predicate Lists(info: FileInfo, e: FileEntry) {
    && e.Occupied() && info.name == e.name && info.size == e.size
    && info.createdAt == e.createdAt && info.modifiedAt == e.modifiedAt
  }

  function OccupiedEntries(entries: seq<FileEntry>): seq<(nat, FileEntry)> {
    if entries == [] then []
    else
      var n := |entries| - 1;
      OccupiedEntries(entries[..n]) + if entries[n].Occupied() then [(n, entries[n])] else []
  }

  /** Position `k` of the listing is an occupied slot, and slots appear in increasing order. */
  lemma {:induction false} ListedSlot(entries: seq<FileEntry>, k: nat)
    requires k < |OccupiedEntries(entries)|
    ensures var (i, e) := OccupiedEntries(entries)[k];
            i < |entries| && entries[i] == e && e.Occupied()
  {
    var n := |entries| - 1;
    if k < |OccupiedEntries(entries[..n])| {
      ListedSlot(entries[..n], k);
      assert OccupiedEntries(entries)[k] == OccupiedEntries(entries[..n])[k];
    } else {
      assert OccupiedEntries(entries)[k] == (n, entries[n]);
    }
  }

  lemma {:induction false} ListedInOrder(entries: seq<FileEntry>, k: nat, l: nat)
    requires k < l < |OccupiedEntries(entries)|
    ensures OccupiedEntries(entries)[k].0 < OccupiedEntries(entries)[l].0
  {
    var n := |entries| - 1;
    if l < |OccupiedEntries(entries[..n])| {
      ListedInOrder(entries[..n], k, l);
    } else {
      ListedSlot(entries[..n], k);
    }
  }

  lemma {:induction false} SlotIsListed(entries: seq<FileEntry>, i: nat) returns (k: nat)
    requires i < |entries| && entries[i].Occupied()
    ensures k < |OccupiedEntries(entries)| && OccupiedEntries(entries)[k] == (i, entries[i])
  {
    var n := |entries| - 1;
    if i == n {
      k := |OccupiedEntries(entries[..n])|;
    } else {
      k := SlotIsListed(entries[..n], i);
    }
  }

  lemma NamesDiffer(c: Suite, img: Image, i: nat, j: nat)
    requires Healthy(c, img) && i < j < |img.st.entries|
    requires img.st.entries[i].Occupied() && img.st.entries[j].Occupied()
    ensures img.st.entries[i].name != img.st.entries[j].name
  {
    var t := Rows(img.st.entries, img.recs);
    assert t[i].Some? && t[j].Some?;
  }

  lemma ListingIsComplete(c: Suite, img: Image, listed: seq<(nat, FileEntry)>, admin: bool)
    requires Healthy(c, img) && listed == OccupiedEntries(img.st.entries)
    ensures |img.recs| == |img.st.entries|
    ensures var files := ModelOf(img, admin).files;
            && (forall k | 0 <= k < |listed| :: listed[k].1.name in files && listed[k].1.size == |files[listed[k].1.name]|)
            && (forall k, l | 0 <= k < l < |listed| :: listed[k].1.name != listed[l].1.name)
            && (forall n | n in files :: exists k :: 0 <= k < |listed| && listed[k].1.name == n)
  {
    HealthySize(c, img);
    ModelFields(img, admin);
    var files := ModelOf(img, admin).files;
    forall k | 0 <= k < |listed|
      ensures listed[k].1.name in files && listed[k].1.size == |files[listed[k].1.name]|
    {
      ListedSlot(img.st.entries, k);
      HealthyFile(c, img, listed[k].0, admin);
    }
    forall k, l | 0 <= k < l < |listed|
      ensures listed[k].1.name != listed[l].1.name
    {
      ListedSlot(img.st.entries, k);
      ListedSlot(img.st.entries, l);
      ListedInOrder(img.st.entries, k, l);
      NamesDiffer(c, img, listed[k].0, listed[l].0);
    }
    forall n | n in files
      ensures exists k :: 0 <= k < |listed| && listed[k].1.name == n
    {
      var i := FindRow(Rows(img.st.entries, img.recs), n);
      var k := SlotIsListed(img.st.entries, i);
    }
  }

  lemma HealthyKeyring(c: Suite, img: Image, admin: bool)
    requires Healthy(c, img)
    ensures |img.recs| == |img.st.entries| && Distinct(KeyringRows(img.st.recipients))
    ensures ModelOf(img, admin).grants == AsMap(KeyringRows(img.st.recipients))
  {
    HealthySize(c, img);
  }

  lemma KeyringLookup(rs: seq<RecipientSlot>, signing: Arr32, i: nat)
    requires Distinct(KeyringRows(rs)) && i <= |rs|
    requires i < |rs| ==> rs[i].Occupied() && rs[i].signing == signing
    requires i == |rs| ==> forall j | 0 <= j < |rs| :: rs[j].Occupied() ==> rs[j].signing != signing
    ensures signing in AsMap(KeyringRows(rs)) <==> i < |rs|
  {
    if i < |rs| {
      RowInMap(KeyringRows(rs), i);
    } else {
      NotInMap(KeyringRows(rs), signing);
    }
  }

  lemma KeyringFull(rs: seq<RecipientSlot>)
    requires Distinct(KeyringRows(rs))
    ensures |AsMap(KeyringRows(rs))| == |rs| <==> forall i | 0 <= i < |rs| :: rs[i].Occupied()
  {
    var t := KeyringRows(rs);
    FullTable(t);
    assert forall i | 0 <= i < |t| :: t[i].Some? <==> rs[i].Occupied();
  }

  lemma GrantedIsListed(rs: seq<RecipientSlot>, peer: PeerId)
    requires Distinct(KeyringRows(rs))
    ensures (peer.signing in AsMap(KeyringRows(rs)) && AsMap(KeyringRows(rs))[peer.signing] == peer.encryption)
       <==> exists j :: 0 <= j < |rs| && rs[j].Occupied() && PeerId(rs[j].signing, rs[j].encryption) == peer
  {
    var t := KeyringRows(rs);
    if peer.signing in AsMap(t) {
      var j := FindRow(t, peer.signing);
      assert rs[j].Occupied() && rs[j].signing == peer.signing;
    }
    if j :| 0 <= j < |rs| && rs[j].Occupied() && PeerId(rs[j].signing, rs[j].encryption) == peer {
      RowInMap(t, j);
    }
  }

  lemma NewSignedIsValid(c: Suite, r: ChainRecord, h: Header, op: ChainOp, targetId: u128, dataHash: Arr32, ts: i64, who: Identity)
    requires r == NewSigned(c, h.layout.chainNextSeq, h.layout.chainLastHash, op, targetId, dataHash, ts, who)
    requires c.signPub(who.signSecret) == h.keys.adminSigning
    ensures r.seqNo == h.layout.chainNextSeq && r.prevHash == h.layout.chainLastHash
    ensures VerifySelf(c, r) && c.verify(h.keys.adminSigning, r.recordHash, r.signature)
  {
  }

  /** The stores agree except for the entry in one slot. */
  predicate SameButEntry(st: Store, mid: Store, slot: nat)
    requires slot < |mid.entries|
  {
    |st.entries| == |mid.entries| && mid == st.(entries := st.entries[slot := mid.entries[slot]])
  }

  lemma Describing(c: Suite, e: FileEntry, rec: FileRec)
    requires rec.Shaped() && e.size == |rec.data| && e.fileHash == c.hash(rec.data) && e.blocksUsed == |rec.blocks| % U32
    requires forall j | 0 <= j < DIRECT_BLOCKS :: e.direct[j] == if j < rec.D() then rec.blocks[j] else 0
    requires e.overflow == NextIndex(rec, 0)
    ensures Describes(c, e, rec)
  {
  }

  /** Storing a file and logging the operation, on images. */
  lemma StoreAndAdvance(c: Suite, img: Image, i: nat, e: FileEntry, rec: FileRec, bitmap: bytes, blocks: seq<BlockImage>,
                        op: ChainOp, ts: i64, who: Identity) returns (img': Image)
    requires Healthy(c, img) && i < |img.st.entries| && !img.st.entries[i].Occupied() && e.Occupied()
    requires |img.recs| == |img.st.entries| && e.name !in FilesOf(ShelfOf(img)) && Describes(c, e, rec) && |bitmap| == |img.st.bitmap|
    requires Stored(c, img.key, e.id, rec, img.st.blocks, blocks)
    requires IsLowest(rec.blocks, FreeSet(img.st.bitmap, |img.st.blocks|), |rec.blocks|)
    requires forall b: nat :: Bit(bitmap, b) <==> Bit(img.st.bitmap, b) || b in rec.blocks
    requires img.st.header.layout.chainNextSeq + 1 < U64 && c.signPub(who.signSecret) == img.st.header.keys.adminSigning
    ensures Healthy(c, img') && img'.key == img.key && |img'.recs| == |img'.st.entries|
    ensures LogsAs(c, img.st.header.layout, who, img.history, img'.history, op, e.id, e.fileHash, ts)
    ensures |img.st.chain| > 0
         && img'.st == Appended(img.st.(entries := img.st.entries[i := e], bitmap := bitmap, blocks := blocks),
                                NewSigned(c, img.st.header.layout.chainNextSeq, img.st.header.layout.chainLastHash, op,
                                          e.id, e.fileHash, ts, who))
    ensures forall admin :: ModelOf(img', admin)
                         == ModelOf(img, admin).(files := ModelOf(img, admin).files[e.name := rec.data],
                                                 nextSeq := img.st.header.layout.chainNextSeq + 1)
  {
    HealthySize(c, img);
    hide Healthy, ModelOf, Describes, Stored, Bit, NewSigned, Window, Genuine;
    var record := NewSigned(c, img.st.header.layout.chainNextSeq, img.st.header.layout.chainLastHash, op,
                            e.id, e.fileHash, ts, who);
    LowestAreFree(rec.blocks, FreeSet(img.st.bitmap, |img.st.blocks|), |rec.blocks|);
    StoreStep(c, img, i, e, rec, bitmap, blocks);
    var mid := WithShelf(img, WithFile(ShelfOf(img), i, e, rec, bitmap, blocks));
    Advance(c, mid, record);
    LoggedAs(c, img.st.header.layout, who, img.history, op, e.id, e.fileHash, ts);
    hide LogsAs;
    img' := Advanced(mid, record);
  }

  lemma AllottedIsShaped(rec: FileRec, available: set<nat>, n: nat, bits: bytes)
    requires |rec.data| < U63 && IsLowest(rec.blocks, available, Need(|rec.data|)) && Need(|rec.data|) <= |available|
    requires available == FreeSet(bits, n)
    ensures rec.Shaped() && forall p | 0 <= p < |rec.blocks| :: rec.blocks[p] in available && rec.blocks[p] < n
  {
    forall p | 0 <= p < |rec.blocks|
      ensures rec.blocks[p] in available
    {
      assert rec.blocks[p] in Members(rec.blocks);
    }
  }

  lemma AllottedBits(rec: FileRec, before: bytes, after: bytes)
    requires rec.Shaped()
    requires forall j: nat :: Bit(after, j) <==> Bit(before, j) || j in Members(rec.blocks)
    ensures forall b: nat :: Bit(after, b) <==> Bit(before, b) || b in rec.blocks
  {
    hide Bit;
  }

  lemma NoProgressYet(c: Suite, k: Key, id: u128, rec: FileRec, before: seq<BlockImage>)
    requires rec.Shaped()
    ensures Progress(c, k, id, rec, before, before, 0)
  {
  }

  lemma AllProgress(c: Suite, k: Key, id: u128, rec: FileRec, before: seq<BlockImage>, now: seq<BlockImage>)
    requires rec.Shaped() && Progress(c, k, id, rec, before, now, |rec.blocks|)
    ensures Stored(c, k, id, rec, before, now) && |now| == |before|
  {
    hide BlockBytes, Payload;
  }

  lemma AllProgressSize(c: Suite, k: Key, id: u128, rec: FileRec, before: seq<BlockImage>, now: seq<BlockImage>, n: nat)
    requires rec.Shaped() && n <= |rec.blocks| && Progress(c, k, id, rec, before, now, n)
    ensures |now| == |before|
  {
    hide BlockBytes, Payload;
  }

  lemma ReadableShape(c: Suite, k: Key, blocks: seq<BlockImage>, e: FileEntry, rec: FileRec)
    requires Readable(c, k, blocks, e, rec)
    ensures rec.Shaped() && e.size == |rec.data| && e.fileHash == c.hash(rec.data) && e.overflow == NextIndex(rec, 0)
    ensures forall j | 0 <= j < DIRECT_BLOCKS :: e.direct[j] == if j < rec.D() then rec.blocks[j] else 0
  {
    hide BlockBytes, Payload;
  }

  /** Opening block number `p` of a readable file yields its payload. */
  lemma BlockReads(c: Suite, k: Key, blocks: seq<BlockImage>, e: FileEntry, rec: FileRec, p: nat)
    requires Readable(c, k, blocks, e, rec) && p < |rec.blocks|
    ensures rec.blocks[p] < |blocks| && OpenBlock(c, k, e.id, rec.blocks[p], blocks[rec.blocks[p]]) == Ok(Payload(rec, p))
  {
    hide BlockBytes, Payload, OpenBlock;
    OpenBlockBytes(c, k, e.id, rec.blocks[p], Payload(rec, p));
  }

  lemma PayloadOfIndex(rec: FileRec, j: nat)
    requires rec.Shaped() && j <= IndexBlocks(rec.D()) && NextIndex(rec, j) != 0
    ensures j < IndexBlocks(rec.D()) && rec.D() + j < |rec.blocks| && NextIndex(rec, j) == rec.blocks[rec.D() + j]
    ensures Payload(rec, rec.D() + j) == IndexPayload(NextIndex(rec, j + 1), IndexPart(rec, j))
  {
  }

  lemma OpenIndexIsParse(c: Suite, k: Key, id: u128, i: nat, img: BlockImage, p: bytes)
    requires OpenBlock(c, k, id, i, img) == Ok(p)
    ensures OpenIndex(c, k, id, i, img) == ParseIndex(p)
  {
    hide OpenBlock, ParseIndex;
  }

  lemma IndexBlockReads(c: Suite, k: Key, blocks: seq<BlockImage>, e: FileEntry, rec: FileRec, j: nat)
    requires Readable(c, k, blocks, e, rec) && rec.Shaped() && j <= IndexBlocks(rec.D()) && NextIndex(rec, j) != 0
    ensures j < IndexBlocks(rec.D()) && NextIndex(rec, j) < |blocks|
    ensures OpenIndex(c, k, e.id, NextIndex(rec, j), blocks[NextIndex(rec, j)])
         == Ok((NextIndex(rec, j + 1), IndexPart(rec, j)))
  {
    hide *;
    PayloadOfIndex(rec, j);
    BlockReads(c, k, blocks, e, rec, rec.D() + j);
    IndexRoundTrip(NextIndex(rec, j + 1), IndexPart(rec, j));
    OpenIndexIsParse(c, k, e.id, NextIndex(rec, j), blocks[NextIndex(rec, j)],
                     IndexPayload(NextIndex(rec, j + 1), IndexPart(rec, j)));
  }

  /** The data blocks known after `j` index blocks. */
  function DataPrefix(rec: FileRec, j: nat): seq<u64>
    requires rec.Shaped()
  {
    rec.blocks[..Min(DIRECT_BLOCKS + PER_INDEX * j, rec.D())]
  }

  lemma DirectPrefix(e: FileEntry, rec: FileRec)
    requires rec.Shaped()
    requires forall j | 0 <= j < DIRECT_BLOCKS :: e.direct[j] == if j < rec.D() then rec.blocks[j] else 0
    ensures e.direct[..Min(rec.D(), DIRECT_BLOCKS)] == DataPrefix(rec, 0)
  {
  }

  lemma PrefixStep(rec: FileRec, j: nat)
    requires rec.Shaped() && j < IndexBlocks(rec.D())
    ensures DataPrefix(rec, j + 1) == DataPrefix(rec, j) + IndexPart(rec, j)
  {
    IndexPartBounds(rec, j);
  }

  /** The first `j` index blocks. */
  function IndexPrefix(rec: FileRec, j: nat): seq<u64>
    requires rec.Shaped() && j <= IndexBlocks(rec.D())
  {
    rec.blocks[rec.D()..rec.D() + j]
  }

  lemma IndexPrefixStep(rec: FileRec, j: nat)
    requires rec.Shaped() && j < IndexBlocks(rec.D())
    ensures IndexPrefix(rec, j + 1) == IndexPrefix(rec, j) + [NextIndex(rec, j)]
  {
  }

  /** After `j` index blocks, the walk has listed them and every data block they lead to. */
  ghost predicate Gathered(rec: FileRec, j: nat, all: seq<u64>)
    requires rec.Shaped() && j <= IndexBlocks(rec.D())
  {
    && |all| == |DataPrefix(rec, j)| + j
    && forall b :: b in all <==> b in DataPrefix(rec, j) + IndexPrefix(rec, j)
  }

  lemma GatherDirect(e: FileEntry, rec: FileRec)
    requires rec.Shaped()
    requires forall j | 0 <= j < DIRECT_BLOCKS :: e.direct[j] == if j < rec.D() then rec.blocks[j] else 0
    ensures Gathered(rec, 0, e.direct[..Min(rec.D(), DIRECT_BLOCKS)])
  {
    DirectPrefix(e, rec);
    assert DataPrefix(rec, 0) + IndexPrefix(rec, 0) == DataPrefix(rec, 0);
  }

  lemma Regroup(all: seq<u64>, p: seq<u64>, i: seq<u64>, next: u64, part: seq<u64>)
    requires forall b :: b in all <==> b in p + i
    ensures forall b :: b in all + [next] + part <==> b in (p + part) + (i + [next])
  {
  }

  lemma GatherOne(rec: FileRec, j: nat, all: seq<u64>)
    requires rec.Shaped() && j < IndexBlocks(rec.D()) && Gathered(rec, j, all)
    ensures Gathered(rec, j + 1, all + [NextIndex(rec, j)] + IndexPart(rec, j))
  {
    PrefixStep(rec, j);
    IndexPrefixStep(rec, j);
    hide DataPrefix, IndexPrefix, NextIndex, IndexPart;
    Regroup(all, DataPrefix(rec, j), IndexPrefix(rec, j), NextIndex(rec, j), IndexPart(rec, j));
  }

  lemma GatheredAll(rec: FileRec, j: nat, all: seq<u64>)
    requires rec.Shaped() && j == IndexBlocks(rec.D()) && Gathered(rec, j, all)
    requires Min(DIRECT_BLOCKS + PER_INDEX * j, rec.D()) == rec.D()
    ensures |all| == |rec.blocks| && forall b :: b in all <==> b in rec.blocks
  {
    assert DataPrefix(rec, j) + IndexPrefix(rec, j) == rec.blocks;
  }

  /** The walk ends only after the last index block. */
  lemma WholeChain(rec: FileRec, j: nat)
    requires rec.Shaped() && j <= IndexBlocks(rec.D()) && NextIndex(rec, j) == 0
    ensures j == IndexBlocks(rec.D()) && Min(DIRECT_BLOCKS + PER_INDEX * j, rec.D()) == rec.D()
  {
    if j < IndexBlocks(rec.D()) {
      IndexChainAscends(rec, j);
    }
  }

  lemma OneMoreIndex(p: bytes, n: nat)
    requires INDEX_HEADER + 8 * n + 8 <= |p|
    ensures UnLeSeq(Slice(p, INDEX_HEADER, 8 * (n + 1)), n + 1)
         == UnLeSeq(Slice(p, INDEX_HEADER, 8 * n), n) + [U64Of(Slice(p, INDEX_HEADER + 8 * n, 8))]
  {
    var s := Slice(p, INDEX_HEADER, 8 * (n + 1));
    assert s[..8 * n] == Slice(p, INDEX_HEADER, 8 * n);
    assert s[8 * n..] == Slice(p, INDEX_HEADER + 8 * n, 8);
  }

  lemma SliceOfList<T>(s: seq<T>, a: nat, b: nat, lo: nat, hi: nat)
    requires a <= b <= |s| && lo <= hi <= b - a
    ensures s[a..b][lo..hi] == s[a + lo..a + hi]
  {
    forall k | 0 <= k < hi - lo
      ensures s[a..b][lo..hi][k] == s[a + lo..a + hi][k]
    {
    }
  }

  /** Cutting the remaining pointers into lists of 508 gives what each index block holds. */
  lemma IndexChunks(rec: FileRec, remaining: seq<u64>, i: nat)
    requires rec.Shaped() && i < IndexBlocks(rec.D()) && remaining == rec.blocks[DIRECT_BLOCKS..rec.D()]
    ensures PER_INDEX * i <= |remaining|
    ensures remaining[PER_INDEX * i..Min(PER_INDEX * (i + 1), |remaining|)] == IndexPart(rec, i)
  {
    IndexPartBounds(rec, i);
    var lo, hi := PER_INDEX * i, Min(PER_INDEX * (i + 1), |remaining|);
    assert hi + DIRECT_BLOCKS == IndexEnd(rec.D(), i);
    SliceOfList(rec.blocks, DIRECT_BLOCKS, rec.D(), lo, hi);
  }

  /** The next index block to write, and what goes into it. */
  lemma IndexStep(rec: FileRec, remaining: seq<u64>, indexBlocks: seq<u64>, i: nat)
    requires rec.Shaped() && rec.D() > DIRECT_BLOCKS && i < |indexBlocks|
    requires remaining == rec.blocks[DIRECT_BLOCKS..rec.D()] && indexBlocks == rec.blocks[rec.D()..]
    ensures PER_INDEX * i <= Min(PER_INDEX * (i + 1), |remaining|) <= |remaining|
    ensures var part := remaining[PER_INDEX * i..Min(PER_INDEX * (i + 1), |remaining|)];
            var next := if i + 1 < |indexBlocks| then indexBlocks[i + 1] else 0;
            && |part| <= PER_INDEX && rec.D() + i < |rec.blocks| && indexBlocks[i] == rec.blocks[rec.D() + i]
            && IndexPayload(next, part) == Payload(rec, rec.D() + i)
  {
    IndexChunks(rec, remaining, i);
    hide IndexPayload;
  }

  lemma RegionOfRepresented(c: Suite, file: bytes, st: Store)
    requires Represents(c, file, st)
    ensures |st.chain| > 0 && RegionOf(file, Geo(st)) == AsRegion(st.chain)
  {
    forall j | 0 <= j < |st.chain|
      ensures RegionOf(file, Geo(st))[j] == Ok(st.chain[j])
    {
      ReadChainCell(c, file, st, j);
    }
  }

  lemma Written(c: Suite, file: bytes, st: Store, st': Store, x: Cell, offset: nat, data: bytes)
    requires Represents(c, file, st) && OneCell(c, st, st', x, offset, data)
    ensures Represents(c, Splice(file, offset, data), st') && Geo(st') == Geo(st)
    ensures Has(Geo(st), x) && offset == Off(Geo(st), x) < U64 && |data| == Len(Geo(st), x)
  {
    WriteCell(c, file, st, st', x, offset, data);
    CellsDisjoint(Geo(st), x, x);
  }

  /** Moving the anchor leaves the geometry alone. */
  lemma AnchorMoves(h: Header, g: Geometry, r: ChainRecord)
    requires LaidOut(h, g) && h.layout.chainNextSeq + 1 < U64
    ensures LaidOut(h.(layout := h.layout.(chainNextSeq := h.layout.chainNextSeq + 1, chainLastHash := r.recordHash)), g)
  {
  }

  class Vault {
    const c: Suite
    var file: bytes
    var header: Header
    var allocator: BlockAllocator
    var key: Key
    var admin: Option<Identity>
    var changeLog: seq<Range>

    /** The records the file holds, the healthy vault it was after the last completed operation, and
        the file as it was when the change log was last taken. */
    ghost var st: Store
    ghost var img: Image
    ghost var base: bytes

    /** The file represents `st` and the log accounts for every change. */
    ghost predicate Io()
      reads this`file, this`header, this`st, this`base, this`changeLog
    {
      && Represents(c, file, st) && LaidOut(header, Geo(st))
      && Logged(Geo(st), base, changeLog, file)
    }

    /** A handle over given bytes; the ghost arguments say what they are taken to hold. */
    constructor (c: Suite, file: bytes, header: Header, allocator: BlockAllocator, key: Key, admin: Option<Identity>,
                 ghost g: Image)
      ensures this.c == c && this.file == file && this.header == header && this.allocator == allocator
      ensures this.key == key && this.admin == admin && this.changeLog == []
      ensures this.st == g.st && this.img == g && this.base == file
    {
      this.c, this.file, this.header, this.allocator := c, file, header, allocator;
      this.key, this.admin, this.changeLog := key, admin, [];
      this.st, this.img, this.base := g.st, g, file;
    }

    lemma IoSizes()
      requires Io()
      ensures header.meta.blockSize == BLOCK_SIZE && header.meta.blockCount == |st.blocks| < U64
      ensures header.layout.maxFiles == |st.entries| && header.layout.maxRecipients == |st.recipients| == MAX_RECIPIENTS
      ensures header.layout.maxChainRecords == |st.chain| > 0 && Shaped(st)
    {
    }

    // ----- low-level region I/O

    /** Writes `data` at `offset` and records the range in the change log. The ghost arguments say
        which record this is. */
    method WriteAt(offset: nat, data: bytes, ghost x: Cell, ghost st': Store)
      requires Io() && OneCell(c, st, st', x, offset, data)
      modifies this`file, this`changeLog, this`st
      ensures Io() && st == st' && Geo(st) == old(Geo(st))
      ensures offset < U64 && changeLog == old(changeLog) + [(offset, data)]
    {
      hide Represents, OneCell, Logged, Splice, LaidOut, Has, Off, Len;
      Written(c, file, st, st', x, offset, data);
      LogOneMore(Geo(st), base, changeLog, file, x, data);
      file := Splice(file, offset, data);
      changeLog := changeLog + [(offset, data)];
      st := st';
    }

    method WriteHeader()
      requires Io()
      modifies this`file, this`changeLog, this`st
      ensures Io() && st == old(st).(header := header)
      ensures old(changeLog) <= changeLog && |changeLog| == |old(changeLog)| + 1
    {
      SetHeader(c, st, header);
      hide Represents, Logged, OneCell, LaidOut;
      var encoded := EncodeHeader(c, header);
      WriteAt(0, encoded, HeaderCell, st.(header := header));
    }

    method WriteBitmap()
      requires Io() && |allocator.bits| == BitmapLen(|st.blocks|)
      modifies this`file, this`changeLog, this`st
      ensures Io() && st == old(st).(bitmap := allocator.bits)
      ensures old(changeLog) <= changeLog && |changeLog| == |old(changeLog)| + 1
    {
      SetBitmap(c, st, allocator.bits);
      var offset := header.layout.bitmapOffset;
      hide Represents, Logged, OneCell, LaidOut;
      WriteAt(offset, allocator.bits, BitmapCell, st.(bitmap := allocator.bits));
    }

    function SlotOffset(i: nat): nat
      reads this
    {
      header.layout.fileTableOffset + i * header.layout.entrySize
    }

    method ReadSlot(i: nat) returns (r: Result<FileEntry>)
      requires Io() && i < |st.entries|
      ensures r == Ok(st.entries[i])
    {
      hide Represents, Logged, LaidOut, Off, Slice, ParseEntry;
      ReadEntryCell(c, file, st, i);
      SlotsAreCells(header, Geo(st), i);
      var buf := Slice(file, SlotOffset(i), header.layout.entrySize);
      r := DecodeEntry(c, buf);
    }

    method WriteSlot(i: nat, e: FileEntry)
      requires Io() && i < |st.entries|
      modifies this`file, this`changeLog, this`st
      ensures Io() && st == old(st).(entries := old(st).entries[i := e])
      ensures old(changeLog) <= changeLog && |changeLog| == |old(changeLog)| + 1
    {
      SetEntry(c, st, i, e);
      var offset := SlotOffset(i);
      assert offset == Off(Geo(st), EntryCell(i));
      hide Represents, Logged, OneCell, LaidOut, Off;
      var encoded := EncodeEntry(c, e);
      WriteAt(offset, encoded, EntryCell(i), st.(entries := st.entries[i := e]));
    }

    function RecipientSlotOffset(i: nat): nat
      reads this
    {
      header.layout.recipientOffset + i * header.layout.recipientSlotSize
    }

    method ReadRecipientSlot(i: nat) returns (r: Result<RecipientSlot>)
      requires Io() && i < |st.recipients|
      ensures r == Ok(st.recipients[i])
    {
      hide Represents, Logged, LaidOut, Off, Slice, ParseRecipient;
      ReadRecipientCell(c, file, st, i);
      SlotsAreCells(header, Geo(st), i);
      var buf := Slice(file, RecipientSlotOffset(i), header.layout.recipientSlotSize);
      r := DecodeRecipient(c, buf);
    }

    method WriteRecipientSlot(i: nat, s: RecipientSlot)
      requires Io() && i < |st.recipients|
      modifies this`file, this`changeLog, this`st
      ensures Io() && st == old(st).(recipients := old(st).recipients[i := s])
      ensures old(changeLog) <= changeLog && |changeLog| == |old(changeLog)| + 1
    {
      SetRecipient(c, st, i, s);
      var offset := RecipientSlotOffset(i);
      assert offset == Off(Geo(st), RecipientCell(i));
      hide Represents, Logged, OneCell, LaidOut, Off;
      var encoded := EncodeRecipient(c, s);
      WriteAt(offset, encoded, RecipientCell(i), st.(recipients := st.recipients[i := s]));
    }

    function ChainSlotOffset(seqNo: nat): nat
      requires header.layout.maxChainRecords > 0
      reads this
    {
      header.layout.chainOffset + seqNo % header.layout.maxChainRecords * header.layout.chainRecordSize
    }

    /** Reads a chain slot of any file of the right shape. */
    method ReadChainSlotAtSeq(seqNo: nat, ghost g: Geometry) returns (r: Result<Option<ChainRecord>>)
      requires LaidOut(header, g) && |file| == g.Total()
      ensures r == RingAt(RegionOf(file, g), seqNo)
    {
      CellsDisjoint(g, ChainCell(seqNo % g.chainSlots), ChainCell(seqNo % g.chainSlots));
      var buf := Slice(file, ChainSlotOffset(seqNo), header.layout.chainRecordSize);
      hide ParseRecord;
      r := DecodeRecord(buf);
    }

    method WriteChainSlot(seqNo: nat, record: ChainRecord)
      requires Io()
      modifies this`file, this`changeLog, this`st
      ensures Io() && |old(st).chain| > 0
      ensures st == old(st).(chain := old(st).chain[seqNo % |old(st).chain| := Some(record)])
      ensures old(changeLog) <= changeLog && |changeLog| == |old(changeLog)| + 1
    {
      var i := seqNo % |st.chain|;
      SetChain(c, st, i, record);
      var offset := ChainSlotOffset(seqNo);
      assert offset == Off(Geo(st), ChainCell(i));
      hide Represents, Logged, OneCell, LaidOut, Off;
      var encoded := EncodeRecord(record);
      WriteAt(offset, encoded, ChainCell(i), st.(chain := st.chain[i := Some(record)]));
    }

    /** Advances the sequence number and the anchor hash, in memory and on disk. */
    method MoveAnchor(record: ChainRecord)
      requires Io() && header.layout.chainNextSeq + 1 < U64
      modifies this`file, this`changeLog, this`st, this`header
      ensures Io() && st == old(st).(header := header)
      ensures header == old(header).(layout := old(header).layout.(
                          chainNextSeq := old(header).layout.chainNextSeq + 1, chainLastHash := record.recordHash))
      ensures old(changeLog) <= changeLog && |changeLog| == |old(changeLog)| + 1
    {
      AnchorMoves(header, Geo(st), record);
      hide Represents, Logged, LaidOut;
      header := header.(layout := header.layout.(
                  chainNextSeq := header.layout.chainNextSeq + 1, chainLastHash := record.recordHash));
      WriteHeader();
    }

    /** Appends an admin-signed record to the ring and moves the header's anchor. */
    method AppendSignedChainRecord(op: ChainOp, targetId: u128, dataHash: Arr32, ts: i64) returns (ghost rec: ChainRecord)
      requires Io() && header == st.header && admin.Some? && header.layout.chainNextSeq + 1 < U64
      modifies this`file, this`changeLog, this`st, this`header
      ensures Io() && header == st.header
      ensures rec == NewSigned(c, old(header).layout.chainNextSeq, old(header).layout.chainLastHash, op, targetId,
                               dataHash, ts, admin.value)
      ensures rec.seqNo == old(header).layout.chainNextSeq && rec.prevHash == old(header).layout.chainLastHash
      ensures rec.op == op && rec.targetId == targetId && rec.dataHash == dataHash && rec.timestamp == ts
      ensures rec.recordHash == c.hash(HashInput(rec)) && rec.signature == c.sign(admin.value.signSecret, rec.recordHash)
      ensures |old(st).chain| > 0 && st == Appended(old(st), rec)
      ensures st.chain == old(st).chain[rec.seqNo % |old(st).chain| := Some(rec)]
      ensures header.layout.chainNextSeq == rec.seqNo + 1 && header.layout.chainLastHash == rec.recordHash
      ensures old(changeLog) <= changeLog && |changeLog| == |old(changeLog)| + 2
    {
      hide Io, NewSigned;
      IoSizes();
      var seqNo, prevHash := header.layout.chainNextSeq, header.layout.chainLastHash;
      var record := NewSigned(c, seqNo, prevHash, op, targetId, dataHash, ts, admin.value);
      rec := record;
      WriteChainSlot(seqNo, record);
      MoveAnchor(record);
    }

    // ----- block-level I/O

    method WritePhysicalBlock(i: u64, id: u128, plaintext: bytes) returns (r: Result<()>)
      requires Io() && i < |st.blocks|
      modifies this`file, this`changeLog, this`st
      ensures r == if |plaintext| <= CHUNK then Ok(()) else Err(CorruptContainer)
      ensures Io() && old(changeLog) <= changeLog
      ensures r.Ok? ==> st == old(st).(blocks := old(st).blocks[i := BlockBytes(c, key, id, i, plaintext)])
      ensures r.Err? ==> st == old(st) && changeLog == old(changeLog) && file == old(file)
    {
      var ciphertext := c.encBlock(key, id, i, plaintext);
      DecBlockOfEncBlock(c, key, id, i, plaintext);
      var blockSize := header.meta.blockSize;
      if 4 + |ciphertext| > blockSize {
        return Err(CorruptContainer);
      }
      var buf := Le(|plaintext|, 4) + ciphertext + Zeros(blockSize - 4 - |ciphertext|);
      assert buf == BlockBytes(c, key, id, i, plaintext);
      SetBlock(c, st, i, buf);
      var offset := header.layout.dataOffset + i * blockSize;
      assert offset == Off(Geo(st), BlockCell(i));
      hide Represents, Logged, OneCell, LaidOut, Off, BlockBytes;
      WriteAt(offset, buf, BlockCell(i), st.(blocks := st.blocks[i := buf]));
      r := Ok(());
    }

    lemma IoBlockAt(i: u64)
      requires Io()
      ensures var offset := header.layout.dataOffset + i * BLOCK_SIZE;
              && (offset + BLOCK_SIZE <= |file| <==> i < |st.blocks|)
              && (i < |st.blocks| ==> Slice(file, offset, BLOCK_SIZE) == st.blocks[i])
    {
      if i < |st.blocks| {
        ReadBlockCell(c, file, st, i);
      }
    }

    method ReadPhysicalBlock(i: u64, id: u128) returns (r: Result<bytes>)
      requires Io()
      ensures r == if i < |st.blocks| then OpenBlock(c, key, id, i, st.blocks[i]) else Err(IoError)
    {
      hide Io;
      IoSizes();
      IoBlockAt(i);
      var blockSize := header.meta.blockSize;
      var offset := header.layout.dataOffset + i * blockSize;
      if offset + blockSize > |file| {
        return Err(IoError);
      }
      var buf := Slice(file, offset, blockSize);
      var plainLen := U32Of(Slice(buf, 0, 4));
      if 4 + plainLen > blockSize {
        return Err(CorruptContainer);
      }
      if plainLen + 16 > blockSize - 4 {
        return Err(CorruptContainer);
      }
      var plain := c.decBlock(key, id, i, Slice(buf, 4, plainLen + 16));
      r := if plain.Some? then Ok(plain.value) else Err(CorruptContainer);
    }

    // ----- index blocks

    function PlainChunkLen(): int
      reads this
    {
      header.meta.blockSize - 20
    }

    function IndexBlockCapacity(): int
      reads this
    {
      (PlainChunkLen() - INDEX_HEADER) / 8
    }

    method WriteIndexBlock(i: u64, id: u128, next: u64, indices: IndexList) returns (r: Result<()>)
      requires Io() && i < |st.blocks|
      modifies this`file, this`changeLog, this`st
      ensures r == Ok(()) && Io() && old(changeLog) <= changeLog
      ensures st == old(st).(blocks := old(st).blocks[i := BlockBytes(c, key, id, i, IndexPayload(next, indices))])
    {
      hide Io, BlockBytes;
      var payload := Le(next, 8) + Le(|indices|, 4);
      ghost var head := payload;
      for n := 0 to |indices|
        invariant payload == head + LeSeq(indices[..n])
      {
        assert indices[..n + 1][..n] == indices[..n];
        payload := payload + Le(indices[n], 8);
      }
      assert indices[..|indices|] == indices;
      r := WritePhysicalBlock(i, id, payload);
    }

    method ReadIndexBlock(i: u64, id: u128) returns (r: Result<(u64, seq<u64>)>)
      requires Io()
      ensures r == if i < |st.blocks| then OpenIndex(c, key, id, i, st.blocks[i]) else Err(IoError)
    {
      var payload :- ReadPhysicalBlock(i, id);
      hide Represents, Logged, LaidOut, OpenBlock;
      if |payload| < INDEX_HEADER {
        return Err(CorruptContainer);
      }
      var next := U64Of(Slice(payload, 0, 8));
      var count := U32Of(Slice(payload, 8, 4));
      var indices: seq<u64> := [];
      for n := 0 to count
        invariant INDEX_HEADER + 8 * n <= |payload|
        invariant indices == UnLeSeq(Slice(payload, INDEX_HEADER, 8 * n), n)
      {
        var pos := INDEX_HEADER + 8 * n;
        if pos + 8 > |payload| {
          return Err(CorruptContainer);
        }
        OneMoreIndex(payload, n);
        indices := indices + [U64Of(Slice(payload, pos, 8))];
      }
      r := Ok((next, indices));
    }

    // ----- storing contents

    /** A file that is about to be stored on the blocks it was allotted. */
    ghost predicate Placed(rec: FileRec)
      reads this`st
    {
      rec.Shaped() && forall p | 0 <= p < |rec.blocks| :: rec.blocks[p] < |st.blocks|
    }

    method StoreDataBlocks(data: bytes, dataBlocks: seq<u64>, id: u128, ghost rec: FileRec, ghost before: seq<BlockImage>)
      returns (r: Result<()>)
      requires Io() && Placed(rec) && rec.data == data && dataBlocks == rec.blocks[..rec.D()]
      requires Progress(c, key, id, rec, before, st.blocks, 0)
      modifies this`file, this`changeLog, this`st
      ensures r == Ok(()) && Io() && old(changeLog) <= changeLog
      ensures st == old(st).(blocks := st.blocks) && Progress(c, key, id, rec, before, st.blocks, rec.D())
    {
      hide Io, Progress, BlockBytes;
      IoSizes();
      var chunkLen := PlainChunkLen();
      for i := 0 to |dataBlocks|
        invariant Io() && old(changeLog) <= changeLog
        invariant st == old(st).(blocks := st.blocks) && |st.blocks| == |old(st).blocks|
        invariant Progress(c, key, id, rec, before, st.blocks, i)
      {
        var start := i * chunkLen;
        var end := Min((i + 1) * chunkLen, |data|);
        assert data[start..end] == Payload(rec, i) && dataBlocks[i] == rec.blocks[i];
        ProgressStep(c, key, id, rec, before, st.blocks, i);
        var _ :- WritePhysicalBlock(dataBlocks[i], id, data[start..end]);
      }
      r := Ok(());
    }

    method StoreIndexBlocks(remaining: seq<u64>, indexBlocks: seq<u64>, id: u128, ghost rec: FileRec,
                            ghost before: seq<BlockImage>) returns (r: Result<()>)
      requires Io() && Placed(rec) && rec.D() > DIRECT_BLOCKS
      requires remaining == rec.blocks[DIRECT_BLOCKS..rec.D()] && indexBlocks == rec.blocks[rec.D()..]
      requires Progress(c, key, id, rec, before, st.blocks, rec.D())
      modifies this`file, this`changeLog, this`st
      ensures r == Ok(()) && Io() && old(changeLog) <= changeLog
      ensures st == old(st).(blocks := st.blocks) && Progress(c, key, id, rec, before, st.blocks, |rec.blocks|)
    {
      hide Io, Progress, BlockBytes, IndexPayload, Payload;
      IoSizes();
      var per := IndexBlockCapacity();
      assert per == PER_INDEX;
      for i := 0 to |indexBlocks|
        invariant Io() && old(changeLog) <= changeLog
        invariant st == old(st).(blocks := st.blocks) && |st.blocks| == |old(st).blocks|
        invariant Progress(c, key, id, rec, before, st.blocks, rec.D() + i)
      {
        var next := if i + 1 < |indexBlocks| then indexBlocks[i + 1] else 0;
        IndexStep(rec, remaining, indexBlocks, i);
        var part := remaining[per * i..Min(per * (i + 1), |remaining|)];
        ProgressStep(c, key, id, rec, before, st.blocks, rec.D() + i);
        var _ :- WriteIndexBlock(indexBlocks[i], id, next, part);
      }
      r := Ok(());
    }

    /** Data blocks and total blocks for `n` bytes, computed as the source does. */
    method BlocksNeeded(n: nat) returns (dataBlocks: nat, total: nat)
      requires Io()
      ensures dataBlocks == DataBlocks(n) && total == Need(n) && dataBlocks <= total
    {
      hide Io;
      IoSizes();
      var chunkLen := PlainChunkLen();
      dataBlocks := if n == 0 then 0 else n / chunkLen + if n % chunkLen != 0 then 1 else 0;
      var excess := Max(dataBlocks - DIRECT_BLOCKS, 0);
      var indexBlocks := if excess == 0 then 0 else CeilDiv(excess, IndexBlockCapacity());
      total := dataBlocks + indexBlocks;
    }

    /** Writes the contents on the allotted blocks, then the bitmap. */
    method WriteContent(id: u128, data: bytes, directNeeded: nat, dataBlocks: seq<u64>, indexBlocks: seq<u64>,
                        ghost rec: FileRec) returns (direct: Direct, overflow: u64)
      requires Io() && allocator.Valid() && allocator.blockCount == |st.blocks|
      requires Placed(rec) && rec.data == data && dataBlocks == rec.blocks[..rec.D()] && indexBlocks == rec.blocks[rec.D()..]
      requires directNeeded == Min(rec.D(), DIRECT_BLOCKS)
      modifies this`file, this`changeLog, this`st
      ensures Io() && old(changeLog) <= changeLog
      ensures st == old(st).(blocks := st.blocks, bitmap := allocator.bits) && |st.blocks| == |old(st).blocks|
      ensures Stored(c, key, id, rec, old(st).blocks, st.blocks)
      ensures forall j | 0 <= j < DIRECT_BLOCKS :: direct[j] == if j < rec.D() then rec.blocks[j] else 0
      ensures overflow == NextIndex(rec, 0)
    {
      hide Io, Progress, BlockBytes, Stored;
      ghost var before := st.blocks;
      NoProgressYet(c, key, id, rec, before);
      var w := StoreDataBlocks(data, dataBlocks, id, rec, before);
      direct := dataBlocks[..directNeeded] + seq(DIRECT_BLOCKS - directNeeded, _ => 0);
      overflow := 0;
      AllProgressSize(c, key, id, rec, before, st.blocks, rec.D());
      if |dataBlocks| > directNeeded {
        assert dataBlocks[directNeeded..] == rec.blocks[DIRECT_BLOCKS..rec.D()];
        w := StoreIndexBlocks(dataBlocks[directNeeded..], indexBlocks, id, rec, before);
        overflow := indexBlocks[0];
      }
      AllProgress(c, key, id, rec, before, st.blocks);
      WriteBitmap();
    }

    /** Allots blocks for `data`, writes them and the bitmap; refuses, touching nothing, exactly when
        there are fewer free blocks than the contents need. */
    method StoreNewContent(id: u128, data: bytes) returns (r: Result<(Direct, u64, u32)>, ghost rec: FileRec)
      requires Io() && allocator.Valid() && allocator.blockCount == |st.blocks| && |data| < U63
      modifies this`file, this`changeLog, this`st, allocator`bits
      ensures Io() && allocator.Valid() && old(changeLog) <= changeLog
      ensures r.Ok? <==> Need(|data|) <= |old(allocator.Free())|
      ensures r.Err? ==>
                && r.error == InsufficientSpaceFor(Need(|data|), |old(allocator.Free())|)
                && st == old(st) && file == old(file) && changeLog == old(changeLog)
                && allocator.bits == old(allocator.bits)
      ensures r.Ok? ==>
                && rec.data == data && rec.Shaped() && IsLowest(rec.blocks, old(allocator.Free()), Need(|data|))
                && st == old(st).(blocks := st.blocks, bitmap := allocator.bits) && |st.blocks| == |old(st).blocks|
                && Stored(c, key, id, rec, old(st).blocks, st.blocks)
                && (forall b: nat :: Bit(allocator.bits, b) <==> Bit(old(allocator.bits), b) || b in rec.blocks)
                && (forall j | 0 <= j < DIRECT_BLOCKS :: r.value.0[j] == if j < rec.D() then rec.blocks[j] else 0)
                && r.value.1 == NextIndex(rec, 0) && r.value.2 == |rec.blocks| % U32
    {
      hide Io, Progress, BlockBytes, Stored, IsLowest, Need, FreeSet, Bit;
      var dataBlockCount, totalNeeded := BlocksNeeded(|data|);
      rec := FileRec(data, []);
      var available := allocator.FreeCount();
      if available < totalNeeded {
        return Err(InsufficientSpaceFor(totalNeeded, available)), rec;
      }
      ghost var freeSet, bits := allocator.Free(), allocator.bits;
      var allotted := allocator.Allocate(totalNeeded);
      rec := FileRec(data, allotted);
      AllottedIsShaped(rec, freeSet, |st.blocks|, bits);
      AllottedBits(rec, bits, allocator.bits);
      var direct, overflow := WriteContent(id, data, Min(dataBlockCount, DIRECT_BLOCKS), allotted[..dataBlockCount],
                                           allotted[dataBlockCount..], rec);
      r := Ok((direct, overflow, totalNeeded % U32));
    }

    // ----- finding a file's blocks

    /** The data blocks in order: the direct ones, then every index block's list. */
    method CollectDataBlocks(e: FileEntry, ghost rec: FileRec) returns (r: Result<seq<u64>>)
      requires Io() && Readable(c, key, st.blocks, e, rec)
      ensures r == Ok(rec.blocks[..rec.D()])
    {
      hide Io, Readable, OpenIndex, BlockBytes, Payload, NextIndex, IndexPart, IndexBlocks;
      IoSizes();
      ReadableShape(c, key, st.blocks, e, rec);
      var dataBlockCount := if e.size == 0 then 0 else CeilDiv(e.size, PlainChunkLen());
      DataBlocksIsCeiling(e.size);
      var blocks: seq<u64> := e.direct[..Min(dataBlockCount, DIRECT_BLOCKS)];
      DirectPrefix(e, rec);
      var next := e.overflow;
      ghost var j := 0;
      while next != 0
        invariant j <= IndexBlocks(rec.D()) && next == NextIndex(rec, j) && blocks == DataPrefix(rec, j)
        decreases IndexBlocks(rec.D()) - j
      {
        IndexBlockReads(c, key, st.blocks, e, rec, j);
        PrefixStep(rec, j);
        var more :- ReadIndexBlock(next, e.id);
        blocks := blocks + more.1;
        next := more.0;
        j := j + 1;
      }
      WholeChain(rec, j);
      if |blocks| != dataBlockCount {
        return Err(CorruptContainer);
      }
      r := Ok(blocks);
    }

    /** Every block of the file, data and index. */
    method CollectAllBlocks(e: FileEntry, ghost rec: FileRec) returns (r: Result<seq<u64>>)
      requires Io() && Readable(c, key, st.blocks, e, rec)
      ensures r.Ok? && |r.value| == |rec.blocks| && forall b :: b in r.value <==> b in rec.blocks
    {
      hide Io, Readable, OpenIndex, BlockBytes, Payload, Gathered, NextIndex, IndexPart, IndexBlocks;
      IoSizes();
      ReadableShape(c, key, st.blocks, e, rec);
      var dataBlockCount := if e.size == 0 then 0 else CeilDiv(e.size, PlainChunkLen());
      DataBlocksIsCeiling(e.size);
      var all: seq<u64> := e.direct[..Min(dataBlockCount, DIRECT_BLOCKS)];
      GatherDirect(e, rec);
      var next := e.overflow;
      ghost var j := 0;
      while next != 0
        invariant j <= IndexBlocks(rec.D()) && next == NextIndex(rec, j) && Gathered(rec, j, all)
        decreases IndexBlocks(rec.D()) - j
      {
        IndexBlockReads(c, key, st.blocks, e, rec, j);
        GatherOne(rec, j, all);
        all := all + [next];
        var more :- ReadIndexBlock(next, e.id);
        all := all + more.1;
        next := more.0;
        j := j + 1;
      }
      WholeChain(rec, j);
      GatheredAll(rec, j, all);
      r := Ok(all);
    }

    // ----- file table helpers

    method FindSlotByName(name: Name) returns (r: Result<Option<(nat, FileEntry)>>)
      requires Io()
      ensures r.Ok?
      ensures r.value.Some? ==>
                var (i, e) := r.value.value;
                i < |st.entries| && e == st.entries[i] && e.Occupied() && e.name == name
      ensures r.value.None? ==> forall i | 0 <= i < |st.entries| :: st.entries[i].Occupied() ==> st.entries[i].name != name
    {
      hide Io;
      IoSizes();
      for i := 0 to header.layout.maxFiles
        invariant forall j | 0 <= j < i :: st.entries[j].Occupied() ==> st.entries[j].name != name
      {
        var e :- ReadSlot(i);
        if e.Occupied() && e.name == name {
          return Ok(Some((i, e)));
        }
      }
      r := Ok(None);
    }

    method FindFreeSlot() returns (r: Result<Option<nat>>)
      requires Io()
      ensures r.Ok?
      ensures r.value.Some? ==> r.value.value < |st.entries| && !st.entries[r.value.value].Occupied()
      ensures r.value.None? ==> forall i | 0 <= i < |st.entries| :: st.entries[i].Occupied()
    {
      hide Io;
      IoSizes();
      for i := 0 to header.layout.maxFiles
        invariant forall j | 0 <= j < i :: st.entries[j].Occupied()
      {
        var e :- ReadSlot(i);
        if !e.Occupied() {
          return Ok(Some(i));
        }
      }
      r := Ok(None);
    }

    /** The occupied slots, in slot order. */
    method AllOccupiedEntries() returns (r: Result<seq<(nat, FileEntry)>>)
      requires Io()
      ensures r == Ok(OccupiedEntries(st.entries))
    {
      hide Io;
      IoSizes();
      var out := [];
      for i := 0 to header.layout.maxFiles
        invariant out == OccupiedEntries(st.entries[..i])
      {
        var e :- ReadSlot(i);
        assert st.entries[..i + 1][..i] == st.entries[..i];
        if e.Occupied() {
          out := out + [(i, e)];
        }
      }
      assert st.entries[..|st.entries|] == st.entries;
      r := Ok(out);
    }

    // ----- the vault as a whole

    /** Memory and disk agree with the healthy vault `g`; an admin handle belongs to the recorded admin. */
    ghost predicate ValidFor(g: Image)
      reads this`file, this`header, this`st, this`base, this`changeLog, this`key, this`admin, this`allocator, allocator
    {
      && Io() && g.st == st && Healthy(c, g)
      && header == st.header && key == g.key
      && allocator.Valid() && allocator.bits == st.bitmap && allocator.blockCount == |st.blocks|
      && (admin.Some? ==> c.signPub(admin.value.signSecret) == header.keys.adminSigning)
    }

    ghost predicate Valid()
      reads this, allocator
    {
      ValidFor(img) && |img.recs| == |img.st.entries|
    }

    /** The model this handle stands for. */
    ghost function View(): Model
      requires Valid()
      reads this, allocator
    {
      ModelOf(img, admin.Some?)
    }

    /** The handle carried out `cmd` and answered `r`, exactly as the model does. A refusal leaves the
        file, the memory copies and the change log untouched; an accepted command extends the log. */
    twostate predicate Performed(cmd: Cmd, new r: Result<()>)
      reads this, allocator
    {
      && old(Valid()) && Valid() && allocator == old(allocator) && admin == old(admin)
      && r == Answer(old(View()), cmd) && View() == After(old(View()), cmd)
      && base == old(base) && old(changeLog) <= changeLog && header.keys.adminSigning == old(header).keys.adminSigning
      && (r.Err? ==> file == old(file) && header == old(header) && key == old(key) && changeLog == old(changeLog)
                     && allocator.bits == old(allocator.bits) && img == old(img))
      && (r.Ok? ==> |old(changeLog)| < |changeLog|)
    }

    /** What each mutation has to answer and do. */
    lemma Expected(cmd: Cmd)
      requires Valid()
      ensures Answered(View(), cmd, Answer(View(), cmd), After(View(), cmd))
    {
      HealthyBounds(c, img, admin.Some?);
      hide Io, Healthy, ModelOf, Answer, After, Answered;
      Outcomes(View(), cmd);
    }

    // When each mutation is accepted.

    lemma AddCondition(name: Name, data: bytes)
      requires Valid()
      ensures var m := View();
              Answer(m, Add(name, data)).Ok? <==>
                admin.Some? && 1 <= |name| <= 128 && name !in m.files && |m.files| < m.maxFiles && Need(|data|) <= m.Free()
    {
      Expected(Add(name, data));
      ModelFields(img, admin.Some?);
      hide Io, Healthy, ModelOf, Answer, After, Need;
    }

    lemma UpdateCondition(name: Name, data: bytes)
      requires Valid()
      ensures var m := View();
              Answer(m, Update(name, data)).Ok? <==>
                admin.Some? && name in m.files && Need(|data|) <= m.Free() + Need(|m.files[name]|)
    {
      Expected(Update(name, data));
      ModelFields(img, admin.Some?);
      hide Io, Healthy, ModelOf, Answer, After, Need;
    }

    lemma DeleteCondition(name: Name)
      requires Valid()
      ensures var m := View();
              Answer(m, Delete(name)).Ok? <==>
                admin.Some? && name in m.files
    {
      Expected(Delete(name));
      ModelFields(img, admin.Some?);
      hide Io, Healthy, ModelOf, Answer, After, Need;
    }

    lemma GrantCondition(peer: PeerId)
      requires Valid()
      ensures var m := View();
              Answer(m, Grant(peer)).Ok? <==>
                admin.Some? && peer.signing !in m.grants && |m.grants| < 16
    {
      Expected(Grant(peer));
      ModelFields(img, admin.Some?);
      hide Io, Healthy, ModelOf, Answer, After, Need;
    }

    lemma RevokeCondition(signing: Arr32, password: bytes)
      requires Valid()
      ensures var m := View();
              Answer(m, Revoke(signing, password)).Ok? <==>
                admin.Some? && signing in m.grants
    {
      Expected(Revoke(signing, password));
      ModelFields(img, admin.Some?);
      hide Io, Healthy, ModelOf, Answer, After, Need;
    }

    /** The checks of `add_file` before it stores anything. */
    method AddChecks(name: Name, ghost data: bytes) returns (r: Result<nat>)
      requires Valid()
      ensures r.Err? ==> Refusal(View(), Add(name, data)) == Some(r.error)
      ensures r.Ok? ==>
                && admin.Some? && r.value < |st.entries| && !st.entries[r.value].Occupied()
                && 0 < |name| <= MAX_FILENAME_LEN && name !in View().files
                && Refusal(View(), Add(name, data))
                   == if View().Free() < Need(|data|) then Some(InsufficientSpaceFor(Need(|data|), View().Free())) else None
    {
      hide Io, Healthy, ModelOf, Need;
      HealthySize(c, img);
      ModelFields(img, admin.Some?);
      if admin.None? {
        return Err(NotAuthorized);
      }
      if |name| == 0 || |name| > MAX_FILENAME_LEN {
        return Err(FieldTooLong);
      }
      var found :- FindSlotByName(name);
      if found.Some? {
        HealthyFile(c, img, found.value.0, admin.Some?);
        return Err(FileAlreadyExists(name));
      }
      HealthyNoFile(c, img, name, admin.Some?);
      var slot :- FindFreeSlot();
      HealthyFreeSlots(c, img, admin.Some?);
      if slot.None? {
        return Err(FileTableFull);
      }
      r := Ok(slot.value);
    }

    /** Ready to store a file: memory and disk agree with the healthy vault `mid`, in which `slot` is
        free, except that the entry still in that slot on disk may be another one. */
    ghost predicate Ready(mid: Image, slot: nat)
      reads this`file, this`header, this`st, this`base, this`changeLog, this`key, this`admin, this`allocator, allocator
    {
      && Io() && header == st.header && key == mid.key && header.layout.chainNextSeq + 1 < U64
      && allocator.Valid() && allocator.bits == mid.st.bitmap && allocator.blockCount == |st.blocks|
      && admin.Some? && c.signPub(admin.value.signSecret) == header.keys.adminSigning
      && Healthy(c, mid) && slot < |mid.st.entries| == |mid.recs| && !mid.st.entries[slot].Occupied()
      && SameButEntry(st, mid.st, slot)
    }

    /** The common end of `add_file` and `update_file`: stores the contents, writes the entry and logs
        the operation. */
    method StoreAndLog(slot: nat, id: u128, name: FileName, data: bytes, created: i64, ts: i64, op: ChainOp, ghost mid: Image)
      returns (r: Result<()>, ghost img': Image)
      requires Ready(mid, slot) && |data| < U63 && name !in ModelOf(mid, true).files
      modifies this`file, this`changeLog, this`st, this`header, allocator`bits
      ensures old(changeLog) <= changeLog && |img'.recs| == |img'.st.entries|
      ensures r.Ok? <==> Need(|data|) <= |FreeSet(mid.st.bitmap, |mid.st.blocks|)|
      ensures r.Err? ==>
                && r.error == InsufficientSpaceFor(Need(|data|), |FreeSet(mid.st.bitmap, |mid.st.blocks|)|)
                && st == old(st) && file == old(file) && header == old(header) && changeLog == old(changeLog)
                && allocator.bits == old(allocator.bits) && (old(ValidFor(mid)) ==> ValidFor(mid))
      ensures r.Ok? ==>
                && r == Ok(()) && ValidFor(img') && |old(changeLog)| < |changeLog|
                && ModelOf(img', true) == ModelOf(mid, true).(files := ModelOf(mid, true).files[name := data],
                                                              nextSeq := ModelOf(mid, true).nextSeq + 1)
                && Filed(old(st).entries, st.entries, slot, id, name, |data|, c.hash(data), created, ts) && header.keys == old(header).keys
                && LogsAs(c, old(header).layout, admin.value, mid.history, img'.history, op, id, c.hash(data), ts)
    {
      hide Io, Healthy, ModelOf, Need, Stored, Describes, IsLowest, Bit, FilesOf, FreeSet, NewSigned, LogsAs, Filed;
      ModelFields(mid, true);
      img' := mid;
      var stored, rec := StoreNewContent(id, data);
      if stored.Err? {
        return Err(stored.error), mid;
      }
      var (direct, overflow, used) := stored.value;
      var e := FileEntry(id, name, |data|, used, direct, overflow, c.hash(data), created, ts, FLAG_OCCUPIED);
      Describing(c, e, rec);
      EntryFiled(st.entries, slot, e);
      WriteSlot(slot, e);
      ghost var record := AppendSignedChainRecord(op, id, e.fileHash, ts);
      img' := StoreAndAdvance(c, mid, slot, e, rec, allocator.bits, st.blocks, op, ts, admin.value);
      r := Ok(());
    }

    lemma ReadyNow(slot: nat)
      requires Valid() && admin.Some? && header.layout.chainNextSeq + 1 < U64
      requires slot < |st.entries| && !st.entries[slot].Occupied()
      ensures Ready(img, slot) && img.st == st
      ensures |FreeSet(st.bitmap, |st.blocks|)| == View().Free()
      ensures View() == ModelOf(img, true)
    {
      hide Io, Healthy, ModelOf;
      HealthySpace(c, img, true);
    }

    /** Everything `add_file` does once its checks are passed. */
    method Place(slot: nat, name: FileName, data: bytes, id: u128, ts: i64) returns (r: Result<()>, ghost img': Image)
      requires Valid() && admin.Some? && |data| < U63 && header.layout.chainNextSeq + 1 < U64
      requires slot < |st.entries| && !st.entries[slot].Occupied() && name !in View().files
      modifies this`file, this`changeLog, this`st, this`header, allocator`bits
      ensures ValidFor(img') && |img'.recs| == |img'.st.entries| && old(changeLog) <= changeLog
      ensures r.Ok? <==> Need(|data|) <= old(View()).Free()
      ensures r.Err? ==>
                && r.error == InsufficientSpaceFor(Need(|data|), old(View()).Free()) && img' == img
                && file == old(file) && header == old(header) && changeLog == old(changeLog) && allocator.bits == old(allocator.bits)
      ensures r.Ok? ==>
                && r == Ok(()) && |old(changeLog)| < |changeLog|
                && ModelOf(img', true) == old(View()).(files := old(View()).files[name := data], nextSeq := old(View()).nextSeq + 1)
                && Filed(old(st).entries, st.entries, slot, id, name, |data|, c.hash(data), ts, ts)
                && header.keys == old(header).keys
                && LogsAs(c, old(header).layout, admin.value, img.history, img'.history, FileAdded, id, c.hash(data), ts)
    {
      hide ValidFor, Ready, ModelOf, Need, FreeSet, Filed, LogsAs;
      ReadyNow(slot);
      r, img' := StoreAndLog(slot, id, name, data, ts, ts, FileAdded, img);
      if r.Err? {
        img' := img;
      }
    }

    method AddFile(name: Name, data: bytes, id: u128, ts: i64) returns (r: Result<()>)
      requires Valid() && |data| < U63 && header.layout.chainNextSeq + 1 < U64
      modifies this, allocator
      ensures Performed(Add(name, data), r)
      ensures Answered(old(View()), Add(name, data), r, View())
      ensures var m := old(View());
              r.Ok? <==> admin.Some? && 1 <= |name| <= 128 && name !in m.files && |m.files| < m.maxFiles
                         && Need(|data|) <= m.Free()
      ensures r.Ok? ==> exists slot: nat ::
                && Filed(old(st).entries, st.entries, slot, id, name, |data|, c.hash(data), ts, ts)
                && LogsAs(c, old(header).layout, admin.value, old(img).history, img.history, FileAdded, id, c.hash(data), ts)
    {
      hide ValidFor, ModelOf, Need, TotalNeed, Filed, LogsAs, Refusal, After, Answer, Answered;
      Outcome(View(), Add(name, data));
      Expected(Add(name, data));
      AddCondition(name, data);
      var slot :- AddChecks(name, data);
      r, img := Place(slot, name, data, id, ts);
      assert r.Ok? ==> Filed(old(st).entries, st.entries, slot, id, name, |data|, c.hash(data), ts, ts);
    }

    /** Logs an operation whose effect on disk is complete. */
    method Log(op: ChainOp, targetId: u128, dataHash: Arr32, ts: i64, ghost mid: Image) returns (ghost img': Image)
      requires ValidFor(mid) && admin.Some? && header.layout.chainNextSeq + 1 < U64 && |mid.recs| == |mid.st.entries|
      modifies this`file, this`changeLog, this`st, this`header
      ensures ValidFor(img') && |img'.recs| == |img'.st.entries|
      ensures old(changeLog) <= changeLog && |old(changeLog)| < |changeLog|
      ensures ModelOf(img', true) == ModelOf(mid, true).(nextSeq := ModelOf(mid, true).nextSeq + 1)
      ensures st.entries == old(st).entries && st.bitmap == old(st).bitmap && st.recipients == old(st).recipients
      ensures LogsAs(c, old(header).layout, admin.value, mid.history, img'.history, op, targetId, dataHash, ts)
      ensures header.keys == old(header).keys
    {
      hide Io, Healthy, ModelOf, NewSigned;
      ModelFields(mid, true);
      HealthySize(c, mid);
      ghost var record := AppendSignedChainRecord(op, targetId, dataHash, ts);
      NewSignedIsValid(c, record, mid.st.header, op, targetId, dataHash, ts, admin.value);
      LoggedAs(c, mid.st.header.layout, admin.value, mid.history, op, targetId, dataHash, ts);
      hide LogsAs;
      Advance(c, mid, record);
      img' := Advanced(mid, record);
    }

    /** Releases the blocks of the file in `slot` and writes the bitmap. */
    method ReleaseFile(slot: nat, blocks: seq<u64>) returns (ghost mid: Image)
      requires Valid() && admin.Some? && header.layout.chainNextSeq + 1 < U64
      requires slot < |st.entries| && st.entries[slot].Occupied()
      requires forall b :: b in blocks <==> b in img.recs[slot].blocks
      modifies this`file, this`changeLog, this`st, allocator`bits
      ensures Ready(mid, slot) && st.entries == old(st).entries && mid.st == st.(entries := mid.st.entries)
      ensures mid.st.entries[slot] == st.entries[slot].(flags := FLAG_DELETED)
      ensures ModelOf(mid, true) == old(View()).(files := old(View()).files - {st.entries[slot].name})
      ensures mid.history == img.history
      ensures old(changeLog) <= changeLog && |old(changeLog)| < |changeLog|
    {
      hide Io, Healthy, ModelOf, Bit;
      HealthySize(c, img);
      allocator.Release(blocks);
      WriteBitmap();
      var tombstone := st.entries[slot].(flags := FLAG_DELETED);
      RemoveStep(c, img, slot, tombstone, allocator.bits);
      mid := WithShelf(img, WithoutFile(ShelfOf(img), slot, tombstone, allocator.bits));
    }

    /** Looks up an existing file for `update_file` and `delete_file`, with all its blocks. */
    method FindOwned(name: Name) returns (r: Result<(nat, FileEntry, seq<u64>)>)
      requires Valid()
      ensures r.Err? ==>
                && (admin.None? ==> r.error == NotAuthorized)
                && (admin.Some? ==> name !in View().files && r.error == FileNotFound(name))
      ensures View().admin == admin.Some?
      ensures r.Ok? ==>
                var (slot, e, blocks) := r.value;
                && admin.Some? && slot < |st.entries| && st.entries[slot] == e && e.Occupied() && e.name == name
                && name in View().files && |blocks| == Need(|View().files[name]|)
                && forall b :: b in blocks <==> b in img.recs[slot].blocks
    {
      ModelFields(img, admin.Some?);
      hide Io, Healthy, ModelOf, Readable;
      if admin.None? {
        return Err(NotAuthorized);
      }
      var found :- FindSlotByName(name);
      if found.None? {
        HealthyNoFile(c, img, name, true);
        return Err(FileNotFound(name));
      }
      var (slot, e) := found.value;
      HealthyFile(c, img, slot, true);
      ReadableShape(c, key, st.blocks, e, img.recs[slot]);
      var blocks :- CollectAllBlocks(e, img.recs[slot]);
      r := Ok((slot, e, blocks));
    }

    lemma BudgetNow()
      requires Valid()
      ensures |allocator.Free()| == View().Free()
    {
      hide Io, Healthy, ModelOf;
      HealthySpace(c, img, admin.Some?);
    }

    lemma ReadyBudget(mid: Image, slot: nat)
      requires Ready(mid, slot)
      ensures |FreeSet(mid.st.bitmap, |mid.st.blocks|)| == ModelOf(mid, true).Free()
    {
      hide Io, Healthy, ModelOf;
      HealthySpace(c, mid, true);
    }

    method NeededNow(n: nat) returns (dataBlocks: nat, total: nat)
      requires Valid()
      ensures dataBlocks == DataBlocks(n) && total == Need(n)
    {
      hide Io, Healthy;
      dataBlocks, total := BlocksNeeded(n);
    }

    method AvailableNow() returns (n: nat)
      requires Valid()
      ensures n == |allocator.Free()|
    {
      hide Io, Healthy;
      n := allocator.FreeCount();
    }

    /** The checks of `update_file`, space included: the old blocks count as available. */
    method UpdateChecks(name: Name, ghost data: bytes, n: nat) returns (r: Result<(nat, FileEntry, seq<u64>)>)
      requires Valid() && n == |data|
      ensures r.Err? ==> Refusal(View(), Update(name, data)) == Some(r.error)
      ensures r.Ok? ==>
                var (slot, e, blocks) := r.value;
                && admin.Some? && slot < |st.entries| && st.entries[slot] == e && e.Occupied() && e.name == name
                && name in View().files && Refusal(View(), Update(name, data)) == None
                && Need(n) <= View().Free() + Need(|View().files[name]|)
                && forall b :: b in blocks <==> b in img.recs[slot].blocks
    {
      hide ValidFor, ModelOf, Need, FreeSet, TotalNeed;
      BudgetNow();
      var found :- FindOwned(name);
      var dataBlocks, needed := NeededNow(n);
      var available := AvailableNow();
      if available + |found.2| < needed {
        return Err(InsufficientSpaceFor(needed, available + |found.2|));
      }
      r := Ok(found);
    }

    /** Everything `update_file` does once the space is known to suffice. */
    method Replace(slot: nat, e: FileEntry, oldBlocks: seq<u64>, data: bytes, ts: i64) returns (ghost img': Image)
      requires Valid() && admin.Some? && |data| < U63 && header.layout.chainNextSeq + 1 < U64
      requires slot < |st.entries| && st.entries[slot] == e && e.Occupied()
      requires e.name in View().files && Need(|data|) <= View().Free() + Need(|View().files[e.name]|)
      requires forall b :: b in oldBlocks <==> b in img.recs[slot].blocks
      modifies this`file, this`changeLog, this`st, this`header, allocator`bits
      ensures ValidFor(img') && |img'.recs| == |img'.st.entries|
      ensures old(changeLog) <= changeLog && |old(changeLog)| < |changeLog|
      ensures ModelOf(img', true) == old(View()).(files := old(View()).files[e.name := data], nextSeq := old(View()).nextSeq + 1)
      ensures Filed(old(st).entries, st.entries, slot, e.id, e.name, |data|, c.hash(data), e.createdAt, ts)
      ensures LogsAs(c, old(header).layout, admin.value, img.history, img'.history, FileUpdated, e.id, c.hash(data), ts)
      ensures header.keys == old(header).keys
    {
      hide ValidFor, Ready, ModelOf, Need, FreeSet, TotalNeed, Filed, LogsAs;
      ghost var m := View();
      TotalNeedRemove(m.files, e.name);
      ghost var mid := ReleaseFile(slot, oldBlocks);
      ReadyBudget(mid, slot);
      assert (m.files - {e.name})[e.name := data] == m.files[e.name := data];
      var r;
      r, img' := StoreAndLog(slot, e.id, e.name, data, e.createdAt, ts, FileUpdated, mid);
    }

    method UpdateFile(name: Name, data: bytes, ts: i64) returns (r: Result<()>)
      requires Valid() && |data| < U63 && header.layout.chainNextSeq + 1 < U64
      modifies this, allocator
      ensures Performed(Update(name, data), r)
      ensures Answered(old(View()), Update(name, data), r, View())
      ensures var m := old(View()); r.Ok? <==> admin.Some? && name in m.files && Need(|data|) <= m.Free() + Need(|m.files[name]|)
      ensures r.Ok? ==> exists slot: nat ::
                && Refiled(old(st).entries, st.entries, slot, name, |data|, c.hash(data), ts)
                && LogsAs(c, old(header).layout, admin.value, old(img).history, img.history, FileUpdated,
                          old(st).entries[slot].id, c.hash(data), ts)
    {
      hide ValidFor, ModelOf, Need, TotalNeed, Filed, LogsAs, Refusal, After, Answer, Answered;
      Outcome(View(), Update(name, data));
      Expected(Update(name, data));
      UpdateCondition(name, data);
      var found :- UpdateChecks(name, data, |data|);
      var (slot, e, oldBlocks) := found;
      img := Replace(slot, e, oldBlocks, data, ts);
      assert Refiled(old(st).entries, st.entries, slot, name, |data|, c.hash(data), ts);
      r := Ok(());
    }

    method WriteTombstone(slot: nat, e: FileEntry, ghost mid: Image)
      requires Ready(mid, slot) && e == mid.st.entries[slot] && st.bitmap == mid.st.bitmap
      modifies this`file, this`changeLog, this`st
      ensures ValidFor(mid) && admin.Some? && |mid.recs| == |mid.st.entries|
      ensures old(changeLog) <= changeLog && st.entries == old(st).entries[slot := e]
    {
      hide Io, Healthy;
      WriteSlot(slot, e);
    }

    method DeleteFile(name: Name, ts: i64) returns (r: Result<()>)
      requires Valid() && header.layout.chainNextSeq + 1 < U64
      modifies this, allocator
      ensures Performed(Delete(name), r)
      ensures Answered(old(View()), Delete(name), r, View())
      ensures var m := old(View()); r.Ok? <==> admin.Some? && name in m.files
      ensures r.Ok? ==> exists slot: nat ::
                && Buried(old(st).entries, st.entries, slot, name)
                && LogsAs(c, old(header).layout, admin.value, old(img).history, img.history, FileDeleted,
                          old(st).entries[slot].id, c.hash(name), ts)
    {
      hide ValidFor, Ready, ModelOf, Need, TotalNeed, LogsAs, Refusal, After, Answer, Answered, Accepted;
      Outcome(View(), Delete(name));
      DeleteRefusal(View(), name);
      Expected(Delete(name));
      DeleteCondition(name);
      var found := FindOwned(name);
      if found.Err? {
        return Err(found.error);
      }
      var (slot, e, blocks) := found.value;
      ghost var mid := ReleaseFile(slot, blocks);
      WriteTombstone(slot, e.(flags := FLAG_DELETED), mid);
      img := Log(FileDeleted, e.id, c.hash(e.name), ts, mid);
      r := Ok(());
    }

    // ----- reading

    method ReadContents(e: FileEntry, ghost rec: FileRec) returns (r: Result<bytes>)
      requires Io() && Readable(c, key, st.blocks, e, rec)
      ensures r == Ok(rec.data)
    {
      hide Io, Readable, OpenBlock;
      ReadableShape(c, key, st.blocks, e, rec);
      if e.size == 0 {
        assert rec.data == [];
        if e.fileHash != c.hash([]) {
          return Err(IntegrityViolation);
        }
        return Ok([]);
      }
      var blocks :- CollectDataBlocks(e, rec);
      var out: bytes := [];
      for i := 0 to |blocks|
        invariant out == rec.data[..Min(i * CHUNK, |rec.data|)]
      {
        BlockReads(c, key, st.blocks, e, rec, i);
        var chunk :- ReadPhysicalBlock(blocks[i], e.id);
        assert chunk == Chunk(rec.data, i);
        out := out + chunk;
      }
      DataBlocksIsCeiling(|rec.data|);
      out := out[..Min(|out|, e.size)];
      assert out == rec.data;
      if c.hash(out) != e.fileHash {
        return Err(IntegrityViolation);
      }
      r := Ok(out);
    }

    method ReadFile(name: Name) returns (r: Result<bytes>)
      requires Valid()
      ensures r == if name in View().files then Ok(View().files[name]) else Err(FileNotFound(name))
    {
      hide Io, Healthy, ModelOf, Readable;
      var found :- FindSlotByName(name);
      if found.None? {
        HealthyNoFile(c, img, name, admin.Some?);
        return Err(FileNotFound(name));
      }
      var (slot, e) := found.value;
      HealthyFile(c, img, slot, admin.Some?);
      r := ReadContents(e, img.recs[slot]);
    }

    /** The stored files in slot order: every file exactly once, with its size. */
    method ListFiles() returns (r: Result<seq<FileInfo>>)
      requires Valid()
      ensures r.Ok? && |r.value| == |OccupiedEntries(st.entries)|
      ensures forall k | 0 <= k < |r.value| :: r.value[k] == InfoOf(OccupiedEntries(st.entries)[k].1)
      ensures forall k | 0 <= k < |r.value| :: exists i :: 0 <= i < |st.entries| && Lists(r.value[k], st.entries[i])
      ensures forall k | 0 <= k < |r.value| ::
                r.value[k].name in View().files && r.value[k].size == |View().files[r.value[k].name]|
      ensures forall k, l | 0 <= k < l < |r.value| :: r.value[k].name != r.value[l].name
      ensures forall n | n in View().files :: exists k :: 0 <= k < |r.value| && r.value[k].name == n
    {
      hide Io, Healthy, ModelOf;
      var entries :- AllOccupiedEntries();
      var out: seq<FileInfo> := [];
      for k := 0 to |entries|
        invariant |out| == k
        invariant forall j | 0 <= j < k :: out[j] == InfoOf(entries[j].1)
      {
        out := out + [InfoOf(entries[k].1)];
      }
      ListingIsComplete(c, img, entries, admin.Some?);
      forall k | 0 <= k < |out|
        ensures exists i :: 0 <= i < |st.entries| && Lists(out[k], st.entries[i])
      {
        ListedSlot(st.entries, k);
        assert Lists(out[k], st.entries[entries[k].0]);
      }
      r := Ok(out);
    }

    // ----- recipients

    method FindRecipientSlotBySigningKey(signing: Arr32) returns (r: Result<Option<(nat, RecipientSlot)>>)
      requires Io()
      ensures r.Ok?
      ensures r.value.Some? ==>
                var (i, s) := r.value.value;
                i < |st.recipients| && s == st.recipients[i] && s.Occupied() && s.signing == signing
      ensures r.value.None? ==>
                forall i | 0 <= i < |st.recipients| :: st.recipients[i].Occupied() ==> st.recipients[i].signing != signing
    {
      hide Io;
      IoSizes();
      for i := 0 to header.layout.maxRecipients
        invariant forall j | 0 <= j < i :: st.recipients[j].Occupied() ==> st.recipients[j].signing != signing
      {
        var s :- ReadRecipientSlot(i);
        if s.Occupied() && s.signing == signing {
          return Ok(Some((i, s)));
        }
      }
      r := Ok(None);
    }

    method FindFreeRecipientSlot() returns (r: Result<Option<nat>>)
      requires Io()
      ensures r.Ok?
      ensures r.value.Some? ==> r.value.value < |st.recipients| && !st.recipients[r.value.value].Occupied()
      ensures r.value.None? ==> forall i | 0 <= i < |st.recipients| :: st.recipients[i].Occupied()
    {
      hide Io;
      IoSizes();
      for i := 0 to header.layout.maxRecipients
        invariant forall j | 0 <= j < i :: st.recipients[j].Occupied()
      {
        var s :- ReadRecipientSlot(i);
        if !s.Occupied() {
          return Ok(Some(i));
        }
      }
      r := Ok(None);
    }

    /** Whether `list_recipients` contains exactly this peer. */
    method IsGranted(peer: PeerId) returns (yes: bool)
      requires Valid()
      ensures yes <==> HasGrant(View(), peer)
    {
      hide Io, Healthy, ModelOf;
      HealthyKeyring(c, img, admin.Some?);
      IoSizes();
      yes := false;
      for i := 0 to header.layout.maxRecipients
        invariant yes <==> exists j :: 0 <= j < i && st.recipients[j].Occupied()
                                       && PeerId(st.recipients[j].signing, st.recipients[j].encryption) == peer
      {
        var s := ReadRecipientSlot(i);
        if s.value.Occupied() && PeerId(s.value.signing, s.value.encryption) == peer {
          yes := true;
        }
      }
      GrantedIsListed(st.recipients, peer);
    }

    method GrantChecks(peer: PeerId) returns (r: Result<nat>)
      requires Valid()
      ensures r.Err? ==> Refusal(View(), Grant(peer)) == Some(r.error)
      ensures r.Ok? ==>
                && Refusal(View(), Grant(peer)) == None && admin.Some?
                && r.value < |st.recipients| && !st.recipients[r.value].Occupied()
                && peer.signing !in AsMap(KeyringRows(st.recipients))
    {
      ModelFields(img, admin.Some?);
      hide Io, Healthy, ModelOf;
      HealthyKeyring(c, img, admin.Some?);
      if admin.None? {
        return Err(NotAuthorized);
      }
      var found :- FindRecipientSlotBySigningKey(peer.signing);
      KeyringLookup(st.recipients, peer.signing, if found.Some? then found.value.0 else |st.recipients|);
      if found.Some? {
        return Err(AlreadyGranted);
      }
      var slot :- FindFreeRecipientSlot();
      KeyringFull(st.recipients);
      if slot.None? {
        return Err(RecipientTableFull);
      }
      r := Ok(slot.value);
    }

    method PutRecipient(i: nat, peer: PeerId, seed: bytes, ts: i64) returns (ghost mid: Image)
      requires Valid() && i < |st.recipients| && !st.recipients[i].Occupied()
      requires peer.signing !in AsMap(KeyringRows(st.recipients))
      modifies this`file, this`changeLog, this`st
      ensures ValidFor(mid) && |mid.recs| == |mid.st.entries|
      ensures old(changeLog) <= changeLog
      ensures forall a :: ModelOf(mid, a)
                       == ModelOf(img, a).(grants := ModelOf(img, a).grants[peer.signing := peer.encryption])
      ensures mid.history == img.history
      ensures Enrolled(old(st).recipients, st.recipients, i, peer, ts)
    {
      hide Io, Healthy, ModelOf;
      var wrapped := c.wrap(peer.encryption, key, seed);
      WrapLength(c, peer.encryption, key, seed);
      var slot := RecipientSlot(peer.signing, peer.encryption, wrapped, ts, FLAG_OCCUPIED);
      WrappedUnlocks(c, slot, key, seed);
      GrantSlot(c, img, i, slot);
      WriteRecipientSlot(i, slot);
      mid := WithRecipient(img, i, slot);
    }

    /** Everything `grant_access` does once the grant is known to be possible. */
    method Enroll(slot: nat, peer: PeerId, seed: bytes, ts: i64) returns (ghost img': Image)
      requires Valid() && admin.Some? && header.layout.chainNextSeq + 1 < U64
      requires slot < |st.recipients| && !st.recipients[slot].Occupied() && peer.signing !in AsMap(KeyringRows(st.recipients))
      modifies this`file, this`changeLog, this`st, this`header
      ensures ValidFor(img') && |img'.recs| == |img'.st.entries|
      ensures old(changeLog) <= changeLog && |old(changeLog)| < |changeLog|
      ensures ModelOf(img', true)
           == old(View()).(grants := old(View()).grants[peer.signing := peer.encryption], nextSeq := old(View()).nextSeq + 1)
      ensures Enrolled(old(st).recipients, st.recipients, slot, peer, ts)
      ensures LogsAs(c, old(header).layout, admin.value, img.history, img'.history, AccessGranted,
                     PeerTargetId(c, peer.signing), c.hash(peer.signing + peer.encryption), ts)
      ensures header.keys == old(header).keys
    {
      hide ValidFor, ModelOf, Enrolled, LogsAs;
      ghost var mid := PutRecipient(slot, peer, seed, ts);
      img' := Log(AccessGranted, PeerTargetId(c, peer.signing), c.hash(peer.signing + peer.encryption), ts, mid);
    }

    method GrantAccess(peer: PeerId, seed: bytes, ts: i64) returns (r: Result<()>)
      requires Valid() && header.layout.chainNextSeq + 1 < U64
      modifies this, allocator
      ensures Performed(Grant(peer), r)
      ensures Answered(old(View()), Grant(peer), r, View())
      ensures var m := old(View()); r.Ok? <==> admin.Some? && peer.signing !in m.grants && |m.grants| < 16
      ensures r.Ok? ==> exists i: nat ::
                && Enrolled(old(st).recipients, st.recipients, i, peer, ts)
                && LogsAs(c, old(header).layout, admin.value, old(img).history, img.history, AccessGranted,
                          U128Of(c.hash(peer.signing)[..16]), c.hash(peer.signing + peer.encryption), ts)
    {
      hide ValidFor, ModelOf, Refusal, After, Answer, Enrolled, LogsAs, Answered;
      Outcome(View(), Grant(peer));
      Expected(Grant(peer));
      GrantCondition(peer);
      var slot :- GrantChecks(peer);
      img := Enroll(slot, peer, seed, ts);
      assert Enrolled(old(st).recipients, st.recipients, slot, peer, ts);
      r := Ok(());
    }

    // ----- revocation

    method RevokeChecks(signing: Arr32, ghost password: bytes) returns (r: Result<nat>)
      requires Valid()
      ensures r.Err? ==> Refusal(View(), Revoke(signing, password)) == Some(r.error)
      ensures r.Ok? ==>
                && Refusal(View(), Revoke(signing, password)) == None && admin.Some? && r.value < |st.recipients|
                && st.recipients[r.value].Occupied() && st.recipients[r.value].signing == signing
    {
      ModelFields(img, admin.Some?);
      hide Io, Healthy, ModelOf;
      HealthyKeyring(c, img, admin.Some?);
      if admin.None? {
        return Err(NotAuthorized);
      }
      var found :- FindRecipientSlotBySigningKey(signing);
      KeyringLookup(st.recipients, signing, if found.Some? then found.value.0 else |st.recipients|);
      if found.None? {
        return Err(AccessNotGranted);
      }
      r := Ok(found.value.0);
    }

    method ReadBlocksOf(i: nat, e: FileEntry) returns (items: seq<Item>)
      requires Valid() && i < |st.entries| && e == st.entries[i] && e.Occupied()
      ensures ItemsOk(ShelfOf(img), items) && Covered(img.recs[i], items)
    {
      hide Io, Healthy, ModelOf, Readable, ItemOk, Covered, OpenBlock;
      HealthyFile(c, img, i, true);
      ReadableShape(c, key, st.blocks, e, img.recs[i]);
      var all := CollectAllBlocks(e, img.recs[i]);
      items := [];
      for k := 0 to |all.value|
        invariant ItemsOk(ShelfOf(img), items) && |items| == k
        invariant forall j | 0 <= j < k :: items[j].0 == all.value[j]
      {
        var b := all.value[k];
        ghost var p := PositionOf(img.recs[i].blocks, b);
        BlockReads(c, key, st.blocks, e, img.recs[i], p);
        OwnedItem(c, img, i, p);
        var plain := ReadPhysicalBlock(b, e.id);
        items := items + [(b, e.id, plain.value)];
      }
      AllCovered(img.recs[i], all.value, items);
    }

    /** Every block in use, in the clear, under the current key. */
    method ReadEveryBlock() returns (r: Result<seq<Item>>)
      requires Valid()
      ensures r.Ok? && ItemsOk(ShelfOf(img), r.value)
      ensures forall i | 0 <= i < |st.entries| && st.entries[i].Occupied() :: Covered(img.recs[i], r.value)
    {
      hide Io, Healthy, ModelOf, Readable, ItemOk, Covered, OpenBlock;
      var entries :- AllOccupiedEntries();
      var items: seq<Item> := [];
      for k := 0 to |entries|
        invariant ItemsOk(ShelfOf(img), items)
        invariant forall j | 0 <= j < k :: entries[j].0 < |img.recs| && Covered(img.recs[entries[j].0], items)
      {
        ListedSlot(st.entries, k);
        var (i, e) := entries[k];
        HealthyFile(c, img, i, true);
        var more := ReadBlocksOf(i, e);
        forall j | 0 <= j < k + 1
          ensures Covered(img.recs[entries[j].0], items + more)
        {
          CoveredByMore(img.recs[entries[j].0], items, more);
        }
        items := items + more;
      }
      forall i | 0 <= i < |st.entries| && st.entries[i].Occupied()
        ensures Covered(img.recs[i], items)
      {
        var k := SlotIsListed(st.entries, i);
        assert entries[k].0 == i;
      }
      r := Ok(items);
    }

    /** Re-encrypts the blocks in place under the key now in memory. */
    method RewriteBlocks(items: seq<Item>, ghost sh: Shelf)
      requires Io() && ItemsOk(sh, items) && |sh.owner| == |st.blocks|
      modifies this`file, this`changeLog, this`st
      ensures Io() && old(changeLog) <= changeLog
      ensures st == old(st).(blocks := st.blocks) && |st.blocks| == |old(st).blocks|
      ensures Rewritten(c, key, items, st.blocks) && OthersKept(items, old(st).blocks, st.blocks)
    {
      hide Io, BlockBytes, ItemOk, Rewritten, OthersKept;
      NoneTouched(items, st.blocks);
      assert items[..0] == [];
      for k := 0 to |items|
        invariant Io() && old(changeLog) <= changeLog
        invariant st == old(st).(blocks := st.blocks) && |st.blocks| == |old(st).blocks|
        invariant Rewritten(c, key, items[..k], st.blocks) && OthersKept(items, old(st).blocks, st.blocks)
      {
        var (b, id, plain) := items[k];
        ItemFits(sh, items, k);
        RewriteOne(c, key, sh, items, k, st.blocks);
        OneMoreTouched(items, k, old(st).blocks, st.blocks, BlockBytes(c, key, id, b, plain));
        var w := WritePhysicalBlock(b, id, plain);
        assert w.Ok?;
      }
      assert items[..|items|] == items;
    }

    /** Drops the revoked peer's slot and wraps the new key for everybody else. */
    method RewrapRecipients(gone: nat, dek: Key, seeds: nat -> bytes)
      requires Io() && gone < |st.recipients|
      modifies this`file, this`changeLog, this`st
      ensures Io() && old(changeLog) <= changeLog
      ensures st == old(st).(recipients := st.recipients) && |st.recipients| == |old(st).recipients|
      ensures KeyringRows(st.recipients) == KeyringRows(old(st).recipients)[gone := None]
      ensures forall i | 0 <= i < |st.recipients| && st.recipients[i].Occupied() :: Unlocks(c, st.recipients[i], dek)
    {
      hide Io, Unlocks;
      IoSizes();
      WriteRecipientSlot(gone, EMPTY_RECIPIENT);
      assert KeyringRows(st.recipients) == KeyringRows(old(st).recipients)[gone := None];
      ghost var rows := KeyringRows(st.recipients);
      for i := 0 to header.layout.maxRecipients
        invariant Io() && old(changeLog) <= changeLog
        invariant st == old(st).(recipients := st.recipients) && |st.recipients| == |old(st).recipients|
        invariant KeyringRows(st.recipients) == rows
        invariant forall j | 0 <= j < i && st.recipients[j].Occupied() :: Unlocks(c, st.recipients[j], dek)
      {
        var slot := ReadRecipientSlot(i);
        if slot.value.Occupied() {
          var wrapped := c.wrap(slot.value.encryption, dek, seeds(i));
          WrapLength(c, slot.value.encryption, dek, seeds(i));
          var rewrapped := slot.value.(wrapped := wrapped);
          WrappedUnlocks(c, rewrapped, dek, seeds(i));
          WriteRecipientSlot(i, rewrapped);
          SameRow(rows, st.recipients, i);
        }
      }
    }

    /** Seals the new key under the given password; the old password is not asked for. */
    method ResealAdminSlot(password: bytes, dek: Key, seed: bytes)
      requires Io() && header == st.header
      modifies this`file, this`changeLog, this`st, this`header
      ensures Io() && old(changeLog) <= changeLog && |old(changeLog)| < |changeLog|
      ensures header == old(header).(keys := old(header).keys.(adminKeySlot := header.keys.adminKeySlot))
      ensures st == old(st).(header := header) && AdminSlotOk(c, header.keys, password, dek)
    {
      var kek := c.derive(password, header.keys.salt, header.keys.argon);
      var slot := c.seal(kek, dek, seed);
      SealOpens(c, kek, dek, seed);
      ResealKeepsLayout(header, Geo(st), slot);
      hide Represents, Logged, LaidOut;
      header := header.(keys := header.keys.(adminKeySlot := slot));
      WriteHeader();
    }

    /** Everything `revoke_access` does before it logs the operation. */
    method RotateKey(gone: nat, password: bytes, dek: Key, seeds: nat -> bytes, sealSeed: bytes) returns (ghost mid: Image)
      requires Valid() && gone < |st.recipients| && st.recipients[gone].Occupied()
      modifies this`file, this`changeLog, this`st, this`header, this`key
      ensures ValidFor(mid) && |mid.recs| == |mid.st.entries| && key == dek
      ensures old(changeLog) <= changeLog && |old(changeLog)| < |changeLog|
      ensures st.entries == old(st).entries && st.bitmap == old(st).bitmap && mid.history == img.history
      ensures header.layout == old(header).layout && header.keys.adminSigning == old(header).keys.adminSigning
      ensures forall a :: ModelOf(mid, a)
                == ModelOf(img, a).(grants := ModelOf(img, a).grants - {old(st).recipients[gone].signing}, password := password)
    {
      hide Io, Healthy, ModelOf, ItemsOk, Covered, Rewritten, BlocksRekeyed, Unlocks, AdminSlotOk, KeyringRows;
      HealthySize(c, img);
      var items := ReadEveryBlock();
      key := dek;
      RewriteBlocks(items.value, ShelfOf(img));
      EverythingIsOwned(c, img);
      AllRekeyed(c, dek, ShelfOf(img), items.value, st.blocks);
      RewrapRecipients(gone, dek, seeds);
      ResealAdminSlot(password, dek, sealSeed);
      Rotate(c, img, dek, password, gone, st);
      mid := img.(st := st, key := dek, password := password);
    }

    method RevokeAccess(signing: Arr32, password: bytes, dek: Key, seeds: nat -> bytes, sealSeed: bytes, ts: i64)
      returns (r: Result<()>)
      requires Valid() && header.layout.chainNextSeq + 1 < U64
      modifies this, allocator
      ensures Performed(Revoke(signing, password), r)
      ensures Answered(old(View()), Revoke(signing, password), r, View())
      ensures var m := old(View()); r.Ok? <==> admin.Some? && signing in m.grants
      ensures r.Ok? ==> LogsAs(c, old(header).layout, admin.value, old(img).history, img.history, KeyRotated,
                               U128Of(c.hash(signing)[..16]), c.hash(signing), ts)
      ensures allocator.bits == old(allocator.bits)
      ensures r.Ok? ==> key == dek && st.entries == old(st).entries && st.bitmap == old(st).bitmap
    {
      hide ValidFor, ModelOf, Refusal, After, Answer, LogsAs, Answered;
      Outcome(View(), Revoke(signing, password));
      Expected(Revoke(signing, password));
      RevokeCondition(signing, password);
      var slot :- RevokeChecks(signing, password);
      ghost var mid := RotateKey(slot, password, dek, seeds, sealSeed);
      img := Log(KeyRotated, PeerTargetId(c, signing), c.hash(signing), ts, mid);
      r := Ok(());
    }

    // ----- integrity

    method VerifyRecord(rec: ChainRecord, s: nat, pub: Arr32, prev: Option<ChainRecord>) returns (r: Result<()>)
      ensures r == CheckRecord(c, pub, rec, s, prev)
    {
      if rec.seqNo != s {
        return Err(IntegrityViolation);
      }
      if !VerifySelf(c, rec) {
        return Err(IntegrityViolation);
      }
      if !c.verify(pub, rec.recordHash, rec.signature) {
        return Err(IntegrityViolation);
      }
      if prev.Some? && rec.prevHash != prev.value.recordHash {
        return Err(IntegrityViolation);
      }
      r := Ok(());
    }

    /** Walks the slots of the window; the last record seen, or the first error. */
    method WalkSlots(oldest: nat, newest: nat, ghost g: Geometry) returns (r: Result<Option<ChainRecord>>)
      requires LaidOut(header, g) && |file| == g.Total() && oldest <= newest + 1
      ensures r == Walk(c, header.keys.adminSigning, RegionOf(file, g), oldest, newest, None)
    {
      ghost var region := RegionOf(file, g);
      var pub := header.keys.adminSigning;
      hide LaidOut, RegionOf, RingAt, CheckRecord, Walk;
      var prev: Option<ChainRecord> := None;
      for s := oldest to newest + 1
        invariant Walk(c, pub, region, oldest, newest, None) == Walk(c, pub, region, s, newest, prev)
      {
        WalkStep(c, pub, region, s, newest, prev);
        var slot := ReadChainSlotAtSeq(s, g);
        if slot.Err? {
          return Err(slot.error);
        }
        if slot.value.Some? {
          var rec := slot.value.value;
          var ok := VerifyRecord(rec, s, pub, prev);
          if ok.Err? {
            return Err(IntegrityViolation);
          }
          prev := Some(rec);
        }
      }
      WalkStops(c, pub, region, newest, prev);
      r := Ok(prev);
    }

    /** The chain half of `verify_integrity`, on any file of the right shape: it passes exactly the
        unbroken chains. */
    method VerifyChain(ghost g: Geometry) returns (r: Result<()>)
      requires LaidOut(header, g) && |file| == g.Total()
      ensures r == CheckChain(c, header.keys.adminSigning, header.layout.chainNextSeq, header.layout.chainLastHash,
                              RegionOf(file, g))
      ensures r.Ok? <==> Unbroken(c, header.keys.adminSigning, header.layout.chainNextSeq, header.layout.chainLastHash,
                                  RegionOf(file, g))
      ensures r.Ok? ==> forall s: nat | s < header.layout.chainNextSeq <= s + g.chainSlots ::
                SlotVerifies(c, header.keys.adminSigning, RegionOf(file, g)[s % g.chainSlots], s)
    {
      ghost var region, pub, next := RegionOf(file, g), header.keys.adminSigning, header.layout.chainNextSeq;
      var window := header.layout.maxChainRecords;
      var newest := Max(header.layout.chainNextSeq - 1, 0);
      var oldest := Max(newest - (window - 1), 0);
      assert |region| == window == g.chainSlots && newest == Newest(next) && oldest == Oldest(next, |region|);
      AcceptsTheUnbroken(c, pub, next, header.layout.chainLastHash, region);
      if CheckChain(c, pub, next, header.layout.chainLastHash, region).Ok? {
        PassingSlots(c, pub, next, header.layout.chainLastHash, region);
      }
      hide LaidOut, RegionOf, Oldest, Newest, Walk, Unbroken, SlotVerifies;
      var last :- WalkSlots(oldest, newest, g);
      if last.Some? && last.value.recordHash != header.layout.chainLastHash {
        return Err(IntegrityViolation);
      }
      r := Ok(());
    }

    lemma IntactChain()
      requires Valid()
      ensures LaidOut(header, Geo(st)) && |file| == Geo(st).Total()
      ensures CheckChain(c, header.keys.adminSigning, header.layout.chainNextSeq, header.layout.chainLastHash,
                         RegionOf(file, Geo(st))) == Ok(())
    {
      HealthyChainPasses(c, img);
      RegionOfRepresented(c, file, st);
    }

    /** A file whose chain is broken is rejected, whatever else it holds; a vault that only its admin has
        written passes. */
    method VerifyIntegrity(ghost g: Geometry) returns (r: Result<()>)
      requires LaidOut(header, g) && |file| == g.Total()
      requires Unbroken(c, header.keys.adminSigning, header.layout.chainNextSeq, header.layout.chainLastHash, RegionOf(file, g))
               ==> Valid()
      ensures r.Ok? <==> Unbroken(c, header.keys.adminSigning, header.layout.chainNextSeq, header.layout.chainLastHash,
                                  RegionOf(file, g))
      ensures r == CheckChain(c, header.keys.adminSigning, header.layout.chainNextSeq, header.layout.chainLastHash,
                              RegionOf(file, g))
    {
      hide Valid, View, Unbroken, CheckChain, RegionOf;
      var _ :- VerifyChain(g);
      var files :- ListFiles();
      for k := 0 to |files|
      {
        var _ :- ReadFile(files[k].name);
      }
      r := Ok(());
    }

    // ----- replication

    /** Drains the change log. */
    method TakeChangeLog() returns (log: seq<Range>)
      requires Valid()
      modifies this`changeLog, this`base
      ensures Valid() && View() == old(View())
      ensures log == old(changeLog) && changeLog == [] && base == file
    {
      hide Represents, Healthy, ModelOf;
      log := changeLog;
      changeLog, base := [], file;
    }

    /** The whole container, for a full copy. */
    method ExportFull() returns (all: bytes)
      ensures all == file
    {
      all := file;
    }

    method Reload(ghost g: Image) returns (r: Result<()>)
      modifies this`header, this`allocator
      ensures r == Reloads(c, file)
      ensures header == if HeaderIn(c, file).Ok? then HeaderIn(c, file).value else old(header)
      ensures Represents(c, file, g.st) && Healthy(c, g) ==>
                && r == Ok(()) && header == g.st.header && fresh(allocator)
                && allocator.bits == g.st.bitmap && allocator.Valid() && allocator.blockCount == |g.st.blocks|
                && LaidOut(header, Geo(g.st)) && |g.recs| == |g.st.entries|
    {
      if Represents(c, file, g.st) && Healthy(c, g) {
        ReloadedParts(c, file, g);
      }
      hide Represents, Healthy, ParseHeader, LaidOut;
      if |file| < HEADER_SIZE {
        return Err(IoError);
      }
      var h :- DecodeHeader(c, Slice(file, 0, HEADER_SIZE));
      header := h;
      if h.layout.bitmapOffset + h.layout.bitmapLen > |file| {
        return Err(IoError);
      }
      var stored := Slice(file, h.layout.bitmapOffset, h.layout.bitmapLen);
      allocator := new BlockAllocator.FromBytes(stored, h.meta.blockCount);
      r := Ok(());
    }

    /** Replays a patch on this replica and reloads header and bitmap from the result, whatever it is; the
        content key stays as it was. If the result holds a healthy vault, a live handle stands for it
        exactly when it already had that vault's key. */
    method ApplyRemotePatch(ranges: seq<Range>, ghost g: Image) returns (r: Result<()>)
      modifies this
      ensures file == Apply(ranges, old(file)) && key == old(key) && admin == old(admin)
      ensures r == Reloads(c, file)
      ensures header == if HeaderIn(c, file).Ok? then HeaderIn(c, file).value else old(header)
      ensures Represents(c, file, g.st) && Healthy(c, g) ==>
                && r == Ok(()) && header == g.st.header && fresh(allocator) && allocator.bits == g.st.bitmap
                && img == g && (old(changeLog) == [] && admin.None? ==> (Valid() <==> key == g.key))
    {
      hide Healthy, Apply, Represents, HeaderIn, Reloads;
      ApplyNothing(file);
      for k := 0 to |ranges|
        invariant file == Apply(ranges[..k], old(file)) && key == old(key) && admin == old(admin)
        invariant changeLog == old(changeLog) && header == old(header)
      {
        ApplyLast(ranges, k, old(file));
        file := Splice(file, ranges[k].0, ranges[k].1);
      }
      assert ranges[..|ranges|] == ranges;
      ApplyNothing(file);
      st, img, base := g.st, g, file;
      r := Reload(g);
    }
  }
}
