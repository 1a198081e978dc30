/** The file side of a vault: the file table, who owns which block, and what every owned block holds
    under the content key. Ownership makes the map of files and the block budget exact. */
module Shelf {

  import opened Bytes
  import opened Results
  import opened Crypto
  import opened Format
  import opened Container
  import opened Content
  import opened Allocator
  import opened Tables
  import opened Model

  /** A block is free, or it is block number `p` of the file in slot `slot`. */
  datatype Loc = Free | OwnedBy(slot: nat, p: nat)

  datatype Shelf = Shelf(
    entries: seq<FileEntry>, recs: seq<FileRec>, owner: seq<Loc>, bitmap: bytes, blocks: seq<BlockImage>)

  /** The file table as name-contents rows. */
  function Rows(entries: seq<FileEntry>, recs: seq<FileRec>): Table<Name, bytes>
    requires |recs| == |entries|
  {
    seq(|entries|, i requires 0 <= i < |entries| =>
      if entries[i].Occupied() then Some((entries[i].name, recs[i].data)) else None)
  }

  /** Block number `p` of file `i` is in range, owned by nobody else, and holds the encrypted payload. */
  ghost predicate BlockOk(c: Suite, k: Key, sh: Shelf, i: nat, p: nat)
    requires i < |sh.entries| == |sh.recs| && sh.recs[i].Shaped() && p < |sh.recs[i].blocks|
  {
    var b := sh.recs[i].blocks[p];
    && b < |sh.owner| == |sh.blocks|
    && sh.owner[b] == OwnedBy(i, p)
    && sh.blocks[b] == BlockBytes(c, k, sh.entries[i].id, b, Payload(sh.recs[i], p))
  }

  ghost predicate SlotOk(c: Suite, k: Key, sh: Shelf, i: nat)
    requires i < |sh.entries| == |sh.recs|
  {
    if sh.entries[i].Occupied() then
      && Describes(c, sh.entries[i], sh.recs[i])
      && forall p | 0 <= p < |sh.recs[i].blocks| :: BlockOk(c, k, sh, i, p)
    else
      sh.recs[i] == NO_FILE
  }

  predicate OwnerOk(sh: Shelf, b: nat)
    requires b < |sh.owner|
  {
    && (sh.owner[b].OwnedBy? ==>
          sh.owner[b].slot < |sh.recs| && sh.owner[b].p < |sh.recs[sh.owner[b].slot].blocks|
          && sh.recs[sh.owner[b].slot].blocks[sh.owner[b].p] == b)
    && Bit(sh.bitmap, b) == sh.owner[b].OwnedBy?
  }

  ghost predicate ShelfOk(c: Suite, k: Key, sh: Shelf) {
    && |sh.recs| == |sh.entries| && |sh.owner| == |sh.blocks| < U64
    && (forall i | 0 <= i < |sh.entries| :: SlotOk(c, k, sh, i))
    && (forall b | 0 <= b < |sh.owner| :: OwnerOk(sh, b))
    && Distinct(Rows(sh.entries, sh.recs))
  }

  ghost function FilesOf(sh: Shelf): map<Name, bytes>
    requires |sh.recs| == |sh.entries|
  {
    AsMap(Rows(sh.entries, sh.recs))
  }

  // ----- the block budget

  ghost function OwnedBelow(owner: seq<Loc>, k: nat): set<nat> {
    set b: nat | b < |owner| && owner[b].OwnedBy? && owner[b].slot < k
  }

  ghost function OwnedAt(owner: seq<Loc>, k: nat): set<nat> {
    set b: nat | b < |owner| && owner[b].OwnedBy? && owner[b].slot == k
  }

  lemma OwnedAtSize(c: Suite, k: Key, sh: Shelf, i: nat)
    requires ShelfOk(c, k, sh) && i < |sh.entries| == |sh.recs|
    ensures |OwnedAt(sh.owner, i)| == if sh.entries[i].Occupied() then Need(|sh.recs[i].data|) else 0
  {
    assert SlotOk(c, k, sh, i);
    var blocks := sh.recs[i].blocks;
    forall b
      ensures b in OwnedAt(sh.owner, i) <==> b in Members(blocks)
    {
      if b in OwnedAt(sh.owner, i) {
        assert OwnerOk(sh, b);
        assert blocks[sh.owner[b].p] == b;
      }
      if b in Members(blocks) {
        var p :| 0 <= p < |blocks| && blocks[p] == b;
        assert BlockOk(c, k, sh, i, p);
      }
    }
    assert OwnedAt(sh.owner, i) == Members(blocks);
    IncreasingSize(blocks);
  }

  lemma OwnedStep(owner: seq<Loc>, n: nat)
    ensures |OwnedBelow(owner, n + 1)| == |OwnedBelow(owner, n)| + |OwnedAt(owner, n)|
  {
    assert OwnedBelow(owner, n + 1) == OwnedBelow(owner, n) + OwnedAt(owner, n);
    assert OwnedBelow(owner, n) !! OwnedAt(owner, n);
  }

  lemma TableStep(t: Table<Name, bytes>, n: nat)
    requires n < |t|
    ensures TableNeed(t[..n + 1]) == TableNeed(t[..n]) + if t[n].Some? then Need(|t[n].value.1|) else 0
  {
    assert t[..n + 1][..n] == t[..n];
  }

  lemma {:induction false} OwnedBelowSize(c: Suite, k: Key, sh: Shelf, n: nat)
    requires ShelfOk(c, k, sh) && n <= |sh.entries| == |sh.recs|
    ensures |OwnedBelow(sh.owner, n)| == TableNeed(Rows(sh.entries, sh.recs)[..n])
  {
    if n == 0 {
      assert OwnedBelow(sh.owner, 0) == {};
    } else {
      OwnedBelowSize(c, k, sh, n - 1);
      OwnedAtSize(c, k, sh, n - 1);
      OwnedStep(sh.owner, n - 1);
      TableStep(Rows(sh.entries, sh.recs), n - 1);
    }
  }

  ghost function Range(n: nat): set<nat> {
    if n == 0 then {} else Range(n - 1) + {n - 1}
  }

  lemma {:induction false} RangeSize(n: nat)
    ensures |Range(n)| == n && forall b: nat :: b in Range(n) <==> b < n
  {
    if n > 0 {
      RangeSize(n - 1);
    }
  }

  /** Exact accounting: the occupied blocks are exactly those the stored files need. */
  lemma SpaceAccounting(c: Suite, k: Key, sh: Shelf)
    requires ShelfOk(c, k, sh)
    ensures |FreeSet(sh.bitmap, |sh.blocks|)| == |sh.blocks| - TotalNeed(FilesOf(sh))
  {
    var n := |sh.entries|;
    OwnedBelowSize(c, k, sh, n);
    TableNeedIsTotalNeed(Rows(sh.entries, sh.recs));
    assert Rows(sh.entries, sh.recs)[..n] == Rows(sh.entries, sh.recs);
    var free, owned := FreeSet(sh.bitmap, |sh.blocks|), OwnedBelow(sh.owner, n);
    forall b: nat | b < |sh.blocks|
      ensures b in free <==> b !in owned
    {
      assert OwnerOk(sh, b);
    }
    RangeSize(|sh.blocks|);
    assert Range(|sh.blocks|) == free + owned && free !! owned;
  }

  /** Block number `p` of the file in slot `i` is `b`. */
  predicate IsBlock(sh: Shelf, i: nat, p: nat, b: nat) {
    i < |sh.entries| == |sh.recs| && sh.entries[i].Occupied() && p < |sh.recs[i].blocks| && sh.recs[i].blocks[p] == b
  }

  lemma OwnerIsOccupied(c: Suite, k: Key, sh: Shelf, b: nat)
    requires ShelfOk(c, k, sh) && b < |sh.owner| && sh.owner[b].OwnedBy?
    ensures sh.owner[b].slot < |sh.entries| && sh.entries[sh.owner[b].slot].Occupied()
  {
    assert OwnerOk(sh, b);
    assert SlotOk(c, k, sh, sh.owner[b].slot);
  }

  /** The occupied bits are exactly the blocks of the stored files, data and index blocks alike, and no
      block belongs to two files or to one file twice. */
  lemma OwnershipIsExact(c: Suite, k: Key, sh: Shelf)
    requires ShelfOk(c, k, sh)
    ensures forall b: nat | b < |sh.blocks| :: Bit(sh.bitmap, b) <==> exists i: nat, p: nat :: IsBlock(sh, i, p, b)
    ensures forall i: nat, p: nat, b: nat | IsBlock(sh, i, p, b) :: b < |sh.blocks|
    ensures forall i: nat, p: nat, j: nat, q: nat, b: nat | IsBlock(sh, i, p, b) && IsBlock(sh, j, q, b) :: i == j && p == q
  {
    forall i: nat, p: nat, b: nat | IsBlock(sh, i, p, b)
      ensures b < |sh.blocks| == |sh.owner| && sh.owner[b] == OwnedBy(i, p)
    {
      assert SlotOk(c, k, sh, i) && BlockOk(c, k, sh, i, p);
    }
    forall b: nat | b < |sh.blocks|
      ensures Bit(sh.bitmap, b) <==> exists i: nat, p: nat :: IsBlock(sh, i, p, b)
    {
      assert OwnerOk(sh, b);
      if sh.owner[b].OwnedBy? {
        OwnerIsOccupied(c, k, sh, b);
        assert IsBlock(sh, sh.owner[b].slot, sh.owner[b].p, b);
      }
    }
  }

  // ----- removing and storing a file

  ghost function Unclaim(owner: seq<Loc>, i: nat): (r: seq<Loc>)
    ensures |r| == |owner|
    ensures forall b | 0 <= b < |owner| :: r[b] == if owner[b].OwnedBy? && owner[b].slot == i then Free else owner[b]
  {
    seq(|owner|, b requires 0 <= b < |owner| => if owner[b].OwnedBy? && owner[b].slot == i then Free else owner[b])
  }

  ghost function Claim(owner: seq<Loc>, i: nat, blocks: seq<u64>): (r: seq<Loc>)
    ensures |r| == |owner|
  {
    if blocks == [] then owner
    else
      var n := |blocks| - 1;
      var before := Claim(owner, i, blocks[..n]);
      if blocks[n] < |owner| then before[blocks[n] := OwnedBy(i, n)] else before
  }

  lemma {:induction false} ClaimAt(owner: seq<Loc>, i: nat, blocks: seq<u64>, b: nat)
    requires Increasing(blocks) && b < |owner|
    ensures b !in blocks ==> Claim(owner, i, blocks)[b] == owner[b]
    ensures forall p | 0 <= p < |blocks| && blocks[p] == b :: Claim(owner, i, blocks)[b] == OwnedBy(i, p)
  {
    if blocks != [] {
      var n := |blocks| - 1;
      ClaimAt(owner, i, blocks[..n], b);
      assert blocks == blocks[..n] + [blocks[n]];
    }
  }

  /** The shelf without the file in slot `i`, whose entry is now `e`. */
  ghost function WithoutFile(sh: Shelf, i: nat, e: FileEntry, bitmap: bytes): Shelf
    requires i < |sh.entries| == |sh.recs|
  {
    Shelf(sh.entries[i := e], sh.recs[i := NO_FILE], Unclaim(sh.owner, i), bitmap, sh.blocks)
  }

  lemma SlotUntouched(c: Suite, k: Key, sh: Shelf, i: nat, e: FileEntry, bitmap: bytes, j: nat)
    requires ShelfOk(c, k, sh) && i < |sh.entries| && j < |sh.entries| && j != i
    ensures SlotOk(c, k, WithoutFile(sh, i, e, bitmap), j)
  {
    var sh' := WithoutFile(sh, i, e, bitmap);
    assert SlotOk(c, k, sh, j);
    if sh.entries[j].Occupied() {
      forall p | 0 <= p < |sh.recs[j].blocks|
        ensures BlockOk(c, k, sh', j, p)
      {
        assert BlockOk(c, k, sh, j, p);
      }
    }
  }

  lemma OwnerAfterRemoval(c: Suite, k: Key, sh: Shelf, i: nat, e: FileEntry, bitmap: bytes, b: nat)
    requires ShelfOk(c, k, sh) && i < |sh.entries| && sh.entries[i].Occupied() && b < |sh.owner|
    requires Bit(bitmap, b) <==> Bit(sh.bitmap, b) && !(b in sh.recs[i].blocks && b < |sh.blocks|)
    ensures OwnerOk(WithoutFile(sh, i, e, bitmap), b)
  {
    assert SlotOk(c, k, sh, i) && OwnerOk(sh, b);
    if b in sh.recs[i].blocks {
      var p :| 0 <= p < |sh.recs[i].blocks| && sh.recs[i].blocks[p] == b;
      assert BlockOk(c, k, sh, i, p);
    }
  }

  lemma RemoveFile(c: Suite, k: Key, sh: Shelf, i: nat, e: FileEntry, bitmap: bytes)
    requires ShelfOk(c, k, sh) && i < |sh.entries| && sh.entries[i].Occupied() && !e.Occupied()
    requires forall b: nat :: Bit(bitmap, b) <==> Bit(sh.bitmap, b) && !(b in sh.recs[i].blocks && b < |sh.blocks|)
    ensures ShelfOk(c, k, WithoutFile(sh, i, e, bitmap))
    ensures FilesOf(WithoutFile(sh, i, e, bitmap)) == FilesOf(sh) - {sh.entries[i].name}
    ensures Rows(sh.entries[i := e], sh.recs[i := NO_FILE])[i] == None
  {
    var sh' := WithoutFile(sh, i, e, bitmap);
    var t := Rows(sh.entries, sh.recs);
    assert Rows(sh'.entries, sh'.recs) == t[i := None];
    ClearRow(t, i);
    forall j | 0 <= j < |sh'.entries|
      ensures SlotOk(c, k, sh', j)
    {
      if j != i {
        SlotUntouched(c, k, sh, i, e, bitmap, j);
      }
    }
    forall b | 0 <= b < |sh'.owner|
      ensures OwnerOk(sh', b)
    {
      OwnerAfterRemoval(c, k, sh, i, e, bitmap, b);
    }
  }

  /** The shelf with `rec` stored in slot `i` under entry `e`. */
  ghost function WithFile(sh: Shelf, i: nat, e: FileEntry, rec: FileRec, bitmap: bytes, blocks: seq<BlockImage>): Shelf
    requires i < |sh.entries| == |sh.recs|
  {
    Shelf(sh.entries[i := e], sh.recs[i := rec], Claim(sh.owner, i, rec.blocks), bitmap, blocks)
  }

  /** The blocks after storing `rec`: its own hold its payloads, all others are as before. */
  ghost predicate Stored(c: Suite, k: Key, id: u128, rec: FileRec, before: seq<BlockImage>, after: seq<BlockImage>)
    requires rec.Shaped()
  {
    && |after| == |before|
    && (forall p | 0 <= p < |rec.blocks| :: rec.blocks[p] < |after|
          && after[rec.blocks[p]] == BlockBytes(c, k, id, rec.blocks[p], Payload(rec, p)))
    && (forall b | 0 <= b < |before| && b !in rec.blocks :: after[b] == before[b])
  }

  lemma SlotAfterStore(c: Suite, k: Key, sh: Shelf, i: nat, e: FileEntry, rec: FileRec, bitmap: bytes,
                       blocks: seq<BlockImage>, j: nat)
    requires ShelfOk(c, k, sh) && i < |sh.entries| && e.Occupied() && Describes(c, e, rec)
    requires Stored(c, k, e.id, rec, sh.blocks, blocks)
    requires forall p | 0 <= p < |rec.blocks| :: rec.blocks[p] in FreeSet(sh.bitmap, |sh.blocks|)
    requires j < |sh.entries|
    ensures SlotOk(c, k, WithFile(sh, i, e, rec, bitmap, blocks), j)
  {
    var sh' := WithFile(sh, i, e, rec, bitmap, blocks);
    if j == i {
      forall p | 0 <= p < |rec.blocks|
        ensures BlockOk(c, k, sh', i, p)
      {
        ClaimAt(sh.owner, i, rec.blocks, rec.blocks[p]);
      }
    } else {
      assert SlotOk(c, k, sh, j);
      if sh.entries[j].Occupied() {
        forall p | 0 <= p < |sh.recs[j].blocks|
          ensures BlockOk(c, k, sh', j, p)
        {
          assert BlockOk(c, k, sh, j, p);
          var b := sh.recs[j].blocks[p];
          assert OwnerOk(sh, b);
          ClaimAt(sh.owner, i, rec.blocks, b);
        }
      }
    }
  }

  lemma OwnerAfterStore(c: Suite, k: Key, sh: Shelf, i: nat, e: FileEntry, rec: FileRec, bitmap: bytes,
                        blocks: seq<BlockImage>, b: nat)
    requires ShelfOk(c, k, sh) && i < |sh.entries| && !sh.entries[i].Occupied() && Describes(c, e, rec)
    requires |blocks| == |sh.blocks| && b < |sh.owner|
    requires Bit(bitmap, b) <==> Bit(sh.bitmap, b) || b in rec.blocks
    ensures OwnerOk(WithFile(sh, i, e, rec, bitmap, blocks), b)
  {
    assert SlotOk(c, k, sh, i) && OwnerOk(sh, b);
    ClaimAt(sh.owner, i, rec.blocks, b);
    if b in rec.blocks {
      var p :| 0 <= p < |rec.blocks| && rec.blocks[p] == b;
    }
  }

  lemma StoreFile(c: Suite, k: Key, sh: Shelf, i: nat, e: FileEntry, rec: FileRec, bitmap: bytes, blocks: seq<BlockImage>)
    requires ShelfOk(c, k, sh) && i < |sh.entries| && !sh.entries[i].Occupied() && e.Occupied()
    requires e.name !in FilesOf(sh) && Describes(c, e, rec)
    requires Stored(c, k, e.id, rec, sh.blocks, blocks)
    requires forall p | 0 <= p < |rec.blocks| :: rec.blocks[p] in FreeSet(sh.bitmap, |sh.blocks|)
    requires forall b: nat :: Bit(bitmap, b) <==> Bit(sh.bitmap, b) || b in rec.blocks
    ensures ShelfOk(c, k, WithFile(sh, i, e, rec, bitmap, blocks))
    ensures FilesOf(WithFile(sh, i, e, rec, bitmap, blocks)) == FilesOf(sh)[e.name := rec.data]
  {
    var sh' := WithFile(sh, i, e, rec, bitmap, blocks);
    var t := Rows(sh.entries, sh.recs);
    assert Rows(sh'.entries, sh'.recs) == t[i := Some((e.name, rec.data))];
    FillRow(t, i, e.name, rec.data);
    forall j | 0 <= j < |sh'.entries|
      ensures SlotOk(c, k, sh', j)
    {
      SlotAfterStore(c, k, sh, i, e, rec, bitmap, blocks, j);
    }
    forall b | 0 <= b < |sh'.owner|
      ensures OwnerOk(sh', b)
    {
      OwnerAfterStore(c, k, sh, i, e, rec, bitmap, blocks, b);
    }
  }

  // ----- a new content key

  ghost predicate BlockRekeyed(c: Suite, k': Key, sh: Shelf, blocks: seq<BlockImage>, i: nat, p: nat)
    requires i < |sh.entries| == |sh.recs| && p < |sh.recs[i].blocks|
  {
    && sh.recs[i].Shaped() && sh.recs[i].blocks[p] < |blocks|
    && blocks[sh.recs[i].blocks[p]] == BlockBytes(c, k', sh.entries[i].id, sh.recs[i].blocks[p], Payload(sh.recs[i], p))
  }

  /** Every owned block re-encrypted in place under `k'`. */
  ghost predicate BlocksRekeyed(c: Suite, k': Key, sh: Shelf, blocks: seq<BlockImage>)
    requires |sh.recs| == |sh.entries|
  {
    forall i, p | 0 <= i < |sh.entries| && sh.entries[i].Occupied() && 0 <= p < |sh.recs[i].blocks| ::
      BlockRekeyed(c, k', sh, blocks, i, p)
  }

  lemma Rekey(c: Suite, k: Key, k': Key, sh: Shelf, blocks: seq<BlockImage>)
    requires ShelfOk(c, k, sh) && |blocks| == |sh.blocks| && BlocksRekeyed(c, k', sh, blocks)
    ensures ShelfOk(c, k', sh.(blocks := blocks))
  {
    var sh' := sh.(blocks := blocks);
    forall i | 0 <= i < |sh'.entries|
      ensures SlotOk(c, k', sh', i)
    {
      assert SlotOk(c, k, sh, i);
      if sh.entries[i].Occupied() {
        forall p | 0 <= p < |sh.recs[i].blocks|
          ensures BlockOk(c, k', sh', i, p)
        {
          assert BlockOk(c, k, sh, i, p) && BlockRekeyed(c, k', sh, blocks, i, p);
        }
      }
    }
    forall b | 0 <= b < |sh'.owner|
      ensures OwnerOk(sh', b)
    {
      assert OwnerOk(sh, b);
    }
  }

  // ----- reading a file

  /** The blocks hold the file that entry `e` describes. */
  ghost predicate Readable(c: Suite, k: Key, blocks: seq<BlockImage>, e: FileEntry, rec: FileRec) {
    && Describes(c, e, rec)
    && forall p | 0 <= p < |rec.blocks| ::
         && rec.blocks[p] < |blocks|
         && blocks[rec.blocks[p]] == BlockBytes(c, k, e.id, rec.blocks[p], Payload(rec, p))
  }

  lemma StoredFileIsReadable(c: Suite, k: Key, sh: Shelf, i: nat)
    requires ShelfOk(c, k, sh) && i < |sh.entries| && sh.entries[i].Occupied()
    ensures i < |sh.recs| && Readable(c, k, sh.blocks, sh.entries[i], sh.recs[i])
    ensures sh.entries[i].name in FilesOf(sh) && FilesOf(sh)[sh.entries[i].name] == sh.recs[i].data
  {
    assert SlotOk(c, k, sh, i);
    forall p | 0 <= p < |sh.recs[i].blocks|
      ensures sh.recs[i].blocks[p] < |sh.blocks|
      ensures sh.blocks[sh.recs[i].blocks[p]]
           == BlockBytes(c, k, sh.entries[i].id, sh.recs[i].blocks[p], Payload(sh.recs[i], p))
    {
      assert BlockOk(c, k, sh, i, p);
    }
    RowInMap(Rows(sh.entries, sh.recs), i);
  }

  lemma NameNotStored(sh: Shelf, name: Name)
    requires |sh.recs| == |sh.entries|
    requires forall i | 0 <= i < |sh.entries| :: sh.entries[i].Occupied() ==> sh.entries[i].name != name
    ensures name !in FilesOf(sh)
  {
    NotInMap(Rows(sh.entries, sh.recs), name);
  }

  lemma FreeSlots(c: Suite, k: Key, sh: Shelf)
    requires ShelfOk(c, k, sh)
    ensures |FilesOf(sh)| == |sh.entries| <==> forall i | 0 <= i < |sh.entries| :: sh.entries[i].Occupied()
  {
    var t := Rows(sh.entries, sh.recs);
    FullTable(t);
    assert forall i | 0 <= i < |t| :: t[i].Some? <==> sh.entries[i].Occupied();
  }
}
