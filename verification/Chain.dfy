/** The signed, hash-linked chain kept in a ring of slots: a bounded window over an unbounded
    history (`append_signed_chain_record` and `verify_integrity` of `src/core/vault.rs`). */
module Chain {

  import opened Bytes
  import opened Results
  import opened Crypto
  import opened Format

  // ----- slot arithmetic

  lemma NoMultipleBetween(n: nat, q: int)
    ensures !(0 < n * q < n)
  {
    if q >= 1 {
      assert n * q >= n;
    } else {
      assert n * q <= 0;
    }
  }

  lemma DifferentSlots(a: nat, b: nat, n: nat)
    requires a < b < a + n
    ensures a % n != b % n
  {
    assert n * (b / n - a / n) == b - a - (b % n - a % n);
    NoMultipleBetween(n, b / n - a / n);
  }

  function Newest(next: nat): nat {
    if next == 0 then 0 else next - 1
  }

  /** The oldest sequence number still in the window of `n` slots. */
  function Oldest(next: nat, n: nat): nat
    requires n > 0
  {
    if Newest(next) < n - 1 then 0 else Newest(next) - (n - 1)
  }

  // ----- a genuine history

  ghost predicate GenuineAt(c: Suite, pub: Arr32, history: seq<ChainRecord>, s: nat)
    requires s < |history|
  {
    && history[s].seqNo == s
    && VerifySelf(c, history[s])
    && c.verify(pub, history[s].recordHash, history[s].signature)
    && history[s].prevHash == if s == 0 then Zeros(32) else history[s - 1].recordHash
  }

  /** Every record in its place, hashed, signed and linked to its predecessor. */
  ghost predicate Genuine(c: Suite, pub: Arr32, history: seq<ChainRecord>) {
    forall s | 0 <= s < |history| :: GenuineAt(c, pub, history, s)
  }

  /** The ring holds the last records of the history, each in slot `seqNo % n`; slots that were never
      reached are empty. */
  ghost predicate Window(ring: seq<Option<ChainRecord>>, history: seq<ChainRecord>)
    requires |ring| > 0
  {
    && (forall s | 0 <= s < |history| && |history| <= s + |ring| :: ring[s % |ring|] == Some(history[s]))
    && (forall j | |history| <= j < |ring| :: ring[j] == None)
  }

  lemma WrittenSlot(ring: seq<Option<ChainRecord>>, history: seq<ChainRecord>, r: ChainRecord, s: nat)
    requires |ring| > 0 && Window(ring, history) && s <= |history| && |history| < s + |ring|
    ensures ring[|history| % |ring| := Some(r)][s % |ring|] == Some((history + [r])[s])
  {
    if s < |history| {
      DifferentSlots(s, |history|, |ring|);
    }
  }

  lemma EmptySlot(ring: seq<Option<ChainRecord>>, history: seq<ChainRecord>, r: ChainRecord, j: nat)
    requires |ring| > 0 && Window(ring, history) && |history| < j < |ring|
    ensures ring[|history| % |ring| := Some(r)][j] == None
  {
    assert |history| % |ring| == |history|;
  }

  /** One more record overwrites the oldest slot and keeps the rest, however often the ring has
      already wrapped around. */
  lemma AppendKeepsWindow(ring: seq<Option<ChainRecord>>, history: seq<ChainRecord>, r: ChainRecord)
    requires |ring| > 0 && Window(ring, history)
    ensures Window(ring[|history| % |ring| := Some(r)], history + [r])
  {
    var ring', h := ring[|history| % |ring| := Some(r)], history + [r];
    forall s | 0 <= s < |h| && |h| <= s + |ring'|
      ensures ring'[s % |ring'|] == Some(h[s])
    {
      WrittenSlot(ring, history, r, s);
    }
    forall j | |h| <= j < |ring'|
      ensures ring'[j] == None
    {
      EmptySlot(ring, history, r, j);
    }
  }

  lemma AppendKeepsGenuine(c: Suite, pub: Arr32, history: seq<ChainRecord>, r: ChainRecord)
    requires Genuine(c, pub, history)
    requires r.seqNo == |history| && VerifySelf(c, r) && c.verify(pub, r.recordHash, r.signature)
    requires r.prevHash == if history == [] then Zeros(32) else history[|history| - 1].recordHash
    ensures Genuine(c, pub, history + [r])
  {
    forall s | 0 <= s < |history| + 1
      ensures GenuineAt(c, pub, history + [r], s)
    {
      if s < |history| {
        assert GenuineAt(c, pub, history, s);
      }
    }
  }

  // ----- the check

  /** What reading a slot yields: an error, nothing, or a record. */
  type Region = r: seq<Result<Option<ChainRecord>>> | |r| > 0 witness [Ok(None)]

  /** What the slot of a sequence number holds. */
  function RingAt(region: Region, s: nat): Result<Option<ChainRecord>> {
    region[s % |region|]
  }

  /** The record checks, in the source's order. */
  function CheckRecord(c: Suite, pub: Arr32, rec: ChainRecord, s: nat, prev: Option<ChainRecord>): Result<()> {
    if rec.seqNo != s then Err(IntegrityViolation)
    else if !VerifySelf(c, rec) then Err(IntegrityViolation)
    else if !c.verify(pub, rec.recordHash, rec.signature) then Err(IntegrityViolation)
    else if prev.Some? && rec.prevHash != prev.value.recordHash then Err(IntegrityViolation)
    else Ok(())
  }

  /** The walk over the window; empty slots are skipped. Returns the last record seen. */
  function Walk(c: Suite, pub: Arr32, region: Region, s: nat, newest: nat, prev: Option<ChainRecord>)
    : Result<Option<ChainRecord>>
    decreases newest + 1 - s
  {
    if s > newest then Ok(prev)
    else
      match RingAt(region, s)
      case Err(e) => Err(e)
      case Ok(None) => Walk(c, pub, region, s + 1, newest, prev)
      case Ok(Some(rec)) =>
        if CheckRecord(c, pub, rec, s, prev).Ok? then Walk(c, pub, region, s + 1, newest, Some(rec))
        else Err(IntegrityViolation)
  }

  function Anchored(last: Option<ChainRecord>, lastHash: Arr32): Result<()> {
    if last.Some? && last.value.recordHash != lastHash then Err(IntegrityViolation) else Ok(())
  }

  function CheckChain(c: Suite, pub: Arr32, next: nat, lastHash: Arr32, region: Region): Result<()> {
    match Walk(c, pub, region, Oldest(next, |region|), Newest(next), None)
    case Err(e) => Err(e)
    case Ok(last) => Anchored(last, lastHash)
  }

  // ----- what the check accepts, slot by slot

  /** The last record in the slots from `from` up to, but not including, `s`. */
  function LastBefore(region: Region, from: nat, s: nat): Option<ChainRecord> {
    if s <= from then None
    else
      var slot := region[(s - 1) % |region|];
      if slot.Ok? && slot.value.Some? then slot.value else LastBefore(region, from, s - 1)
  }

  /** The slot is empty, or holds the record with this sequence number, hashed and signed. */
  predicate SlotVerifies(c: Suite, pub: Arr32, slot: Result<Option<ChainRecord>>, s: nat) {
    && slot.Ok?
    && (slot.value.Some? ==>
          var rec := slot.value.value;
          rec.seqNo == s && rec.recordHash == c.hash(HashInput(rec)) && c.verify(pub, rec.recordHash, rec.signature))
  }

  predicate LinksBack(slot: Result<Option<ChainRecord>>, prev: Option<ChainRecord>) {
    slot.Ok? && slot.value.Some? && prev.Some? ==> slot.value.value.prevHash == prev.value.recordHash
  }

  ghost predicate GoodAt(c: Suite, pub: Arr32, region: Region, from: nat, s: nat) {
    && SlotVerifies(c, pub, region[s % |region|], s)
    && LinksBack(region[s % |region|], LastBefore(region, from, s))
  }

  ghost predicate UnbrokenFrom(c: Suite, pub: Arr32, region: Region, from: nat, newest: nat, lastHash: Arr32) {
    var last := LastBefore(region, from, newest + 1);
    && (forall s: nat | s <= newest < s + |region| :: GoodAt(c, pub, region, from, s))
    && (last.Some? ==> last.value.recordHash == lastHash)
  }

  /** Every slot of the last `|region|` sequence numbers verifies and links back to the record before
      it, and the last record is the one the header anchors. */
  ghost predicate Unbroken(c: Suite, pub: Arr32, next: nat, lastHash: Arr32, region: Region) {
    var newest := if next == 0 then 0 else next - 1;
    UnbrokenFrom(c, pub, region, if newest < |region| then 0 else newest + 1 - |region|, newest, lastHash)
  }

  lemma WalkStep(c: Suite, pub: Arr32, region: Region, s: nat, newest: nat, prev: Option<ChainRecord>)
    requires s <= newest
    ensures var w, slot := Walk(c, pub, region, s, newest, prev), RingAt(region, s);
            && (slot.Err? ==> w == Err(slot.error))
            && (slot.Ok? && slot.value.None? ==> w == Walk(c, pub, region, s + 1, newest, prev))
            && (slot.Ok? && slot.value.Some? ==>
                  w == if CheckRecord(c, pub, slot.value.value, s, prev).Ok? then Walk(c, pub, region, s + 1, newest, slot.value)
                       else Err(IntegrityViolation))
  {
    hide CheckRecord;
  }

  lemma WalkStops(c: Suite, pub: Arr32, region: Region, newest: nat, prev: Option<ChainRecord>)
    ensures Walk(c, pub, region, newest + 1, newest, prev) == Ok(prev)
  {
  }

  lemma OneMoreSlot(region: Region, from: nat, s: nat)
    requires from <= s
    ensures var slot := RingAt(region, s);
            LastBefore(region, from, s + 1) == if slot.Ok? && slot.value.Some? then slot.value else LastBefore(region, from, s)
  {
  }

  lemma GoodSlot(c: Suite, pub: Arr32, region: Region, from: nat, s: nat)
    ensures var slot := RingAt(region, s);
            GoodAt(c, pub, region, from, s) <==>
              slot.Ok? && (slot.value.Some? ==> CheckRecord(c, pub, slot.value.value, s, LastBefore(region, from, s)).Ok?)
  {
  }

  lemma {:induction false} WalkExactly(c: Suite, pub: Arr32, region: Region, from: nat, s: nat, newest: nat)
    requires from <= s <= newest + 1
    ensures var w := Walk(c, pub, region, s, newest, LastBefore(region, from, s));
            && (w.Ok? <==> forall t | s <= t <= newest :: GoodAt(c, pub, region, from, t))
            && (w.Ok? ==> w.value == LastBefore(region, from, newest + 1))
    decreases newest + 1 - s
  {
    hide Walk, GoodAt, CheckRecord, LastBefore, RingAt;
    if s > newest {
      WalkStops(c, pub, region, newest, LastBefore(region, from, s));
    } else {
      WalkStep(c, pub, region, s, newest, LastBefore(region, from, s));
      OneMoreSlot(region, from, s);
      GoodSlot(c, pub, region, from, s);
      WalkExactly(c, pub, region, from, s + 1, newest);
    }
  }

  lemma TheWindow(next: nat, n: nat, s: nat)
    requires n > 0
    ensures Newest(next) == if next == 0 then 0 else next - 1
    ensures Oldest(next, n) == if Newest(next) < n then 0 else Newest(next) + 1 - n
    ensures Oldest(next, n) <= s <= Newest(next) <==> s <= Newest(next) < s + n
  {
  }

  lemma NothingBefore(region: Region, from: nat)
    ensures LastBefore(region, from, from) == None
  {
  }

  /** The walk accepts exactly the unbroken chains. */
  lemma AcceptsTheUnbroken(c: Suite, pub: Arr32, next: nat, lastHash: Arr32, region: Region)
    ensures CheckChain(c, pub, next, lastHash, region).Ok? <==> Unbroken(c, pub, next, lastHash, region)
  {
    var newest, from := Newest(next), Oldest(next, |region|);
    TheWindow(next, |region|, 0);
    WalkExactly(c, pub, region, from, from, newest);
    NothingBefore(region, from);
    hide Walk, GoodAt, LastBefore, Oldest, Newest;
    forall s: nat | s <= newest < s + |region| && forall t | from <= t <= newest :: GoodAt(c, pub, region, from, t)
      ensures GoodAt(c, pub, region, from, s)
    {
      TheWindow(next, |region|, s);
    }
    forall t: nat | from <= t <= newest && UnbrokenFrom(c, pub, region, from, newest, lastHash)
      ensures GoodAt(c, pub, region, from, t)
    {
      TheWindow(next, |region|, t);
    }
  }

  /** What passes: each of the last `|region|` sequence numbers finds its slot empty, or its own record
      there, hashed and signed by the admin. */
  lemma PassingSlots(c: Suite, pub: Arr32, next: nat, lastHash: Arr32, region: Region)
    requires CheckChain(c, pub, next, lastHash, region).Ok?
    ensures forall s: nat | s < next <= s + |region| :: SlotVerifies(c, pub, region[s % |region|], s)
  {
    AcceptsTheUnbroken(c, pub, next, lastHash, region);
    hide CheckChain, SlotVerifies, LinksBack;
    var newest := if next == 0 then 0 else next - 1;
    var from := if newest < |region| then 0 else newest + 1 - |region|;
    forall s: nat | s < next <= s + |region|
      ensures SlotVerifies(c, pub, region[s % |region|], s)
    {
      assert GoodAt(c, pub, region, from, s);
    }
  }

  // ----- tamper evidence

  /** Two records that differ in some hashed field but have the same hash. */
  predicate Collide(c: Suite, a: ChainRecord, b: ChainRecord) {
    HashInput(a) != HashInput(b) && c.hash(HashInput(a)) == c.hash(HashInput(b))
  }

  /** No record of the region collides with a genuine one. */
  ghost predicate NoCollision(c: Suite, region: Region, history: seq<ChainRecord>) {
    forall j, s | 0 <= j < |region| && 0 <= s < |history| ::
      region[j].Ok? && region[j].value.Some? ==> !Collide(c, region[j].value.value, history[s])
  }

  predicate SameButSignature(a: ChainRecord, b: ChainRecord) {
    a.(signature := b.signature) == b
  }

  /** A slot that holds record `s` of the history, with some valid signature. */
  ghost predicate HoldsGenuine(c: Suite, pub: Arr32, region: Region, history: seq<ChainRecord>, s: nat)
    requires s < |history|
  {
    var slot := region[s % |region|];
    && slot.Ok? && slot.value.Some?
    && SameButSignature(slot.value.value, history[s])
    && c.verify(pub, slot.value.value.recordHash, slot.value.value.signature)
  }

  /** From `from` on, the region is empty up to `k` and genuine from `k` on. */
  ghost predicate SuffixFrom(c: Suite, pub: Arr32, region: Region, history: seq<ChainRecord>, from: nat, k: nat) {
    && from <= k <= |history|
    && (forall s | from <= s < k :: RingAt(region, s) == Ok(None))
    && (forall s | k <= s < |history| :: HoldsGenuine(c, pub, region, history, s))
  }

  /** Equal hashes, without a collision, mean the same record. */
  lemma SameHashSameRecord(c: Suite, pub: Arr32, a: ChainRecord, history: seq<ChainRecord>, s: nat)
    requires Genuine(c, pub, history) && s < |history|
    requires VerifySelf(c, a) && !Collide(c, a, history[s]) && a.recordHash == history[s].recordHash
    ensures SameButSignature(a, history[s]) && a.seqNo == s
  {
    assert GenuineAt(c, pub, history, s);
    HashInputInjective(a, history[s]);
  }

  ghost predicate Trusted(c: Suite, history: seq<ChainRecord>, rec: ChainRecord, s: nat) {
    rec.seqNo < s && VerifySelf(c, rec) && forall t | 0 <= t < |history| :: !Collide(c, rec, history[t])
  }

  lemma WalkEnds(c: Suite, pub: Arr32, region: Region, history: seq<ChainRecord>, prev: Option<ChainRecord>)
    requires history != []
    ensures Walk(c, pub, region, |history|, |history| - 1, prev) == Ok(prev)
    ensures SuffixFrom(c, pub, region, history, |history|, |history|)
  {
    WalkStops(c, pub, region, |history| - 1, prev);
  }

  lemma GenuineRecord(c: Suite, pub: Arr32, history: seq<ChainRecord>, s: nat)
    requires Genuine(c, pub, history) && s < |history|
    ensures history[s].seqNo == s && (s > 0 ==> history[s].prevHash == history[s - 1].recordHash)
  {
    assert GenuineAt(c, pub, history, s);
  }

  lemma SuffixGrows(c: Suite, pub: Arr32, region: Region, history: seq<ChainRecord>, s: nat, k: nat)
    requires s < |history| && SuffixFrom(c, pub, region, history, s + 1, k)
    ensures RingAt(region, s) == Ok(None) ==> SuffixFrom(c, pub, region, history, s, k)
    ensures k == s + 1 && HoldsGenuine(c, pub, region, history, s) ==> SuffixFrom(c, pub, region, history, s, s)
  {
    hide HoldsGenuine;
  }

  /** Backward induction over the links, from the anchor in the header. */
  lemma {:induction false} WalkForcesSuffix(c: Suite, pub: Arr32, region: Region, history: seq<ChainRecord>, s: nat,
                                            prev: Option<ChainRecord>) returns (k: nat)
    requires Genuine(c, pub, history) && NoCollision(c, region, history) && history != [] && s <= |history|
    requires prev.Some? ==> Trusted(c, history, prev.value, s)
    requires var w := Walk(c, pub, region, s, |history| - 1, prev);
             w.Ok? && w.value.Some? && w.value.value.recordHash == history[|history| - 1].recordHash
    ensures SuffixFrom(c, pub, region, history, s, k)
    ensures prev.Some? ==> k == s && s > 0 && SameButSignature(prev.value, history[s - 1])
    decreases |history| - s
  {
    hide Genuine, SuffixFrom, Walk, Collide, VerifySelf;
    if s == |history| {
      WalkEnds(c, pub, region, history, prev);
      SameHashSameRecord(c, pub, prev.value, history, s - 1);
      k := s;
    } else {
      WalkStep(c, pub, region, s, |history| - 1, prev);
      GenuineRecord(c, pub, history, s);
      var slot := RingAt(region, s).value;
      if slot.None? {
        k := WalkForcesSuffix(c, pub, region, history, s + 1, prev);
      } else {
        var _ := WalkForcesSuffix(c, pub, region, history, s + 1, slot);
        if prev.Some? {
          SameHashSameRecord(c, pub, prev.value, history, s - 1);
        }
        k := s + 1;
      }
      SuffixGrows(c, pub, region, history, s, k);
      k := if slot.None? then k else s;
    }
  }

  /** An all-empty window yields no record at all. */
  lemma {:induction false} WalkOfNothing(c: Suite, pub: Arr32, region: Region, s: nat, newest: nat, prev: Option<ChainRecord>)
    requires Walk(c, pub, region, s, newest, prev).Ok?
    ensures Walk(c, pub, region, s, newest, prev).value == None ==>
              prev == None && forall t | s <= t <= newest :: RingAt(region, t) == Ok(None)
    decreases newest + 1 - s
  {
    if s <= newest {
      var slot := RingAt(region, s).value;
      WalkOfNothing(c, pub, region, s + 1, newest, if slot.Some? then slot else prev);
    }
  }

  lemma {:induction false} SuffixPasses(c: Suite, pub: Arr32, region: Region, history: seq<ChainRecord>, s: nat, k: nat,
                                        prev: Option<ChainRecord>)
    requires Genuine(c, pub, history) && history != [] && SuffixFrom(c, pub, region, history, s, k)
    requires prev.Some? ==> k == s && s > 0 && prev.value.recordHash == history[s - 1].recordHash
    ensures var w := Walk(c, pub, region, s, |history| - 1, prev);
            w.Ok? && (w.value.Some? ==> w.value.value.recordHash == history[|history| - 1].recordHash)
    decreases |history| - s
  {
    if s < |history| {
      if s < k {
        SuffixPasses(c, pub, region, history, s + 1, k, prev);
      } else {
        assert HoldsGenuine(c, pub, region, history, s) && GenuineAt(c, pub, history, s);
        var rec := RingAt(region, s).value.value;
        assert HashedFields(rec) == HashedFields(history[s]);
        SuffixPasses(c, pub, region, history, s + 1, s + 1, Some(rec));
      }
    }
  }

  lemma OldestIsOld(next: nat, n: nat)
    requires n > 0 && next > 0
    ensures Oldest(next, n) < next
  {
  }

  lemma NothingIsASuffix(c: Suite, pub: Arr32, region: Region, history: seq<ChainRecord>, from: nat)
    requires from <= |history| && forall s | from <= s < |history| :: RingAt(region, s) == Ok(None)
    ensures SuffixFrom(c, pub, region, history, from, |history|)
  {
  }

  /** In the last `|region|` sequence numbers the region is empty below `k` and genuine from `k` on. */
  ghost predicate GenuineFrom(c: Suite, pub: Arr32, region: Region, history: seq<ChainRecord>, k: nat) {
    && k <= |history|
    && forall s: nat | s < |history| <= s + |region| ::
         if s < k then region[s % |region|] == Ok(None) else HoldsGenuine(c, pub, region, history, s)
  }

  lemma SuffixOfWindow(c: Suite, pub: Arr32, region: Region, history: seq<ChainRecord>, k: nat)
    requires history != []
    ensures var from := Oldest(|history|, |region|);
            && (SuffixFrom(c, pub, region, history, from, k) ==> GenuineFrom(c, pub, region, history, k))
            && (GenuineFrom(c, pub, region, history, k) ==>
                  SuffixFrom(c, pub, region, history, from, if k < from then from else k))
  {
    hide HoldsGenuine, Oldest;
    var n, from := |region|, Oldest(|history|, |region|);
    forall s: nat | s < |history| <= s + n && SuffixFrom(c, pub, region, history, from, k)
      ensures if s < k then region[s % n] == Ok(None) else HoldsGenuine(c, pub, region, history, s)
    {
      TheWindow(|history|, n, s);
      assert s < k ==> RingAt(region, s) == Ok(None);
    }
    forall s: nat | from <= s < |history| && GenuineFrom(c, pub, region, history, k)
      ensures if s < k then RingAt(region, s) == Ok(None) else HoldsGenuine(c, pub, region, history, s)
    {
      TheWindow(|history|, n, s);
    }
    OldestIsOld(|history|, n);
  }

  /** Tamper evidence, exactly: under a genuine header, and short of a hash collision, the check
      accepts a chain region if and only if its window is a suffix of the genuine one -- possibly the
      empty suffix -- preceded by empty slots, record by record the same except for signature bytes,
      each of which the admin's key verifies. */
  lemma TamperEvidence(c: Suite, pub: Arr32, region: Region, history: seq<ChainRecord>)
    requires Genuine(c, pub, history) && history != []
    requires NoCollision(c, region, history)
    ensures CheckChain(c, pub, |history|, history[|history| - 1].recordHash, region).Ok?
       <==> exists k: nat :: GenuineFrom(c, pub, region, history, k)
  {
    hide Walk, GenuineFrom, SuffixFrom, Oldest;
    var oldest, last := Oldest(|history|, |region|), history[|history| - 1].recordHash;
    var w := Walk(c, pub, region, oldest, |history| - 1, None);
    OldestIsOld(|history|, |region|);
    if CheckChain(c, pub, |history|, last, region).Ok? {
      var k := |history|;
      if w.value.None? {
        WalkOfNothing(c, pub, region, oldest, |history| - 1, None);
        NothingIsASuffix(c, pub, region, history, oldest);
      } else {
        k := WalkForcesSuffix(c, pub, region, history, oldest, None);
      }
      SuffixOfWindow(c, pub, region, history, k);
    }
    if k: nat :| GenuineFrom(c, pub, region, history, k) {
      SuffixOfWindow(c, pub, region, history, k);
      SuffixPasses(c, pub, region, history, oldest, if k < oldest then oldest else k, None);
    }
  }

  function AsRegion(ring: seq<Option<ChainRecord>>): Region
    requires |ring| > 0
  {
    seq(|ring|, j requires 0 <= j < |ring| => Ok(ring[j]))
  }

  /** The ring of a vault only its admin has written passes the check. */
  lemma GenuinePasses(c: Suite, pub: Arr32, ring: seq<Option<ChainRecord>>, history: seq<ChainRecord>)
    requires |ring| > 0 && Genuine(c, pub, history) && history != [] && Window(ring, history)
    ensures CheckChain(c, pub, |history|, history[|history| - 1].recordHash, AsRegion(ring)) == Ok(())
  {
    var oldest := Oldest(|history|, |ring|);
    forall s | oldest <= s < |history|
      ensures HoldsGenuine(c, pub, AsRegion(ring), history, s)
    {
      assert GenuineAt(c, pub, history, s);
      assert ring[s % |ring|] == Some(history[s]);
    }
    SuffixPasses(c, pub, AsRegion(ring), history, oldest, oldest, None);
  }
}
