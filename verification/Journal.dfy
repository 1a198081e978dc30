/** The bounded, in-memory journal of recent patches (`src/net/journal.rs`), and why replaying it
    catches a peer up. */
module Journal {

  import opened Bytes
  import opened Results
  import opened WriteLog

  datatype Entry = Entry(seqNo: nat, ranges: seq<Range>)

  /** At most `n` entries, the newest ones. */
  function Newest(entries: seq<Entry>, n: nat): seq<Entry>
  {
    if |entries| <= n then entries else entries[|entries| - n..]
  }

  /** Every range recorded at `s` or later, in order. */
  function Since(entries: seq<Entry>, s: nat): seq<Range>
  {
    if entries == [] then []
    else
      var last := entries[|entries| - 1];
      Since(entries[..|entries| - 1], s) + (if last.seqNo >= s then last.ranges else [])
  }

  /** When the journal claims to cover a peer whose next sequence number is `s`. */
  predicate Covers(entries: seq<Entry>, s: nat) {
    s != 0 && entries != [] && entries[0].seqNo <= s
  }

  /** The ranges of all entries, one after the other. */
  function AllRanges(entries: seq<Entry>): seq<Range> {
    if entries == [] then [] else entries[0].ranges + AllRanges(entries[1..])
  }

  lemma {:induction false} AllRangesAppend(entries: seq<Entry>, e: Entry)
    ensures AllRanges(entries + [e]) == AllRanges(entries) + e.ranges
  {
    if entries != [] {
      AllRangesAppend(entries[1..], e);
      assert (entries + [e])[1..] == entries[1..] + [e];
    } else {
      assert [e][1..] == [] && AllRanges([e]) == e.ranges + AllRanges([]);
    }
  }

  /** The entries split at `s`: those before `k` are older, the others are not. */
  predicate SplitsAt(entries: seq<Entry>, s: nat, k: nat) {
    && k <= |entries|
    && (forall j | 0 <= j < k :: entries[j].seqNo < s) && (forall j | k <= j < |entries| :: entries[j].seqNo >= s)
  }

  lemma NoRanges()
    ensures AllRanges([]) == []
  {
  }

  lemma TailOneMore(entries: seq<Entry>, k: nat)
    requires entries != [] && k <= |entries|
    ensures var n := |entries| - 1;
            if k == |entries| then entries[k..] == entries[..n][n..] == []
            else entries[k..] == entries[..n][k..] + [entries[n]]
  {
  }

  /** Where entries are tagged in order, the ranges since `s` are those of a tail of the journal. */
  lemma {:induction false} SinceIsTail(entries: seq<Entry>, s: nat, k: nat)
    requires SplitsAt(entries, s, k)
    ensures Since(entries, s) == AllRanges(entries[k..])
  {
    hide AllRanges;
    if entries == [] {
      assert entries[k..] == [] && AllRanges([]) == [] by { NoRanges(); }
    } else {
      var n := |entries| - 1;
      SinceIsTail(entries[..n], s, if k == |entries| then n else k);
      TailOneMore(entries, k);
      NoRanges();
      if k < |entries| {
        AllRangesAppend(entries[..n][k..], entries[n]);
      }
    }
  }

  lemma DropOneMore(all: seq<Entry>, d: nat)
    requires d < |all|
    ensures all[d..][1..] == all[d + 1..]
  {
  }

  class PatchJournal {
    var entries: seq<Entry>
    const capacity: nat

    constructor (capacity: nat)
      ensures this.capacity == capacity && entries == []
    {
      this.capacity := capacity;
      entries := [];
    }

    /** Appends a patch and drops the oldest ones beyond the capacity. */
    method Record(s: nat, ranges: seq<Range>)
      requires |entries| <= capacity
      modifies this`entries
      ensures |entries| <= capacity
      ensures entries == Newest(old(entries) + [Entry(s, ranges)], capacity)
      ensures |entries| == Min(|old(entries)| + 1, capacity)
      ensures entries == (old(entries) + [Entry(s, ranges)])[|old(entries)| + 1 - |entries|..]
    {
      if capacity == 0 {
        assert entries == [];
        assert Newest(entries + [Entry(s, ranges)], 0) == [];
        return;
      }
      entries := entries + [Entry(s, ranges)];
      ghost var all, dropped := entries, 0;
      while |entries| > capacity
        invariant dropped <= |all| && entries == all[dropped..]
        invariant dropped == 0 || |entries| >= capacity
      {
        DropOneMore(all, dropped);
        entries, dropped := entries[1..], dropped + 1;
      }
    }

    /** The combined ranges for a peer, or nothing when the peer needs a full copy: the peers covered are
        those that have a sequence number not below the tag of the oldest entry kept. */
    method RangesSince(peerNextSeq: nat) returns (r: Option<seq<Range>>)
      ensures r == if Covers(entries, peerNextSeq) then Some(Since(entries, peerNextSeq)) else None
      ensures r.Some? <==> peerNextSeq != 0 && entries != [] && entries[0].seqNo <= peerNextSeq
      ensures forall k: nat | r.Some? && SplitsAt(entries, peerNextSeq, k) :: r.value == AllRanges(entries[k..])
    {
      if peerNextSeq == 0 {
        return None;
      }
      if entries == [] {
        return None;
      }
      if peerNextSeq < entries[0].seqNo {
        return None;
      }
      var combined := [];
      for k := 0 to |entries|
        invariant combined == Since(entries[..k], peerNextSeq)
      {
        assert entries[..k + 1][..k] == entries[..k];
        if entries[k].seqNo >= peerNextSeq {
          combined := combined + entries[k].ranges;
        }
      }
      assert entries[..|entries|] == entries;
      forall k: nat | SplitsAt(entries, peerNextSeq, k)
        ensures combined == AllRanges(entries[k..])
      {
        SinceIsTail(entries, peerNextSeq, k);
      }
      return Some(combined);
    }
  }

  // ----- what a journal is a journal of

  /** The history of a container over one stretch of admin mutations: the bytes it started from when
      its next sequence number was `first`, every write since, and how many of those writes had
      happened each time the sequence number advanced. */
  datatype Timeline = Timeline(first: nat, start: bytes, writes: seq<Range>, cut: seq<nat>) {

    ghost predicate Valid() {
      && cut != [] && cut[0] == 0 && cut[|cut| - 1] == |writes|
      && Increasing(cut)
    }

    function Next(): int {
      first + |cut| - 1
    }

    /** The container as it was when the next sequence number was `s`. */
    ghost function At(s: nat): bytes
      requires Valid() && first <= s <= Next()
    {
      IncreasingAt(cut, s - first, |cut| - 1);
      Apply(writes[..cut[s - first]], start)
    }

    /** One more mutation. */
    function Extend(ranges: seq<Range>): Timeline {
      Timeline(first, start, writes + ranges, cut + [|writes| + |ranges|])
    }
  }

  /** An entry tagged `e.seqNo` carries the writes from position `from` to the end of its mutation;
      it reaches back at least to where the container stood at sequence number `reach`. */
  ghost predicate EntryOk(tl: Timeline, e: Entry, from: nat, reach: nat)
    requires tl.Valid()
  {
    && tl.first <= reach <= e.seqNo < tl.Next()
    && from <= tl.cut[reach - tl.first] <= tl.cut[e.seqNo + 1 - tl.first] <= |tl.writes|
    && e.ranges == tl.writes[from..tl.cut[e.seqNo + 1 - tl.first]]
  }

  /** `entries` records a timeline, possibly with gaps: `from[k]` is where the change log behind
      entry `k` began. Each entry reaches back at least to the end of the mutation the previous entry
      is tagged with -- further, when mutations in between went unrecorded or serving began with a
      change log already under way. */
  ghost predicate Records(tl: Timeline, entries: seq<Entry>, from: seq<nat>)
    requires tl.Valid()
  {
    && |from| == |entries|
    && (entries != [] ==>
          var n := |entries| - 1;
          && Records(tl, entries[..n], from[..n])
          && EntryOk(tl, entries[n], from[n], if n == 0 then entries[n].seqNo else entries[n - 1].seqNo + 1))
  }

  lemma CutsIncrease(tl: Timeline, a: nat, b: nat)
    requires tl.Valid() && tl.first <= a <= b <= tl.Next()
    ensures tl.cut[a - tl.first] <= tl.cut[b - tl.first] <= |tl.writes|
  {
    IncreasingAt(tl.cut, a - tl.first, b - tl.first);
    IncreasingAt(tl.cut, b - tl.first, |tl.cut| - 1);
  }

  /** Replaying a window of the writes on any state inside that window. */
  lemma ReplayWindow(start: bytes, writes: seq<Range>, a: nat, m: nat, b: nat)
    requires a <= m <= b <= |writes|
    ensures Apply(writes[a..b], Apply(writes[..m], start)) == Apply(writes[..b], start)
  {
    var l := writes[a..b];
    assert writes[..a] + l[..m - a] == writes[..m];
    assert writes[..a] + l == writes[..b];
    ApplyConcat(writes[..a], l[..m - a], start);
    ApplyConcat(writes[..a], l, start);
    ReplayAbsorbsPrefix(l, m - a, Apply(writes[..a], start));
  }

  lemma {:induction false} NothingSince(tl: Timeline, entries: seq<Entry>, from: seq<nat>, s: nat)
    requires tl.Valid() && Records(tl, entries, from)
    requires entries != [] ==> entries[|entries| - 1].seqNo < s
    ensures Since(entries, s) == []
  {
    if entries != [] {
      NothingSince(tl, entries[..|entries| - 1], from[..|entries| - 1], s);
    }
  }

  lemma ReplayEntry(tl: Timeline, e: Entry, from: nat, reach: nat, m: nat)
    requires tl.Valid() && EntryOk(tl, e, from, reach) && reach <= m <= e.seqNo
    ensures Apply(e.ranges, tl.At(m)) == tl.At(e.seqNo + 1)
  {
    CutsIncrease(tl, reach, m);
    CutsIncrease(tl, m, e.seqNo + 1);
    ReplayWindow(tl.start, tl.writes, from, tl.cut[m - tl.first], tl.cut[e.seqNo + 1 - tl.first]);
  }

  /** How far the combined patch brings a peer that stands at `s`. */
  function Reached(entries: seq<Entry>, s: nat): nat
    requires entries != []
  {
    Max(s, entries[|entries| - 1].seqNo + 1)
  }

  lemma SinceLast(entries: seq<Entry>, s: nat)
    requires entries != []
    ensures var n := |entries| - 1;
            && Since(entries, s) == Since(entries[..n], s) + (if entries[n].seqNo >= s then entries[n].ranges else [])
            && (n == 0 ==> Since(entries[..n], s) == [])
  {
  }

  lemma RecordsLast(tl: Timeline, entries: seq<Entry>, from: seq<nat>)
    requires tl.Valid() && Records(tl, entries, from) && entries != []
    ensures var n := |entries| - 1;
            && |from| == |entries| && Records(tl, entries[..n], from[..n])
            && EntryOk(tl, entries[n], from[n], if n == 0 then entries[n].seqNo else entries[n - 1].seqNo + 1)
            && tl.first <= (if n == 0 then entries[n].seqNo else entries[n - 1].seqNo + 1) <= entries[n].seqNo < tl.Next()
  {
  }

  /** A record of a timeline is tagged in order, with mutations of the timeline. */
  lemma {:induction false} RecordsInOrder(tl: Timeline, entries: seq<Entry>, from: seq<nat>, i: nat, j: nat)
    requires tl.Valid() && Records(tl, entries, from) && i <= j < |entries|
    ensures entries[j].seqNo < tl.Next() && (i < j ==> entries[i].seqNo < entries[j].seqNo)
  {
    hide Records, EntryOk, Timeline.Valid;
    RecordsLast(tl, entries, from);
    var n := |entries| - 1;
    if j < n {
      RecordsInOrder(tl, entries[..n], from[..n], i, j);
    } else if i < n {
      RecordsInOrder(tl, entries[..n], from[..n], i, n - 1);
    }
  }

  /** Whenever the journal claims coverage, the combined patch takes the container as it was at the
      peer's own sequence number to the container as it was right after the newest recorded mutation
      (or leaves it alone when the peer is already past that). */
  lemma {:induction false} ReplayCatchesUp(tl: Timeline, entries: seq<Entry>, from: seq<nat>, s: nat)
    requires tl.Valid() && Records(tl, entries, from)
    requires Covers(entries, s) && tl.first <= s <= tl.Next()
    ensures tl.first <= Reached(entries, s) <= tl.Next()
    ensures Apply(Since(entries, s), tl.At(s)) == tl.At(Reached(entries, s))
  {
    hide Records, EntryOk, Apply, Timeline.At, Since;
    var n := |entries| - 1;
    RecordsLast(tl, entries, from);
    SinceLast(entries, s);
    if entries[n].seqNo < s {
      NothingSince(tl, entries, from, s);
      ApplyNothing(tl.At(s));
    } else if n == 0 {
      assert [] + entries[n].ranges == entries[n].ranges;
      ReplayEntry(tl, entries[n], from[n], entries[n].seqNo, s);
    } else {
      ReplayCatchesUp(tl, entries[..n], from[..n], s);
      ApplyConcat(Since(entries[..n], s), entries[n].ranges, tl.At(s));
      ReplayEntry(tl, entries[n], from[n], entries[n - 1].seqNo + 1, Reached(entries[..n], s));
    }
  }

  // ----- how a journal stays a record of a timeline

  lemma ExtensionIsValid(tl: Timeline, ranges: seq<Range>)
    requires tl.Valid() && ranges != []
    ensures tl.Extend(ranges).Valid()
  {
    IncreasingAppend(tl.cut, |tl.writes| + |ranges|);
    hide Increasing;
  }

  lemma ExtensionKeepsState(tl: Timeline, ranges: seq<Range>, s: nat)
    requires tl.Valid() && tl.Extend(ranges).Valid() && tl.first <= s <= tl.Next()
    ensures tl.Extend(ranges).At(s) == tl.At(s)
  {
    hide Increasing, Apply;
    CutsIncrease(tl, s, s);
    assert tl.Extend(ranges).writes[..tl.cut[s - tl.first]] == tl.writes[..tl.cut[s - tl.first]];
  }

  lemma ExtensionAddsState(tl: Timeline, ranges: seq<Range>)
    requires tl.Valid() && tl.Extend(ranges).Valid()
    ensures tl.Extend(ranges).At(tl.Next() + 1) == Apply(ranges, tl.At(tl.Next()))
  {
    hide Increasing, Apply;
    var all := tl.writes + ranges;
    assert all[..|all|] == all;
    assert tl.writes[..|tl.writes|] == tl.writes;
    ApplyConcat(tl.writes, ranges, tl.start);
  }

  /** One more mutation leads from the last state to the next and leaves the earlier ones as they were. */
  lemma ExtensionKeepsHistory(tl: Timeline, ranges: seq<Range>)
    requires tl.Valid() && ranges != []
    ensures tl.Extend(ranges).Valid()
    ensures forall s: nat | tl.first <= s <= tl.Next() :: tl.Extend(ranges).At(s) == tl.At(s)
    ensures tl.Extend(ranges).At(tl.Next() + 1) == Apply(ranges, tl.At(tl.Next()))
  {
    ExtensionIsValid(tl, ranges);
    hide Increasing, Apply;
    forall s: nat | tl.first <= s <= tl.Next()
      ensures tl.Extend(ranges).At(s) == tl.At(s)
    {
      ExtensionKeepsState(tl, ranges, s);
    }
    ExtensionAddsState(tl, ranges);
  }

  lemma EntryUnderExtension(tl: Timeline, ranges: seq<Range>, e: Entry, from: nat, reach: nat)
    requires tl.Valid() && tl.Extend(ranges).Valid() && EntryOk(tl, e, from, reach)
    ensures EntryOk(tl.Extend(ranges), e, from, reach)
  {
    hide Increasing;
    var to := tl.cut[e.seqNo + 1 - tl.first];
    assert tl.Extend(ranges).writes[from..to] == tl.writes[from..to];
  }

  lemma {:induction false} RecordsUnderExtension(tl: Timeline, ranges: seq<Range>, entries: seq<Entry>, from: seq<nat>)
    requires tl.Valid() && Records(tl, entries, from) && ranges != []
    requires tl.Extend(ranges).Valid()
    ensures Records(tl.Extend(ranges), entries, from)
  {
    hide Timeline.Valid, Timeline.Extend, EntryOk;
    if entries != [] {
      var n := |entries| - 1;
      RecordsUnderExtension(tl, ranges, entries[..n], from[..n]);
      EntryUnderExtension(tl, ranges, entries[n], from[n], if n == 0 then entries[n].seqNo else entries[n - 1].seqNo + 1);
    }
  }

  lemma EntryReachesItself(tl: Timeline, e: Entry, from: nat, reach: nat)
    requires tl.Valid() && EntryOk(tl, e, from, reach)
    ensures EntryOk(tl, e, from, e.seqNo)
  {
    CutsIncrease(tl, reach, e.seqNo);
    CutsIncrease(tl, e.seqNo, e.seqNo + 1);
  }

  /** Evicting the oldest entries keeps the rest a record. */
  lemma {:induction false} RecordsAfterEviction(tl: Timeline, entries: seq<Entry>, from: seq<nat>, d: nat)
    requires tl.Valid() && Records(tl, entries, from) && d <= |entries|
    ensures Records(tl, entries[d..], from[d..])
  {
    hide EntryOk, Timeline.Valid;
    if d < |entries| {
      var n := |entries| - 1;
      RecordsAfterEviction(tl, entries[..n], from[..n], d);
      assert entries[d..][..n - d] == entries[..n][d..];
      assert from[d..][..n - d] == from[..n][d..];
      EntryReachesItself(tl, entries[n], from[n], if n == 0 then entries[n].seqNo else entries[n - 1].seqNo + 1);
    }
  }

  lemma RecordsAppend(tl: Timeline, entries: seq<Entry>, from: seq<nat>, e: Entry, f: nat)
    requires tl.Valid() && Records(tl, entries, from)
    requires EntryOk(tl, e, f, if entries == [] then e.seqNo else entries[|entries| - 1].seqNo + 1)
    ensures Records(tl, entries + [e], from + [f])
  {
    assert (entries + [e])[..|entries|] == entries && (from + [f])[..|entries|] == from;
  }

  lemma NewestEntryOk(tl: Timeline, drained: nat, reach: nat)
    requires tl.Valid() && tl.first <= reach < tl.Next() && drained <= tl.cut[reach - tl.first] && drained <= |tl.writes|
    ensures EntryOk(tl, Entry(tl.Next() - 1, tl.writes[drained..]), drained, reach)
  {
    hide Increasing;
    CutsIncrease(tl, reach, tl.Next());
    assert tl.writes[drained..] == tl.writes[drained..|tl.writes|];
  }

  /** Recording the change log of the newest mutation, where the change log was last drained at
      position `drained`, and evicting the oldest entries. */
  lemma RecordsAfterRecord(tl: Timeline, entries: seq<Entry>, from: seq<nat>, drained: nat, n: nat)
    requires tl.Valid() && Records(tl, entries, from) && tl.first < tl.Next()
    requires entries != [] ==> entries[|entries| - 1].seqNo < tl.Next() - 1
    requires entries != [] ==> tl.first <= entries[|entries| - 1].seqNo
    requires drained <= tl.cut[(if entries == [] then tl.Next() - 1 else entries[|entries| - 1].seqNo + 1) - tl.first]
    requires drained <= |tl.writes|
    ensures
      var all := entries + [Entry(tl.Next() - 1, tl.writes[drained..])];
      var kept := Newest(all, n);
      Records(tl, kept, (from + [drained])[|all| - |kept|..])
  {
    hide Records, EntryOk, Timeline.Valid;
    var reach := if entries == [] then tl.Next() - 1 else entries[|entries| - 1].seqNo + 1;
    var e := Entry(tl.Next() - 1, tl.writes[drained..]);
    NewestEntryOk(tl, drained, reach);
    RecordsAppend(tl, entries, from, e, drained);
    var all, from' := entries + [e], from + [drained];
    RecordsAfterEviction(tl, all, from', |all| - |Newest(all, n)|);
  }
}
