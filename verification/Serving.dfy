/** An admin serving a vault: the terminal interface's unlocked state and the command line's serve
    loop (`src/tui/widgets/vaults/unlocked.rs`, `src/tui/widgets/network_tab.rs`,
    `src/cli/commands/network.rs`). Both keep a vault handle and, while serving, a journal; what
    differs is which mutations they record. */
module Serving {

  import opened Bytes
  import opened Results
  import opened Crypto
  import opened WriteLog
  import opened Codec
  import opened Headers
  import opened Container
  import opened Model
  import opened Image
  import opened Shelf
  import opened Vaults
  import opened Opening
  import opened Runs
  import opened Journal
  import opened Protocol
  import opened Session

  // ----- the past of a container

  /** The container was healthy, and its own header said `s`. */
  ghost predicate Snapshot(c: Suite, file: bytes, g: Image, s: nat) {
    && Represents(c, file, g.st) && Healthy(c, g) && |g.recs| == |g.st.entries|
    && g.st.header.layout.chainNextSeq == s
  }

  ghost predicate Snapshots(c: Suite, tl: Timeline, snaps: seq<Image>)
    requires tl.Valid()
  {
    && |snaps| == |tl.cut|
    && forall k | 0 <= k < |snaps| :: Snapshot(c, tl.At(tl.first + k), snaps[k], tl.first + k)
  }

  /** Every state the container went through, where each journal entry begins, and how many writes had
      happened when the change log was last drained. */
  datatype Past = Past(tl: Timeline, snaps: seq<Image>, from: seq<nat>, drained: nat)

  ghost predicate Tracks(c: Suite, p: Past, file: bytes, next: nat, log: seq<Range>) {
    && p.tl.Valid() && p.tl.first > 0 && p.tl.Next() == next && p.tl.At(next) == file
    && Snapshots(c, p.tl, p.snaps)
    && p.drained <= |p.tl.writes| && log == p.tl.writes[p.drained..]
  }

  /** The journal records the past, up to where the change log was last drained. */
  ghost predicate JournalOk(p: Past, entries: seq<Entry>) {
    && p.tl.Valid() && Records(p.tl, entries, p.from)
    && (entries != [] ==>
          var newest := entries[|entries| - 1].seqNo;
          p.tl.first <= newest < p.tl.Next() && p.drained == p.tl.cut[newest + 1 - p.tl.first])
  }

  /** The past is only ever added to. */
  ghost predicate Continues(p: Past, q: Past) {
    && p.tl.Valid() && q.tl.Valid() && p.tl.first == q.tl.first && p.tl.Next() <= q.tl.Next() && p.snaps <= q.snaps
    && forall s: nat | p.tl.first <= s <= p.tl.Next() :: q.tl.At(s) == p.tl.At(s)
  }

  /** The last state of the past is this one. */
  ghost predicate EndsIn(p: Past, g: Image) {
    p.snaps != [] && p.snaps[|p.snaps| - 1] == g
  }

  lemma ContinuesOnward(p: Past, q: Past, r: Past)
    requires Continues(p, q) && Continues(q, r)
    ensures Continues(p, r)
  {
    hide Timeline.At, Timeline.Valid;
  }

  function Grown(p: Past, ranges: seq<Range>, g: Image): Past {
    p.(tl := p.tl.Extend(ranges), snaps := p.snaps + [g])
  }

  lemma ExtendedShape(tl: Timeline, ranges: seq<Range>)
    ensures var tl' := tl.Extend(ranges); tl'.first == tl.first && |tl'.cut| == |tl.cut| + 1
    ensures tl.Extend(ranges).Next() == tl.Next() + 1 == tl.first + |tl.cut|
  {
  }

  lemma SnapshotsGrow(c: Suite, p: Past, ranges: seq<Range>, g: Image)
    requires p.tl.Valid() && Snapshots(c, p.tl, p.snaps) && ranges != []
    requires Snapshot(c, Apply(ranges, p.tl.At(p.tl.Next())), g, p.tl.Next() + 1)
    ensures p.tl.Extend(ranges).Valid() && Snapshots(c, p.tl.Extend(ranges), p.snaps + [g])
  {
    hide Timeline.At, Timeline.Valid, Timeline.Extend, Timeline.Next, Snapshot, Apply;
    ExtensionKeepsHistory(p.tl, ranges);
    ExtendedShape(p.tl, ranges);
    var tl', snaps' := p.tl.Extend(ranges), p.snaps + [g];
    forall k | 0 <= k < |snaps'|
      ensures Snapshot(c, tl'.At(tl'.first + k), snaps'[k], tl'.first + k)
    {
      if k < |p.snaps| {
        assert Snapshot(c, p.tl.At(p.tl.first + k), p.snaps[k], p.tl.first + k);
      } else {
        assert tl'.first + k == p.tl.Next() + 1;
      }
    }
  }

  /** One accepted mutation: the new writes extend the past and the change log alike. */
  lemma Grow(c: Suite, p: Past, file: bytes, next: nat, log: seq<Range>, file': bytes, log': seq<Range>, g: Image)
    requires Tracks(c, p, file, next, log) && log <= log' && |log| < |log'|
    requires file' == Apply(log'[|log|..], file) && Snapshot(c, file', g, next + 1)
    ensures var q := Grown(p, log'[|log|..], g); Tracks(c, q, file', next + 1, log') && Continues(p, q)
  {
    hide Snapshot, Snapshots, Apply;
    var ranges := log'[|log|..];
    ExtensionKeepsHistory(p.tl, ranges);
    SnapshotsGrow(c, p, ranges, g);
    assert log' == log + ranges;
    assert (p.tl.writes + ranges)[p.drained..] == p.tl.writes[p.drained..] + ranges;
  }

  lemma JournalUnderGrowth(p: Past, entries: seq<Entry>, ranges: seq<Range>, g: Image)
    requires JournalOk(p, entries) && ranges != [] && p.tl.Extend(ranges).Valid()
    ensures JournalOk(Grown(p, ranges, g), entries)
  {
    RecordsUnderExtension(p.tl, ranges, entries, p.from);
    hide Records;
  }

  /** The newest mutation, tagged `s`, is not recorded yet. */
  ghost predicate Unrecorded(p: Past, entries: seq<Entry>, s: nat) {
    && p.tl.Valid() && p.tl.first <= s && p.tl.Next() == s + 1
    && p.drained <= p.tl.cut[s - p.tl.first]
    && (entries != [] ==> entries[|entries| - 1].seqNo < s)
  }

  lemma UnrecordedAfterGrowth(p: Past, entries: seq<Entry>, ranges: seq<Range>, g: Image)
    requires JournalOk(p, entries) && p.drained <= |p.tl.writes| && p.tl.Extend(ranges).Valid()
    ensures Unrecorded(Grown(p, ranges, g), entries, p.tl.Next())
  {
    hide Records;
  }

  function AllDrained(p: Past): Past {
    p.(drained := |p.tl.writes|)
  }

  function Recorded(p: Past, entries: seq<Entry>, kept: nat): Past
    requires kept <= |p.from| + 1
  {
    p.(from := (p.from + [p.drained])[|p.from| + 1 - kept..], drained := |p.tl.writes|)
  }

  lemma TracksDrained(c: Suite, p: Past, file: bytes, next: nat, log: seq<Range>, q: Past)
    requires Tracks(c, p, file, next, log) && q.tl == p.tl && q.snaps == p.snaps && q.drained == |p.tl.writes|
    ensures Tracks(c, q, file, next, []) && Continues(p, q)
  {
    hide Snapshots;
  }

  /** Draining the change log into the journal. */
  lemma JournalAfterRecord(p: Past, entries: seq<Entry>, s: nat, log: seq<Range>, n: nat)
    requires JournalOk(p, entries) && Unrecorded(p, entries, s) && n > 0
    requires p.drained <= |p.tl.writes| && log == p.tl.writes[p.drained..]
    ensures |p.from| == |entries|
    ensures var kept := Newest(entries + [Entry(s, log)], n);
            kept != [] && |kept| <= |p.from| + 1 && JournalOk(Recorded(p, entries, |kept|), kept)
  {
    assert |p.from| == |entries|;
    RecordsAfterRecord(p.tl, entries, p.from, p.drained, n);
    hide Records;
    var all := entries + [Entry(s, log)];
    assert |all| - |Newest(all, n)| == |p.from| + 1 - |Newest(all, n)|;
  }

  // ----- what a valid handle contributes

  lemma LogNow(v: Vault)
    requires v.Valid()
    ensures v.file == Apply(v.changeLog, v.base)
  {
    hide Healthy, Represents, Apply;
  }

  lemma SnapshotNow(v: Vault)
    requires v.Valid()
    ensures Snapshot(v.c, v.file, v.img, v.header.layout.chainNextSeq)
    ensures v.View().nextSeq == v.header.layout.chainNextSeq > 0
  {
    ModelFields(v.img, v.admin.Some?);
    hide Represents, ShelfOk, KeyringOk, AdminSlotOk;
  }

  lemma PastBegins(c: Suite, file: bytes, g: Image, s: nat)
    requires Snapshot(c, file, g, s) && s > 0
    ensures Tracks(c, Past(Timeline(s, file, [], [0]), [g], [], 0), file, s, [])
  {
    var tl := Timeline(s, file, [], [0]);
    ApplyNothing(file);
    hide Snapshot;
    assert tl.At(s) == file;
  }

  // ----- the serving side

  lemma RefusedEitherWay(a: State, cmd: Cmd, r: Result<()>, b: State)
    requires Changed(a, cmd, false, r, b) && r.Err?
    ensures Changed(a, cmd, true, r, b)
  {
    hide Answer, After, Wrote;
  }

  lemma SameContents(img: Image, a: bool, b: bool)
    requires |img.recs| == |img.st.entries|
    ensures ModelOf(img, a) == ModelOf(img, b).(admin := a)
  {
  }

  /** A line typed at the console: `Malformed` stands for missing arguments and unreadable source files. */
  datatype Line = Help | List | Edit(job: Job) | Malformed | Unknown | Quit

  lemma RecordStep(c: Suite, p: Past, entries: seq<Entry>, s: nat, log: seq<Range>, n: nat, file: bytes, next: nat)
    requires Tracks(c, p, file, next, log) && JournalOk(p, entries) && Unrecorded(p, entries, s) && n > 0
    ensures |p.from| == |entries|
    ensures var kept := Newest(entries + [Entry(s, log)], n);
            && kept != [] && |kept| <= |p.from| + 1
            && JournalOk(Recorded(p, entries, |kept|), kept)
            && Tracks(c, Recorded(p, entries, |kept|), file, next, []) && Continues(p, Recorded(p, entries, |kept|))
  {
    hide Snapshots, JournalOk, Unrecorded, Newest;
    JournalAfterRecord(p, entries, s, log, n);
    TracksDrained(c, p, file, next, log, Recorded(p, entries, |Newest(entries + [Entry(s, log)], n)|));
  }

  lemma NoEntries(c: Suite, p: Past, file: bytes, next: nat, log: seq<Range>)
    requires Tracks(c, p, file, next, log)
    ensures var q := p.(from := []); Tracks(c, q, file, next, log) && JournalOk(q, []) && Continues(p, q)
  {
    hide Snapshots;
  }

  lemma NothingHappened(c: Suite, p: Past, file: bytes, next: nat, log: seq<Range>)
    requires Tracks(c, p, file, next, log)
    ensures Continues(p, p)
  {
    hide Snapshots;
  }

  lemma JournalGrows(c: Suite, p: Past, entries: seq<Entry>, file: bytes, next: nat, log: seq<Range>, ranges: seq<Range>, g: Image)
    requires Tracks(c, p, file, next, log) && JournalOk(p, entries) && ranges != []
    ensures JournalOk(Grown(p, ranges, g), entries) && Unrecorded(Grown(p, ranges, g), entries, next)
  {
    hide Snapshots, JournalOk;
    ExtensionKeepsHistory(p.tl, ranges);
    JournalUnderGrowth(p, entries, ranges, g);
    UnrecordedAfterGrowth(p, entries, ranges, g);
  }

  class Server {
    var vault: Vault
    var network: Option<PatchJournal>
    ghost var past: Past

    ghost function Journals(): set<object>
      reads this`network
    {
      if network.Some? then {network.value} else {}
    }

    ghost function Repr(): set<object>
      reads this, vault
    {
      {this, vault, vault.allocator} + Journals()
    }

    ghost predicate Valid()
      reads this, vault, vault.allocator, if network.Some? then {network.value} else {}
    {
      && vault.Valid()
      && Tracks(vault.c, past, vault.file, vault.header.layout.chainNextSeq, vault.changeLog) && EndsIn(past, vault.img)
      && (network.Some? ==>
            && network.value.capacity == JOURNAL_CAPACITY && |network.value.entries| <= JOURNAL_CAPACITY
            && JournalOk(past, network.value.entries))
    }

    /** What this side amounts to at the moment. */
    ghost function Now(): State
      requires Valid()
      reads this, vault, vault.allocator, if network.Some? then {network.value} else {}
    {
      State(vault.file, vault.View(), vault.header.keys.adminSigning,
            if network.Some? then Some(network.value.entries) else None, vault.changeLog)
    }

    /** Takes over a handle that has just been created or opened. */
    constructor (vault: Vault)
      requires vault.Valid() && vault.changeLog == []
      ensures Valid() && this.vault == vault && network == None
      ensures Now() == State(vault.file, vault.View(), vault.header.keys.adminSigning, None, [])
      ensures past.tl.first == vault.View().nextSeq
    {
      this.vault, network := vault, None;
      past := Past(Timeline(vault.header.layout.chainNextSeq, vault.file, [], [0]), [vault.img], [], 0);
      new;
      hide Vault.Valid, Snapshot, Tracks;
      SnapshotNow(vault);
      PastBegins(vault.c, vault.file, vault.img, vault.header.layout.chainNextSeq);
    }

    /** One command on the vault, not yet recorded anywhere. */
    method Mutate(job: Job) returns (r: Result<()>)
      requires Valid() && vault.View().nextSeq + 1 < U64 && Loadable(job.cmd)
      modifies this`past, vault, vault.allocator
      ensures Valid() && vault.allocator == old(vault.allocator) && vault.c == old(vault.c)
      ensures Changed(old(Now()), job.cmd, false, r, Now()) && Continues(old(past), past)
      ensures r.Ok? && network.Some? ==> Unrecorded(past, network.value.entries, old(vault.View()).nextSeq)
    {
      hide Vault.ValidFor, Tracks, JournalOk, Snapshot, Continues, Unrecorded, Refusal, Accepted, Loadable, Apply;
      LogNow(vault);
      SnapshotNow(vault);
      r := Perform(vault, job);
      LogNow(vault);
      SnapshotNow(vault);
      AtMostOneStep(old(vault.View()), job.cmd);
      if r.Ok? {
        LogSuffix(vault.base, old(vault.changeLog), vault.changeLog, old(vault.file), vault.file);
        Grow(vault.c, past, old(vault.file), old(vault.header.layout.chainNextSeq), old(vault.changeLog),
             vault.file, vault.changeLog, vault.img);
        past := Grown(past, vault.changeLog[|old(vault.changeLog)|..], vault.img);
        if network.Some? {
          JournalGrows(vault.c, old(past), network.value.entries, old(vault.file), old(vault.header.layout.chainNextSeq),
                       old(vault.changeLog), vault.changeLog[|old(vault.changeLog)|..], vault.img);
        }
      } else {
        NothingHappened(vault.c, past, vault.file, vault.header.layout.chainNextSeq, vault.changeLog);
      }
    }

    /** `record_patch_if_serving`: drains the change log into the journal; without a serving session
        the change log just keeps growing. */
    method RecordPatchIfServing(seqBefore: nat)
      requires Valid() && (network.Some? ==> Unrecorded(past, network.value.entries, seqBefore))
      modifies this`past, vault`changeLog, vault`base, Journals()
      ensures Valid() && Now() == Drained(old(Now()), seqBefore) && Continues(old(past), past)
    {
      hide Vault.ValidFor, Tracks, JournalOk, Continues, Unrecorded, Newest;
      if network.Some? {
        ghost var entries, log := network.value.entries, vault.changeLog;
        var ranges := vault.TakeChangeLog();
        network.value.Record(seqBefore, ranges);
        RecordStep(vault.c, past, entries, seqBefore, log, JOURNAL_CAPACITY, vault.file, vault.header.layout.chainNextSeq);
        past := Recorded(past, entries, |network.value.entries|);
      } else {
        NothingHappened(vault.c, past, vault.file, vault.header.layout.chainNextSeq, vault.changeLog);
      }
    }

    /** `submit_add`, `submit_update` and `confirm_delete`: an accepted mutation is recorded under the
        sequence number read before it. */
    method Submit(job: Job) returns (r: Result<()>)
      requires Valid() && vault.View().nextSeq + 1 < U64 && Loadable(job.cmd)
      modifies this`past, vault, vault.allocator, Journals()
      ensures Valid() && vault.allocator == old(vault.allocator) && vault.c == old(vault.c)
      ensures Changed(old(Now()), job.cmd, true, r, Now()) && Continues(old(past), past)
    {
      hide Vault.ValidFor, Tracks, JournalOk, Continues, Unrecorded, Changed, Drained, Loadable;
      SeqOfView(vault);
      var seqBefore := vault.header.layout.chainNextSeq;
      r := Mutate(job);
      if r.Ok? {
        ghost var mid, now := past, Now();
        RecordPatchIfServing(seqBefore);
        ContinuesOnward(old(past), mid, past);
        DrainedIsRecorded(old(Now()), job.cmd, r, now);
      } else {
        RefusedEitherWay(old(Now()), job.cmd, r, Now());
      }
    }

    /** `submit_grant` and `submit_revoke`: carried out, but not recorded. */
    method Share(job: Job) returns (r: Result<()>)
      requires Valid() && vault.View().nextSeq + 1 < U64 && Loadable(job.cmd)
      modifies this`past, vault, vault.allocator
      ensures Valid() && vault.allocator == old(vault.allocator) && vault.c == old(vault.c)
      ensures Changed(old(Now()), job.cmd, false, r, Now()) && Continues(old(past), past)
    {
      hide Valid, Now, Changed, Continues, Loadable;
      r := Mutate(job);
    }

    /** One line of the command line's serving console, where the journal is always there: an edit is
        carried out and recorded, everything else changes nothing. Answers whether to keep serving. */
    method HandleCommand(line: Line) returns (r: Result<bool>)
      requires Valid() && network.Some? && vault.View().nextSeq + 1 < U64
      requires line.Edit? ==> Loadable(line.job.cmd)
      modifies this`past, vault, vault.allocator, Journals()
      ensures Valid() && vault.allocator == old(vault.allocator) && vault.c == old(vault.c)
      ensures Continues(old(past), past)
      ensures line.Edit? ==>
                Changed(old(Now()), line.job.cmd, true, if r.Ok? then Ok(()) else Err(r.error), Now()) && r != Ok(false)
      ensures !line.Edit? ==> Now() == old(Now()) && r == if line.Malformed? then Err(IoError) else Ok(!line.Quit?)
    {
      hide Vault.ValidFor, Tracks, JournalOk, Continues, Changed, Loadable;
      NothingHappened(vault.c, past, vault.file, vault.header.layout.chainNextSeq, vault.changeLog);
      match line {
        case Help => return Ok(true);
        case List =>
          var _ :- vault.ListFiles();
          return Ok(true);
        case Edit(job) =>
          var outcome := Submit(job);
          r := match outcome case Ok(_) => Ok(true) case Err(e) => Err(e);
          assert outcome.Ok? ==> outcome.value == ();
        case Malformed => return Err(IoError);
        case Unknown => return Ok(true);
        case Quit => return Ok(false);
      }
    }

    /** Starting to serve begins with an empty journal, whatever the change log holds. */
    method StartServing()
      requires Valid()
      modifies this`network, this`past
      ensures Valid() && Now() == old(Now()).(serving := Some([])) && Continues(old(past), past)
      ensures network.Some? && fresh(network.value)
    {
      hide Vault.ValidFor, Tracks;
      NothingHappened(vault.c, past, vault.file, vault.header.layout.chainNextSeq, vault.changeLog);
      NoEntries(vault.c, past, vault.file, vault.header.layout.chainNextSeq, vault.changeLog);
      var journal := new PatchJournal(JOURNAL_CAPACITY);
      network := Some(journal);
      past := past.(from := []);
    }

    method StopServing()
      requires Valid()
      modifies this`network
      ensures Valid() && Now() == old(Now()).(serving := None)
    {
      hide Vault.ValidFor, Tracks;
      network := None;
    }

    /** Locking the vault and opening it again with its password, or another run of the program: the
        file stays; the journal and the change log are gone. */
    method Reopen(password: bytes, who: Identity)
      requires Valid() && password == vault.View().password
      modifies this
      ensures Valid() && fresh(vault) && fresh(vault.allocator) && vault.c == old(vault.c)
      ensures Now() == Relocked(vault.c, old(Now()), who) && network == None && Continues(old(past), past)
    {
      hide Vault.ValidFor, Represents, Healthy, ModelOf, Tracks, Continues, AdminSlotOk, HeaderIn, AdminKeyIn;
      Standing(vault);
      ghost var log, was, owner := vault.changeLog, vault.admin.Some?, vault.header.keys.adminSigning;
      var again := Open(vault.c, vault.file, password, who, vault.img);
      SameContents(vault.img, vault.c.signPub(who.signSecret) == owner, was);
      network := None;
      vault := again.value;
      Standing(vault);
      SnapshotNow(vault);
      TracksDrained(vault.c, past, vault.file, vault.header.layout.chainNextSeq, log, AllDrained(past));
      past := AllDrained(past);
    }

    /** Answers one request for the changes since `nextSeq`; nobody answers unless serving. */
    method Poll(peer: PeerId, nextSeq: u64, lastHash: Arr32) returns (r: Option<SyncMessage>)
      requires Valid()
      ensures r == if network.None? then None else Some(Reply(Now(), peer, ChainState(nextSeq, lastHash)))
    {
      hide Vault.ValidFor, Tracks, JournalOk, HasGrant;
      if network.None? {
        return None;
      }
      var granted := vault.IsGranted(peer);
      if !granted {
        return Some(Failure(NotGranted()));
      }
      var ranges := network.value.RangesSince(nextSeq);
      if ranges.Some? {
        return Some(Patch(nextSeq, ranges.value));
      }
      var all := vault.ExportFull();
      r := Some(FullSync(all));
    }
  }
}
