/** What goes on between an admin and the peers, moment by moment: what the serving side answers, what
    each event does, and what follows for whole runs (`src/net/sync.rs`,
    `src/tui/widgets/network_tab.rs`, `src/tui/widgets/vaults/unlocked.rs`). */
module Session {

  import opened Bytes
  import opened Results
  import opened Crypto
  import opened WriteLog
  import opened Model
  import opened Runs
  import opened Journal
  import opened Protocol
  import opened Channel

  const JOURNAL_CAPACITY: nat := 64

  // ----- the serving side

  /** The admin's side at one moment: the container, the vault it holds, whose it is, the journal while
      serving, and the writes not in the journal yet. */
  datatype State = State(file: bytes, model: Model, owner: Arr32, serving: Option<seq<Entry>>, unrecorded: seq<Range>)

  /** Serving, with nothing left unrecorded. */
  predicate Current(s: State) {
    s.serving.Some? && s.unrecorded == []
  }

  lemma {:induction false} AsciiIsText(s: bytes)
    requires forall k | 0 <= k < |s| :: s[k] < 0x80
    ensures ValidUtf8(s)
  {
    if s != [] {
      AsciiIsText(s[1..]);
    }
  }

  /** "not granted access to this vault" */
  const NOT_GRANTED: bytes :=
    [110, 111, 116, 32, 103, 114, 97, 110, 116, 101, 100, 32, 97, 99, 99, 101, 115, 115, 32, 116, 111,
     32, 116, 104, 105, 115, 32, 118, 97, 117, 108, 116]

  function NotGranted(): text {
    hide ValidUtf8;
    AsciiIsText(NOT_GRANTED);
    NOT_GRANTED
  }

  /** "expected a ChainState message" */
  const EXPECTED_CHAIN_STATE: bytes :=
    [101, 120, 112, 101, 99, 116, 101, 100, 32, 97, 32, 67, 104, 97, 105, 110, 83, 116, 97, 116, 101,
     32, 109, 101, 115, 115, 97, 103, 101]

  function ExpectedChainState(): text {
    hide ValidUtf8;
    AsciiIsText(EXPECTED_CHAIN_STATE);
    EXPECTED_CHAIN_STATE
  }

  /** What a peer gets to a first message: nothing to strangers, a patch if the journal covers the peer,
      the whole container otherwise; and anything but a chain state is a mistake. */
  function Reply(s: State, peer: PeerId, request: SyncMessage): SyncMessage
    requires s.serving.Some?
  {
    if !HasGrant(s.model, peer) then Failure(NotGranted())
    else if !request.ChainState? then Failure(ExpectedChainState())
    else if Covers(s.serving.value, request.nextSeq) then Patch(request.nextSeq, Since(s.serving.value, request.nextSeq))
    else FullSync(s.file)
  }

  lemma ReplyCases(s: State, peer: PeerId, m: SyncMessage)
    requires s.serving.Some?
    ensures !HasGrant(s.model, peer) ==> Reply(s, peer, m) == Failure(NotGranted())
    ensures HasGrant(s.model, peer) && !m.ChainState? ==> Reply(s, peer, m) == Failure(ExpectedChainState())
    ensures var r := Reply(s, peer, m);
            && (r.Patch? ==> m.ChainState? && Covers(s.serving.value, m.nextSeq) && r.ranges == Since(s.serving.value, m.nextSeq))
            && !r.UpToDate? && !r.ChainState?
  {
    hide HasGrant, Covers, Since, NotGranted, ExpectedChainState;
  }

  /** The message fits one encrypted frame. */
  predicate Fits(m: SyncMessage) {
    |MessageBytes(m)| + TAG_LEN <= MAX_FRAME_LEN
  }

  lemma SmallMessagesFit(nextSeq: u64, lastHash: Arr32)
    ensures Fits(ChainState(nextSeq, lastHash)) && Fits(Failure(NotGranted())) && Fits(Failure(ExpectedChainState()))
  {
  }

  /** What the console tells a caller, given its first message, and how that ends. */
  function ServeOutcome(s: State, caller: PeerId, said: Result<SyncMessage>): (Option<SyncMessage>, Result<()>)
    requires s.serving.Some?
  {
    if !HasGrant(s.model, caller) then (Some(Failure(NotGranted())), Err(NotAuthorized))
    else
      match said
      case Err(e) => (None, Err(e))
      case Ok(m) =>
        var answer := Reply(s, caller, m);
        (Some(answer), if !m.ChainState? then Err(CorruptContainer) else if Fits(answer) then Ok(()) else Err(IoError))
  }

  lemma ServeCases(s: State, caller: PeerId, said: Result<SyncMessage>)
    requires s.serving.Some?
    ensures !HasGrant(s.model, caller) ==> ServeOutcome(s, caller, said) == (Some(Failure(NotGranted())), Err(NotAuthorized))
    ensures HasGrant(s.model, caller) && said.Err? ==> ServeOutcome(s, caller, said) == (None, Err(said.error))
    ensures HasGrant(s.model, caller) && said.Ok? && !said.value.ChainState? ==>
              ServeOutcome(s, caller, said) == (Some(Failure(ExpectedChainState())), Err(CorruptContainer))
    ensures HasGrant(s.model, caller) && said.Ok? && said.value.ChainState? ==>
              var answer := Reply(s, caller, said.value);
              ServeOutcome(s, caller, said) == (Some(answer), if Fits(answer) then Ok(()) else Err(IoError))
  {
    hide HasGrant, Covers, Since, NotGranted, ExpectedChainState, Fits;
  }

  // ----- what an event does

  predicate IsFileCommand(cmd: Cmd) {
    cmd.Add? || cmd.Update? || cmd.Delete?
  }

  /** The new writes went to the journal, with everything unrecorded before them, or stayed unrecorded. */
  predicate Wrote(a: State, recorded: bool, b: State) {
    if recorded && a.serving.Some? then
      && b.unrecorded == [] && b.serving.Some? && b.serving.value != []
      && var newest := b.serving.value[|b.serving.value| - 1];
         && newest.seqNo == a.model.nextSeq && a.unrecorded < newest.ranges
         && b.file == Apply(newest.ranges[|a.unrecorded|..], a.file)
         && b.serving.value == Newest(a.serving.value + [newest], JOURNAL_CAPACITY)
    else
      && b.serving == a.serving && a.unrecorded < b.unrecorded
      && b.file == Apply(b.unrecorded[|a.unrecorded|..], a.file)
  }

  /** A command of the admin: the model's answer and effect; a refusal changes nothing at all. */
  ghost predicate Changed(a: State, cmd: Cmd, recorded: bool, r: Result<()>, b: State) {
    && r == Answer(a.model, cmd) && b.model == After(a.model, cmd) && b.owner == a.owner
    && (r.Err? ==> b == a)
    && (r.Ok? ==> Wrote(a, recorded, b))
  }

  predicate NewestIs(a: State, b: State) {
    && b.unrecorded == [] && b.serving.Some? && b.serving.value != []
    && b.serving.value[|b.serving.value| - 1].seqNo == a.model.nextSeq
  }

  /** What becomes of the journal, command by command: while serving, every accepted addition, update and
      deletion is its newest entry, tagged with the sequence number before it, and leaves nothing
      unrecorded; a grant or a revocation leaves the journal as it was, and its writes unrecorded. */
  predicate Journaled(a: State, cmd: Cmd, r: Result<()>, b: State) {
    match cmd
    case Add(_, _) => r.Ok? && a.serving.Some? ==> NewestIs(a, b)
    case Update(_, _) => r.Ok? && a.serving.Some? ==> NewestIs(a, b)
    case Delete(_) => r.Ok? && a.serving.Some? ==> NewestIs(a, b)
    case Grant(_) => b.serving == a.serving && (r.Ok? ==> a.unrecorded < b.unrecorded)
    case Revoke(_, _) => b.serving == a.serving && (r.Ok? ==> a.unrecorded < b.unrecorded)
  }

  lemma ChangesAreJournaled(a: State, cmd: Cmd, r: Result<()>, b: State)
    requires Changed(a, cmd, IsFileCommand(cmd), r, b)
    ensures Journaled(a, cmd, r, b)
  {
    hide Answer, After, Apply;
  }

  /** Draining the unrecorded writes into the journal. */
  function Drained(s: State, seqBefore: nat): State {
    match s.serving
    case None => s
    case Some(entries) =>
      s.(serving := Some(Newest(entries + [Entry(seqBefore, s.unrecorded)], JOURNAL_CAPACITY)), unrecorded := [])
  }

  lemma DrainedIsRecorded(a: State, cmd: Cmd, r: Result<()>, m: State)
    requires Changed(a, cmd, false, r, m) && r.Ok?
    ensures Changed(a, cmd, true, r, Drained(m, a.model.nextSeq))
  {
    hide Answer, After, Apply;
    if a.serving.Some? {
      var all := a.serving.value + [Entry(a.model.nextSeq, m.unrecorded)];
      assert Newest(all, JOURNAL_CAPACITY)[|Newest(all, JOURNAL_CAPACITY)| - 1] == all[|all| - 1];
    }
  }

  /** A peer's copy of the container, and the vault it holds. */
  datatype Copy = Copy(who: Identity, file: bytes, model: Model)

  datatype Moment = Moment(admin: State, copies: seq<Copy>)

  /** Mutations by the admin, serving sessions, locking and unlocking, and peers joining and coming back. */
  datatype Event =
    | Changes(job: Job)
    | Serves
    | Pauses
    | Relocks(who: Identity)
    | Joins(who: Identity, mine: Arr32, theirs: Arr32)
    | Reconnects(k: nat, mine: Arr32, theirs: Arr32)

  /** What a peer that wants to join comes away with. */
  function JoinAnswer(c: Suite, s: State, who: Identity): Option<Error> {
    if s.serving.None? then Some(IoError)
    else if !HasGrant(s.model, c.Peer(who)) then Some(Remote(NotGranted()))
    else if !Fits(FullSync(s.file)) then Some(IoError)
    else None
  }

  /** The exact outcome of joining: the file, a tag, a length and the seal have to fit a frame of 64 MiB. */
  lemma JoinExactly(c: Suite, s: State, who: Identity)
    ensures JoinAnswer(c, s, who)
         == if s.serving.None? then Some(IoError)
            else if !HasGrant(s.model, PeerId(c.signPub(who.signSecret), c.encPub(who.encSecret))) then Some(Remote(NotGranted()))
            else if |s.file| + 25 > 67_108_864 then Some(IoError)
            else None
  {
    hide HasGrant, NotGranted;
  }

  /** What a peer that comes back comes away with: nothing if its own copy does not let it in, nobody is
      serving or the answer does not fit a frame; a patch if the journal covers it; and an error if the
      admin answers with anything but a patch. */
  ghost function CatchUpAnswer(c: Suite, s: State, copy: Copy): Result<()>
    requires copy.model.nextSeq < U64
  {
    if !HoldsGrant(copy.model, c.encPub(copy.who.encSecret)) then Err(AccessNotGranted)
    else if s.serving.None? then Err(IoError)
    else
      var m := Reply(s, c.Peer(copy.who), ChainState(copy.model.nextSeq, Zeros(32)));
      if !Fits(m) then Err(IoError)
      else
        match m
        case Patch(_, _) => Ok(())
        case Failure(text) => Err(Remote(text))
        case _ => Err(CorruptContainer)
  }

  /** The copy moves on to the state after the newest recorded mutation, which is the present one exactly
      when nothing is unrecorded or the copy was current already. */
  ghost predicate Moved(s: State, before: Copy, after: Copy) {
    && s.serving.Some? && Covers(s.serving.value, before.model.nextSeq)
    && after.who == before.who && after.file == Apply(Since(s.serving.value, before.model.nextSeq), before.file)
    && after.model.nextSeq == Reached(s.serving.value, before.model.nextSeq) <= s.model.nextSeq
    && (after.file == s.file <==> s.unrecorded == [] || before.model.nextSeq == s.model.nextSeq)
  }

  ghost predicate CaughtUp(c: Suite, a: Moment, k: nat, r: Result<()>, b: Moment)
    requires k < |a.copies|
  {
    && b.admin == a.admin && |b.copies| == |a.copies|
    && a.copies[k].model.nextSeq < U64 && r == CatchUpAnswer(c, a.admin, a.copies[k])
    && b.copies == a.copies[k := b.copies[k]]
    && if r.Err? then b.copies[k] == a.copies[k] else Moved(a.admin, a.copies[k], b.copies[k])
  }

  lemma CameBack(c: Suite, a: Moment, k: nat, r: Result<()>, moved: Copy)
    requires k < |a.copies| && a.copies[k].model.nextSeq < U64 && r == CatchUpAnswer(c, a.admin, a.copies[k])
    requires r.Ok? ==> Moved(a.admin, a.copies[k], moved)
    ensures CaughtUp(c, a, k, r, if r.Ok? then a.(copies := a.copies[k := moved]) else a)
  {
    hide CatchUpAnswer, Moved;
    assert a.copies[k := a.copies[k]] == a.copies;
  }

  ghost predicate Joined(c: Suite, a: Moment, who: Identity, r: Result<()>, b: Moment) {
    match JoinAnswer(c, a.admin, who)
    case Some(e) => r == Err(e) && b == a
    case None => r == Ok(()) && b == a.(copies := a.copies + [Copy(who, a.admin.file, a.admin.model.(admin := false))])
  }

  function Relocked(c: Suite, s: State, who: Identity): State {
    s.(serving := None, unrecorded := [], model := s.model.(admin := c.signPub(who.signSecret) == s.owner))
  }

  /** What each event does, and to what outcome. */
  ghost predicate Happens(c: Suite, a: Moment, e: Event, r: Result<()>, b: Moment) {
    match e
    case Changes(job) => Changed(a.admin, job.cmd, IsFileCommand(job.cmd), r, b.admin) && b.copies == a.copies
    case Serves => r == Ok(()) && b == a.(admin := a.admin.(serving := Some([])))
    case Pauses => r == Ok(()) && b == a.(admin := a.admin.(serving := None))
    case Relocks(who) => r == Ok(()) && b == a.(admin := Relocked(c, a.admin, who))
    case Joins(who, _, _) => Joined(c, a, who, r, b)
    case Reconnects(k, _, _) => if k < |a.copies| then CaughtUp(c, a, k, r, b) else r == Err(IoError) && b == a
  }

  // ----- runs

  /** The trace of a run: a moment before the first event and one after each. */
  ghost predicate IsRun(c: Suite, trace: seq<Moment>, events: seq<Event>, answers: seq<Result<()>>) {
    && |trace| == |events| + 1 && |answers| == |events|
    && forall n | 0 <= n < |events| :: Happens(c, trace[n], events[n], answers[n], trace[n + 1])
  }

  lemma RunBegins(c: Suite, m: Moment)
    ensures IsRun(c, [m], [], [])
  {
  }

  lemma RunGoesOn(c: Suite, trace: seq<Moment>, events: seq<Event>, answers: seq<Result<()>>, n: nat, r: Result<()>, m: Moment)
    requires n < |events| && IsRun(c, trace, events[..n], answers) && Happens(c, trace[n], events[n], r, m)
    ensures IsRun(c, trace + [m], events[..n + 1], answers + [r])
  {
    hide Happens;
    var trace', answers' := trace + [m], answers + [r];
    forall k | 0 <= k < n + 1
      ensures Happens(c, trace'[k], events[..n + 1][k], answers'[k], trace'[k + 1])
    {
      if k < n {
        assert Happens(c, trace[k], events[..n][k], answers[k], trace[k + 1]);
      }
    }
  }

  /** What an event does to the vault itself. */
  ghost function AfterEvent(c: Suite, owner: Arr32, m: Model, e: Event): Model {
    match e
    case Changes(job) => After(m, job.cmd)
    case Relocks(who) => m.(admin := c.signPub(who.signSecret) == owner)
    case _ => m
  }

  ghost function AfterEvents(c: Suite, owner: Arr32, m: Model, events: seq<Event>): Model {
    if events == [] then m
    else AfterEvent(c, owner, AfterEvents(c, owner, m, events[..|events| - 1]), events[|events| - 1])
  }

  /** The events of one session of the command line's serving console: additions, updates and deletions
      of files, and peers joining and coming back. */
  predicate Recording(e: Event) {
    match e
    case Changes(job) => job.cmd.Add? || job.cmd.Update? || job.cmd.Delete?
    case Joins(_, _, _) => true
    case Reconnects(_, _, _) => true
    case _ => false
  }

  lemma OneStep(c: Suite, a: Moment, e: Event, r: Result<()>, b: Moment)
    requires Happens(c, a, e, r, b)
    ensures b.admin.owner == a.admin.owner && b.admin.model == AfterEvent(c, a.admin.owner, a.admin.model, e)
    ensures b.admin.model.nextSeq == a.admin.model.nextSeq || b.admin.model.nextSeq == a.admin.model.nextSeq + 1
    ensures Current(a.admin) && Recording(e) ==> Current(b.admin)
  {
    hide Refusal, CatchUpAnswer, JoinAnswer, Moved;
    if e.Changes? {
      AtMostOneStep(a.admin.model, e.job.cmd);
    }
  }

  /** At every moment of a run the vault is the fold of the commands so far, accepted or refused as the
      model says. */
  lemma {:induction false} ModelFollows(c: Suite, trace: seq<Moment>, events: seq<Event>, answers: seq<Result<()>>, n: nat)
    requires IsRun(c, trace, events, answers) && n <= |events|
    ensures trace[n].admin.owner == trace[0].admin.owner
    ensures trace[n].admin.model == AfterEvents(c, trace[0].admin.owner, trace[0].admin.model, events[..n])
  {
    if n > 0 {
      ModelFollows(c, trace, events, answers, n - 1);
      assert Happens(c, trace[n - 1], events[n - 1], answers[n - 1], trace[n - 1 + 1]);
      OneStep(c, trace[n - 1], events[n - 1], answers[n - 1], trace[n]);
      assert events[..n][..n - 1] == events[..n - 1];
    }
  }

  /** The admin's commands in a run. */
  function CommandsIn(events: seq<Event>): seq<Cmd> {
    if events == [] then []
    else
      var last := events[|events| - 1];
      CommandsIn(events[..|events| - 1]) + (if last.Changes? then [last.job.cmd] else [])
  }

  /** Without locking, that is the same as running the commands alone. */
  lemma {:induction false} EventsAreCommands(c: Suite, owner: Arr32, m: Model, events: seq<Event>)
    requires forall k | 0 <= k < |events| :: !events[k].Relocks?
    ensures AfterEvents(c, owner, m, events) == AfterAll(m, CommandsIn(events))
  {
    hide After;
    if events != [] {
      var before, last := events[..|events| - 1], events[|events| - 1];
      EventsAreCommands(c, owner, m, before);
      if last.Changes? {
        var cmds := CommandsIn(before) + [last.job.cmd];
        assert cmds[..|cmds| - 1] == CommandsIn(before);
      } else {
        assert CommandsIn(before) + [] == CommandsIn(before);
      }
    }
  }

  /** A run passes through every sequence number between where it starts and where it has got to. */
  lemma {:induction false} EverySeqIsPassed(c: Suite, trace: seq<Moment>, events: seq<Event>, answers: seq<Result<()>>, n: nat, s: nat)
    returns (i: nat)
    requires IsRun(c, trace, events, answers) && n <= |events|
    requires trace[0].admin.model.nextSeq <= s <= trace[n].admin.model.nextSeq
    ensures i <= n && trace[i].admin.model.nextSeq == s
  {
    if trace[n].admin.model.nextSeq == s {
      i := n;
    } else {
      assert Happens(c, trace[n - 1], events[n - 1], answers[n - 1], trace[n - 1 + 1]);
      OneStep(c, trace[n - 1], events[n - 1], answers[n - 1], trace[n]);
      i := EverySeqIsPassed(c, trace, events, answers, n - 1, s);
    }
  }

  /** A session that records every mutation stays current throughout. */
  lemma {:induction false} StaysCurrent(c: Suite, trace: seq<Moment>, events: seq<Event>, answers: seq<Result<()>>, n: nat)
    requires IsRun(c, trace, events, answers) && n <= |events| && Current(trace[0].admin)
    requires forall k | 0 <= k < n :: Recording(events[k])
    ensures Current(trace[n].admin)
  {
    if n > 0 {
      StaysCurrent(c, trace, events, answers, n - 1);
      assert Happens(c, trace[n - 1], events[n - 1], answers[n - 1], trace[n - 1 + 1]);
      OneStep(c, trace[n - 1], events[n - 1], answers[n - 1], trace[n]);
    }
  }

  // ----- who can catch up

  /** The exact outcome of coming back: it succeeds for a peer that its own copy and the admin both know,
      that is not further back than the oldest entry of the journal, and whose patch fits a frame. */
  lemma CatchUpExactly(c: Suite, s: State, copy: Copy)
    requires copy.model.nextSeq < U64
    ensures var r, n := CatchUpAnswer(c, s, copy), copy.model.nextSeq;
            var covered := s.serving.Some? && n != 0 && s.serving.value != [] && s.serving.value[0].seqNo <= n;
            if !HoldsGrant(copy.model, c.encPub(copy.who.encSecret)) then r == Err(AccessNotGranted)
            else if s.serving.None? then r == Err(IoError)
            else if !HasGrant(s.model, c.Peer(copy.who)) then r == Err(Remote(NotGranted()))
            else if !covered then r == Err(if Fits(FullSync(s.file)) then CorruptContainer else IoError)
            else if !Fits(Patch(n, Since(s.serving.value, n))) then r == Err(IoError)
            else r == Ok(())
  {
    hide HoldsGrant, HasGrant, Fits, Since, NotGranted, ExpectedChainState;
    SmallMessagesFit(0, Zeros(32));
  }

  /** At most 64 entries, tagged in order with sequence numbers of the past. */
  predicate InOrder(es: seq<Entry>, next: nat) {
    && |es| <= 64
    && (forall i, j | 0 <= i < j < |es| :: es[i].seqNo < es[j].seqNo)
    && (forall i | 0 <= i < |es| :: es[i].seqNo < next)
  }

  predicate Tidy(s: State) {
    s.serving.Some? ==> InOrder(s.serving.value, s.model.nextSeq)
  }

  lemma InOrderAppend(es: seq<Entry>, e: Entry)
    requires InOrder(es, e.seqNo)
    ensures InOrder(Newest(es + [e], 64), e.seqNo + 1)
  {
  }

  lemma StaysTidy(c: Suite, a: Moment, e: Event, r: Result<()>, b: Moment)
    requires Happens(c, a, e, r, b) && Tidy(a.admin)
    ensures Tidy(b.admin)
  {
    OneStep(c, a, e, r, b);
    if e.Changes? && r.Ok? && IsFileCommand(e.job.cmd) && a.admin.serving.Some? {
      InOrderAppend(a.admin.serving.value, b.admin.serving.value[|b.admin.serving.value| - 1]);
    }
    hide CatchUpAnswer, JoinAnswer, Moved, Answer, After, Apply, Newest;
  }

  /** The journal of a run that begins tidily stays tidy. */
  lemma {:induction false} AlwaysTidy(c: Suite, trace: seq<Moment>, events: seq<Event>, answers: seq<Result<()>>, n: nat)
    requires IsRun(c, trace, events, answers) && n <= |events| && Tidy(trace[0].admin)
    ensures Tidy(trace[n].admin)
  {
    hide Happens, Tidy;
    if n > 0 {
      AlwaysTidy(c, trace, events, answers, n - 1);
      assert Happens(c, trace[n - 1], events[n - 1], answers[n - 1], trace[n - 1 + 1]);
      StaysTidy(c, trace[n - 1], events[n - 1], answers[n - 1], trace[n]);
    }
  }

  /** One entry for each accepted mutation, tagged from `first` on. */
  predicate Tagged(more: seq<Entry>, first: nat) {
    forall j | 0 <= j < |more| :: more[j].seqNo == first + j
  }

  lemma OneRecording(c: Suite, a: Moment, e: Event, r: Result<()>, b: Moment) returns (more: seq<Entry>)
    requires Happens(c, a, e, r, b) && Current(a.admin) && Recording(e) && |a.admin.serving.value| <= 64
    ensures Current(b.admin) && b.admin.model.grants == a.admin.model.grants
    ensures b.admin.model.nextSeq == a.admin.model.nextSeq + |more| && Tagged(more, a.admin.model.nextSeq)
    ensures b.admin.serving.value == Newest(a.admin.serving.value + more, 64)
  {
    OneStep(c, a, e, r, b);
    hide CatchUpAnswer, JoinAnswer, Moved, Refusal, Apply;
    more := if e.Changes? && r.Ok? then [b.admin.serving.value[|b.admin.serving.value| - 1]] else [];
    assert a.admin.serving.value + [] == a.admin.serving.value;
  }

  lemma NewestTwice(es: seq<Entry>, a: seq<Entry>, b: seq<Entry>, n: nat)
    ensures Newest(Newest(es + a, n) + b, n) == Newest(es + (a + b), n)
  {
    var all := es + (a + b);
    assert all == (es + a) + b;
    if |es + a| > n {
      assert (es + a)[|es + a| - n..] + b == all[|es + a| - n..];
    }
  }

  /** What a session that records every mutation has added to its journal. */
  lemma {:induction false} JournalAfter(c: Suite, trace: seq<Moment>, events: seq<Event>, answers: seq<Result<()>>, i: nat, n: nat)
    returns (more: seq<Entry>)
    requires IsRun(c, trace, events, answers) && i <= n <= |events|
    requires Current(trace[i].admin) && |trace[i].admin.serving.value| <= 64 && forall j | i <= j < n :: Recording(events[j])
    ensures Current(trace[n].admin) && trace[n].admin.model.grants == trace[i].admin.model.grants
    ensures trace[n].admin.model.nextSeq == trace[i].admin.model.nextSeq + |more| && Tagged(more, trace[i].admin.model.nextSeq)
    ensures trace[n].admin.serving.value == Newest(trace[i].admin.serving.value + more, 64)
  {
    hide Happens, Recording;
    more := [];
    if i < n {
      var before := JournalAfter(c, trace, events, answers, i, n - 1);
      assert Happens(c, trace[n - 1], events[n - 1], answers[n - 1], trace[n - 1 + 1]);
      var last := OneRecording(c, trace[n - 1], events[n - 1], answers[n - 1], trace[n]);
      NewestTwice(trace[i].admin.serving.value, before, last, 64);
      more := before + last;
    } else {
      assert trace[i].admin.serving.value + [] == trace[i].admin.serving.value;
    }
  }

  /** The peers covered by then are those at most 64 mutations behind. */
  lemma CoversTheLast64(es: seq<Entry>, more: seq<Entry>, first: nat, s: nat)
    requires InOrder(es, first) && Tagged(more, first) && more != [] && first <= s <= first + |more| && s != 0
    ensures var all := Newest(es + more, 64);
            all != [] && (all[0].seqNo <= s <==> first + |more| - s <= 64)
  {
    var joined := es + more;
    if |joined| > 64 {
      assert Newest(joined, 64)[0] == joined[|joined| - 64];
      assert |more| >= 64 ==> joined[|joined| - 64] == more[|more| - 64];
      assert |more| < 64 ==> joined[|joined| - 64] == es[|joined| - 64];
    } else {
      assert es == [] ==> joined[0] == more[0];
      assert es != [] ==> joined[0] == es[0];
    }
  }

  lemma InOrderIsShort(es: seq<Entry>, next: nat)
    requires InOrder(es, next)
    ensures |es| <= 64
  {
  }

  lemma GrantedHolds(m: Model, peer: PeerId)
    requires HasGrant(m, peer)
    ensures HoldsGrant(m.(admin := false), peer.encryption)
  {
    assert m.(admin := false).grants[peer.signing] == peer.encryption;
  }

  lemma ReconnectAnswer(c: Suite, a: Moment, e: Event, r: Result<()>, b: Moment)
    requires Happens(c, a, e, r, b) && e.Reconnects? && e.k < |a.copies|
    ensures a.copies[e.k].model.nextSeq < U64 && r == CatchUpAnswer(c, a.admin, a.copies[e.k]) && b.admin == a.admin
  {
    hide CatchUpAnswer, Moved;
  }

  lemma ReconnectsLands(c: Suite, a: Moment, e: Event, r: Result<()>, b: Moment)
    requires Happens(c, a, e, r, b) && e.Reconnects? && r.Ok?
    ensures b.admin == a.admin && e.k < |a.copies| == |b.copies| && Moved(a.admin, a.copies[e.k], b.copies[e.k])
  {
    hide CatchUpAnswer, Moved;
  }

  /** In such a session every peer that comes back and is told it succeeded holds, from then on, the very
      bytes the admin holds at that moment. */
  lemma ConsoleReconnects(c: Suite, trace: seq<Moment>, events: seq<Event>, answers: seq<Result<()>>, n: nat)
    requires IsRun(c, trace, events, answers) && n < |events| && Current(trace[0].admin)
    requires forall k | 0 <= k < n :: Recording(events[k])
    requires events[n].Reconnects? && answers[n].Ok?
    ensures var k := events[n].k;
            k < |trace[n + 1].copies| && trace[n + 1].copies[k].file == trace[n].admin.file == trace[n + 1].admin.file
  {
    StaysCurrent(c, trace, events, answers, n);
    assert Happens(c, trace[n], events[n], answers[n], trace[n + 1]);
    hide Happens, CatchUpAnswer;
    ReconnectsLands(c, trace[n], events[n], answers[n], trace[n + 1]);
  }

  /** In such a session a peer that both sides know, and that stands somewhere in it, catches up to the very
      bytes the admin holds exactly when it is at most 64 mutations behind and the patch fits a frame. */
  lemma SessionCatchesUp(c: Suite, trace: seq<Moment>, events: seq<Event>, answers: seq<Result<()>>, i: nat, n: nat)
    requires IsRun(c, trace, events, answers) && i <= n < |events|
    requires Tidy(trace[i].admin) && Current(trace[i].admin) && forall j | i <= j < n :: Recording(events[j])
    requires events[n].Reconnects? && events[n].k < |trace[n].copies|
    requires var (copy, first, last) := (trace[n].copies[events[n].k], trace[i].admin.model.nextSeq, trace[n].admin.model.nextSeq);
             && first < last && first <= copy.model.nextSeq <= last && 0 < copy.model.nextSeq < U64
             && HoldsGrant(copy.model, c.encPub(copy.who.encSecret)) && HasGrant(trace[i].admin.model, c.Peer(copy.who))
    ensures Current(trace[n].admin)
    ensures var (k, s, last) := (events[n].k, trace[n].copies[events[n].k].model.nextSeq, trace[n].admin.model.nextSeq);
            && (answers[n] == Ok(()) <==>
                  last - s <= 64 && Fits(Patch(s, Since(trace[n].admin.serving.value, s))))
            && (answers[n].Ok? ==> k < |trace[n + 1].copies| && trace[n + 1].copies[k].file == trace[n + 1].admin.file)
  {
    hide Happens, CatchUpAnswer, Recording, HoldsGrant, Fits, Since, InOrder, Tagged, Newest;
    var k := events[n].k;
    var copy := trace[n].copies[k];
    InOrderIsShort(trace[i].admin.serving.value, trace[i].admin.model.nextSeq);
    var more := JournalAfter(c, trace, events, answers, i, n);
    CoversTheLast64(trace[i].admin.serving.value, more, trace[i].admin.model.nextSeq, copy.model.nextSeq);
    CatchUpExactly(c, trace[n].admin, copy);
    assert Happens(c, trace[n], events[n], answers[n], trace[n + 1]);
    ReconnectAnswer(c, trace[n], events[n], answers[n], trace[n + 1]);
    if answers[n].Ok? {
      ReconnectsLands(c, trace[n], events[n], answers[n], trace[n + 1]);
    }
  }

  /** How many commands were accepted from event `i` up to event `n`. */
  function AcceptedIn(events: seq<Event>, answers: seq<Result<()>>, i: nat, n: nat): nat
    requires i <= n <= |events| == |answers|
  {
    if n == i then 0 else AcceptedIn(events, answers, i, n - 1) + (if events[n - 1].Changes? && answers[n - 1].Ok? then 1 else 0)
  }

  lemma AcceptedCounts(c: Suite, a: Moment, e: Event, r: Result<()>, b: Moment)
    requires Happens(c, a, e, r, b)
    ensures b.admin.model.nextSeq == a.admin.model.nextSeq + (if e.Changes? && r.Ok? then 1 else 0)
  {
    hide Refusal, CatchUpAnswer, JoinAnswer, Moved, Wrote;
  }

  /** The sequence number counts the accepted commands. */
  lemma {:induction false} SeqCounts(c: Suite, trace: seq<Moment>, events: seq<Event>, answers: seq<Result<()>>, i: nat, n: nat)
    requires IsRun(c, trace, events, answers) && i <= n <= |events|
    ensures trace[n].admin.model.nextSeq == trace[i].admin.model.nextSeq + AcceptedIn(events, answers, i, n)
  {
    hide Happens;
    if i < n {
      SeqCounts(c, trace, events, answers, i, n - 1);
      assert Happens(c, trace[n - 1], events[n - 1], answers[n - 1], trace[n - 1 + 1]);
      AcceptedCounts(c, trace[n - 1], events[n - 1], answers[n - 1], trace[n]);
    }
  }

  /** A granted peer that held the admin's container at some moment of such a session, and missed between
      one and 64 accepted commands since, is brought up to date by coming back. */
  lemma MissedCommandsArrive(c: Suite, trace: seq<Moment>, events: seq<Event>, answers: seq<Result<()>>, i: nat, n: nat)
    requires IsRun(c, trace, events, answers) && i <= n < |events|
    requires Tidy(trace[0].admin) && Current(trace[i].admin) && forall j | i <= j < n :: Recording(events[j])
    requires 1 <= AcceptedIn(events, answers, i, n) <= 64
    requires events[n].Reconnects? && events[n].k < |trace[n].copies|
    requires var (copy, was) := (trace[n].copies[events[n].k], trace[i].admin);
             && copy.file == was.file && copy.model == was.model.(admin := false) && 0 < copy.model.nextSeq < U64
             && HasGrant(was.model, c.Peer(copy.who))
             && (trace[n].admin.serving.Some? ==>
                   Fits(Patch(copy.model.nextSeq, Since(trace[n].admin.serving.value, copy.model.nextSeq))))
    ensures answers[n] == Ok(())
    ensures events[n].k < |trace[n + 1].copies| && trace[n + 1].copies[events[n].k].file == trace[n + 1].admin.file
  {
    hide Happens, Recording, Fits, Since, Tidy, HoldsGrant;
    AlwaysTidy(c, trace, events, answers, i);
    SeqCounts(c, trace, events, answers, i, n);
    GrantedHolds(trace[i].admin.model, c.Peer(trace[n].copies[events[n].k].who));
    SessionCatchesUp(c, trace, events, answers, i, n);
  }

  /** Copies are never lost, never change hands and only move forward in time. */
  predicate Onward(a: seq<Copy>, b: seq<Copy>) {
    |a| <= |b| && forall k | 0 <= k < |a| :: b[k].who == a[k].who && a[k].model.nextSeq <= b[k].model.nextSeq
  }

  lemma StepIsOnward(c: Suite, a: Moment, e: Event, r: Result<()>, b: Moment)
    requires Happens(c, a, e, r, b)
    ensures Onward(a.copies, b.copies)
  {
    hide CatchUpAnswer, JoinAnswer, Changed;
  }

  lemma {:induction false} RunIsOnward(c: Suite, trace: seq<Moment>, events: seq<Event>, answers: seq<Result<()>>, n: nat, m: nat)
    requires IsRun(c, trace, events, answers) && n <= m <= |events|
    ensures Onward(trace[n].copies, trace[m].copies)
  {
    hide Happens;
    if n < m {
      RunIsOnward(c, trace, events, answers, n, m - 1);
      assert Happens(c, trace[m - 1], events[m - 1], answers[m - 1], trace[m - 1 + 1]);
      StepIsOnward(c, trace[m - 1], events[m - 1], answers[m - 1], trace[m]);
    }
  }
}
