/** Peers and their replicas (`src/net/sync.rs`): joining, reconnecting, and what every replica is at
    every moment of a run. */
module Replication {

  import opened Bytes
  import opened Results
  import opened Crypto
  import opened WriteLog
  import opened Codec
  import opened Format
  import opened Headers
  import opened Container
  import opened Model
  import opened Image
  import opened Vaults
  import opened Opening
  import opened Runs
  import opened Journal
  import opened Protocol
  import opened Channel
  import opened Session
  import opened Serving

  // ----- states of the past

  lemma SnapshotAt(c: Suite, p: Past, file: bytes, next: nat, log: seq<Range>, s: nat)
    requires Tracks(c, p, file, next, log) && p.tl.first <= s <= next
    ensures s - p.tl.first < |p.snaps| && Snapshot(c, p.tl.At(s), p.snaps[s - p.tl.first], s)
  {
    hide Snapshot, Timeline.At;
    var k := s - p.tl.first;
    assert Snapshot(c, p.tl.At(p.tl.first + k), p.snaps[k], p.tl.first + k);
  }

  /** The header tells the states of a container apart. */
  lemma StatesDiffer(c: Suite, f: bytes, g: Image, s: nat, f': bytes, g': Image, s': nat)
    requires Snapshot(c, f, g, s) && Snapshot(c, f', g', s') && s != s'
    ensures f != f'
  {
    ReloadedParts(c, f, g);
    ReloadedParts(c, f', g');
    hide Represents, Healthy, ParseHeader;
  }

  /** The last cut is the whole log, and no earlier one is. */
  lemma LastCut(tl: Timeline, s: nat)
    requires tl.Valid() && tl.first <= s <= tl.Next()
    ensures tl.cut[s - tl.first] == |tl.writes| <==> s == tl.Next()
  {
    IncreasingAt(tl.cut, s - tl.first, |tl.cut| - 1);
  }

  lemma AnotherState(c: Suite, p: Past, file: bytes, next: nat, log: seq<Range>, e: nat)
    requires Tracks(c, p, file, next, log) && p.tl.first <= e < next
    ensures p.tl.At(e) != file
  {
    hide Snapshot, Timeline.At;
    SnapshotAt(c, p, file, next, log, e);
    SnapshotAt(c, p, file, next, log, next);
    StatesDiffer(c, p.tl.At(e), p.snaps[e - p.tl.first], e, file, p.snaps[next - p.tl.first], next);
  }

  /** The journal theorem on a serving vault: replaying the combined patch on the state at `s` gives the
      state after the newest recorded mutation -- which is the current one exactly when the change log
      holds nothing unrecorded, or the peer had it already. */
  lemma PatchedState(c: Suite, p: Past, entries: seq<Entry>, file: bytes, next: nat, log: seq<Range>, s: nat)
    requires Tracks(c, p, file, next, log) && JournalOk(p, entries) && Covers(entries, s) && p.tl.first <= s <= next
    ensures p.tl.first <= Reached(entries, s) <= next
    ensures Apply(Since(entries, s), p.tl.At(s)) == p.tl.At(Reached(entries, s))
    ensures p.tl.At(Reached(entries, s)) == file <==> log == [] || s == next
  {
    hide Snapshots, Records, Timeline.At, Apply;
    ReplayCatchesUp(p.tl, entries, p.from, s);
    var newest, e := entries[|entries| - 1].seqNo, Reached(entries, s);
    LastCut(p.tl, newest + 1);
    assert log == [] <==> p.drained == |p.tl.writes|;
    if e < next {
      AnotherState(c, p, file, next, log, e);
    }
  }

  // ----- messages over a connection

  /** Sends a message and receives it at the other end: it arrives as it was sent, or not at all. */
  method Deliver(c: Suite, link: Link, s: Side, m: SyncMessage) returns (r: Result<SyncMessage>)
    requires link.Valid() && link.Received(s.Other()) == |link.sent.At(s)| && |link.sent.At(s)| + 1 < U63
    modifies link, link.left, link.right, link.left.outgoing, link.right.outgoing
    ensures r == if Fits(m) then Ok(m) else Err(IoError)
    ensures r.Ok? ==> link.Valid() && link.Received(s.Other()) == |link.sent.At(s)| == |old(link.sent).At(s)| + 1
    ensures r.Ok? ==> link.sent.At(s.Other()) == old(link.sent).At(s.Other()) && link.Received(s) == old(link.Received(s))
  {
    hide MessageBytes, ParseMessage, Way;
    if Fits(m) {
      FramedIsEncodable(m);
      MessageRoundTrip(c, m);
    }
    var buf := Encode(m);
    var _ :- link.Send(s, buf);
    var received :- link.Recv(s.Other());
    r := Decode(c, received);
  }

  /** A live handle of a replica takes one incoming message. */
  method ApplyIncoming(v: Vault, m: SyncMessage, ghost g: Image) returns (r: Result<()>)
    modifies v
    ensures v.file == if m.Patch? then Apply(m.ranges, old(v.file)) else old(v.file)
    ensures r == match m
                 case Patch(_, _) => Reloads(v.c, v.file)
                 case UpToDate => Ok(())
                 case Failure(text) => Err(Remote(text))
                 case _ => Err(CorruptContainer)
    ensures v.key == old(v.key) && v.admin == old(v.admin)
    ensures m.Patch? && Represents(v.c, v.file, g.st) && Healthy(v.c, g) ==>
              && r == Ok(()) && v.img == g
              && (old(v.changeLog) == [] && v.admin.None? ==> (v.Valid() <==> v.key == g.key))
  {
    hide Represents, Healthy, Apply, Reloads, Vault.ValidFor;
    match m {
      case Patch(_, ranges) => r := v.ApplyRemotePatch(ranges, g);
      case UpToDate => r := Ok(());
      case Failure(text) => r := Err(Remote(text));
      case _ => r := Err(CorruptContainer);
    }
  }

  /** Dials the listener and says where this peer's chain is. */
  method Dial(c: Suite, listener: Identity, who: Identity, mine: Arr32, theirs: Arr32, nextSeq: u64, lastHash: Arr32)
    returns (link: Link, caller: PeerId, asked: SyncMessage)
    ensures fresh(link) && fresh(link.left) && fresh(link.right) && fresh(link.left.outgoing) && fresh(link.right.outgoing)
    ensures link.Valid() && link.Received(Left) == |link.sent.right| == 0
    ensures caller == c.Peer(who) && asked == ChainState(nextSeq, lastHash)
  {
    hide MessageBytes, Way;
    var known, connected := Connect(c, who, mine, c.Peer(listener), listener, theirs);
    caller, link := known, connected.value;
    SmallMessagesFit(nextSeq, lastHash);
    var heard := Deliver(c, link, Left, ChainState(nextSeq, lastHash));
    asked := heard.value;
  }

  /** Asks the serving admin, over a fresh encrypted connection, for the changes since `nextSeq`. */
  method Ask(server: Server, listener: Identity, who: Identity, mine: Arr32, theirs: Arr32, nextSeq: u64, lastHash: Arr32)
    returns (r: Result<SyncMessage>)
    requires server.Valid()
    ensures r == if server.Now().serving.None? then Err(IoError)
                 else
                   var m := Reply(server.Now(), server.vault.c.Peer(who), ChainState(nextSeq, lastHash));
                   if Fits(m) then Ok(m) else Err(IoError)
  {
    hide Server.Valid, Vault.View, Reply, Fits, Link.Valid;
    if server.network.None? {
      return Err(IoError);
    }
    var link, caller, asked := Dial(server.vault.c, listener, who, mine, theirs, nextSeq, lastHash);
    var answer := server.Poll(caller, asked.nextSeq, asked.lastHash);
    r := Deliver(server.vault.c, link, Right, answer.value);
  }

  lemma Handle(s: Server)
    requires s.Valid()
    ensures s.vault.Valid() && EndsIn(s.past, s.vault.img)
    ensures Tracks(s.vault.c, s.past, s.vault.file, s.vault.header.layout.chainNextSeq, s.vault.changeLog)
  {
    hide Vault.Valid, Tracks, EndsIn;
  }

  /** The console's side of a connection: what it tells the caller, whatever the caller said first, and
      how that ends. */
  method ServeStream(server: Server, caller: PeerId, first: bytes) returns (told: Option<SyncMessage>, r: Result<()>)
    requires server.Valid() && server.network.Some?
    ensures (told, r) == ServeOutcome(server.Now(), caller, ParseMessage(server.vault.c, first))
  {
    hide Server.Valid, Vault.Valid, Vault.View, EndsIn, Tracks, Fits, ParseMessage, HasGrant, Reply, NotGranted,
      ExpectedChainState, ServeOutcome;
    Handle(server);
    ServeCases(server.Now(), caller, ParseMessage(server.vault.c, first));
    var granted := server.vault.IsGranted(caller);
    if !granted {
      return Some(Failure(NotGranted())), Err(NotAuthorized);
    }
    var heard := Decode(server.vault.c, first);
    if heard.Err? {
      return None, Err(heard.error);
    }
    if !heard.value.ChainState? {
      return Some(Failure(ExpectedChainState())), Err(CorruptContainer);
    }
    told := server.Poll(caller, heard.value.nextSeq, heard.value.lastHash);
    r := if Fits(told.value) then Ok(()) else Err(IoError);
  }

  datatype Replica = Replica(who: Identity, file: bytes)

  // ----- what stands where in the past

  /** The healthy vault behind it. */
  ghost function Held(p: Past, m: Model): Image
    requires p.tl.first <= m.nextSeq && m.nextSeq - p.tl.first < |p.snaps|
  {
    p.snaps[m.nextSeq - p.tl.first]
  }

  /** The file is, byte for byte, the container as it was when the vault in it was `m`. */
  ghost predicate Stands(p: Past, file: bytes, m: Model) {
    && p.tl.Valid() && p.tl.first <= m.nextSeq <= p.tl.Next() && file == p.tl.At(m.nextSeq)
    && m.nextSeq - p.tl.first < |p.snaps|
    && |Held(p, m).recs| == |Held(p, m).st.entries| && m == ModelOf(Held(p, m), false)
  }

  lemma StandsInBounds(p: Past, file: bytes, m: Model)
    requires Stands(p, file, m)
    ensures p.tl.first <= m.nextSeq && m.nextSeq - p.tl.first < |p.snaps|
  {
    hide Timeline.At, Timeline.Valid, ModelOf;
  }

  lemma StandsStay(p: Past, q: Past, file: bytes, m: Model)
    requires Stands(p, file, m) && Continues(p, q)
    ensures Stands(q, file, m)
  {
    hide Timeline.At, Timeline.Valid, ModelOf;
  }

  /** One sequence number, one state. */
  lemma StandsAlike(p: Past, f: bytes, m: Model, f': bytes, m': Model)
    requires Stands(p, f, m) && Stands(p, f', m') && m.nextSeq == m'.nextSeq
    ensures f == f' && m == m'
  {
    hide Timeline.At, Timeline.Valid, ModelOf;
  }

  lemma SnapshotStands(p: Past, file: bytes, c: Suite, s: nat)
    requires p.tl.Valid() && p.tl.first <= s <= p.tl.Next() && s - p.tl.first < |p.snaps|
    requires file == p.tl.At(s) && Snapshot(c, file, p.snaps[s - p.tl.first], s)
    ensures |p.snaps[s - p.tl.first].recs| == |p.snaps[s - p.tl.first].st.entries|
    ensures Stands(p, file, ModelOf(p.snaps[s - p.tl.first], false)) && ModelOf(p.snaps[s - p.tl.first], false).nextSeq == s
  {
    ModelFields(p.snaps[s - p.tl.first], false);
    hide Timeline.At, Timeline.Valid, ModelOf, Represents, Healthy;
  }

  lemma TracksBounds(c: Suite, p: Past, file: bytes, next: nat, log: seq<Range>)
    requires Tracks(c, p, file, next, log)
    ensures p.tl.Valid() && p.tl.Next() == next && p.tl.first <= next && p.tl.At(next) == file && |p.snaps| == next - p.tl.first + 1
  {
  }

  lemma PresentStands(c: Suite, p: Past, file: bytes, next: nat, log: seq<Range>, g: Image)
    requires Tracks(c, p, file, next, log) && EndsIn(p, g)
    ensures |g.recs| == |g.st.entries| && Stands(p, file, ModelOf(g, false))
  {
    hide Tracks, Snapshot, Timeline.At, Timeline.Valid, Timeline.Next, ModelOf, Stands;
    TracksBounds(c, p, file, next, log);
    SnapshotAt(c, p, file, next, log, next);
    SnapshotStands(p, file, c, next);
  }

  /** The present container stands in the past, too. */
  lemma StandsNow(s: Server)
    requires s.Valid()
    ensures s.vault.Valid() && s.vault.View().nextSeq == s.vault.header.layout.chainNextSeq
    ensures Stands(s.past, s.vault.file, s.vault.View().(admin := false))
  {
    Handle(s);
    SeqOfView(s.vault);
    hide Server.Valid, Vault.ValidFor, Tracks, ModelOf, Stands, EndsIn;
    PresentStands(s.vault.c, s.past, s.vault.file, s.vault.header.layout.chainNextSeq, s.vault.changeLog, s.vault.img);
    SameContents(s.vault.img, false, s.vault.admin.Some?);
  }

  /** The sequence number in the header of a container. */
  function SeqIn(c: Suite, file: bytes): nat {
    match HeaderIn(c, file)
    case Ok(h) => h.layout.chainNextSeq
    case Err(_) => 0
  }

  lemma SnapshotSeq(c: Suite, file: bytes, g: Image, s: nat)
    requires Snapshot(c, file, g, s)
    ensures s < U64 && SeqIn(c, file) == s
  {
    ReloadedParts(c, file, g);
    hide Represents, Healthy, ParseHeader, HeaderIn;
  }

  /** Whatever stands in the past of a vault is a healthy container. */
  lemma StandsHealthy(s: Server, file: bytes, m: Model)
    requires s.Valid() && Stands(s.past, file, m)
    ensures s.past.tl.first <= m.nextSeq && m.nextSeq - s.past.tl.first < |s.past.snaps|
    ensures Snapshot(s.vault.c, file, Held(s.past, m), m.nextSeq)
    ensures |Held(s.past, m).recs| == |Held(s.past, m).st.entries| && m == ModelOf(Held(s.past, m), false)
    ensures m.nextSeq < U64 && SeqIn(s.vault.c, file) == m.nextSeq
  {
    Handle(s);
    hide Server.Valid, Vault.Valid, Tracks, Snapshot, Timeline.At, Timeline.Valid, ModelOf;
    TracksBounds(s.vault.c, s.past, s.vault.file, s.vault.header.layout.chainNextSeq, s.vault.changeLog);
    SnapshotAt(s.vault.c, s.past, s.vault.file, s.vault.header.layout.chainNextSeq, s.vault.changeLog, m.nextSeq);
    SnapshotSeq(s.vault.c, file, Held(s.past, m), m.nextSeq);
  }

  lemma StandsBegin(p: Past, file: bytes, m: Model)
    requires Stands(p, file, m)
    ensures p.tl.Valid() && p.tl.first <= m.nextSeq <= p.tl.Next() && file == p.tl.At(m.nextSeq)
  {
    hide Timeline.At, Timeline.Valid, ModelOf;
  }

  lemma JournalInside(s: Server)
    requires s.Valid()
    ensures s.network.Some? ==> JournalOk(s.past, s.network.value.entries)
  {
    hide Vault.Valid, Tracks, JournalOk;
  }

  lemma JournalInOrder(p: Past, entries: seq<Entry>, next: nat)
    requires p.tl.Valid() && p.tl.Next() == next && Records(p.tl, entries, p.from) && |entries| <= 64
    ensures InOrder(entries, next)
  {
    hide Records, Timeline.Valid;
    forall i, j | 0 <= i < j < |entries|
      ensures entries[i].seqNo < entries[j].seqNo
    {
      RecordsInOrder(p.tl, entries, p.from, i, j);
    }
    forall i | 0 <= i < |entries|
      ensures entries[i].seqNo < next
    {
      RecordsInOrder(p.tl, entries, p.from, i, i);
    }
  }

  /** The journal of a serving vault is tidy. */
  lemma ServerIsTidy(s: Server)
    requires s.Valid()
    ensures Tidy(s.Now())
  {
    Handle(s);
    SeqOfView(s.vault);
    hide Vault.ValidFor, Vault.View, Snapshots, Records, Timeline.At, Timeline.Valid, InOrder, EndsIn;
    if s.network.Some? {
      JournalInOrder(s.past, s.network.value.entries, s.vault.header.layout.chainNextSeq);
    }
  }

  lemma PatchLandsIn(c: Suite, p: Past, entries: seq<Entry>, now: bytes, next: nat, log: seq<Range>, file: bytes, m: Model)
    returns (m': Model)
    requires Tracks(c, p, now, next, log) && JournalOk(p, entries) && Stands(p, file, m) && Covers(entries, m.nextSeq)
    ensures var file' := Apply(Since(entries, m.nextSeq), file);
            && Stands(p, file', m') && m'.nextSeq == Reached(entries, m.nextSeq) <= next
            && (file' == now <==> log == [] || m.nextSeq == next)
  {
    StandsBegin(p, file, m);
    hide Tracks, JournalOk, Snapshot, Timeline.At, Timeline.Valid, Timeline.Next, Apply, Reached, Covers, Stands, Since;
    TracksBounds(c, p, now, next, log);
    PatchedState(c, p, entries, now, next, log, m.nextSeq);
    var e := Reached(entries, m.nextSeq);
    SnapshotAt(c, p, now, next, log, e);
    SnapshotStands(p, p.tl.At(e), c, e);
    m' := ModelOf(p.snaps[e - p.tl.first], false);
  }

  /** Where the journal's patch takes a copy. */
  lemma PatchLands(s: Server, file: bytes, m: Model) returns (m': Model)
    requires s.Valid() && Stands(s.past, file, m) && s.network.Some? && Covers(s.network.value.entries, m.nextSeq)
    ensures var file' := Apply(Since(s.network.value.entries, m.nextSeq), file);
            && Stands(s.past, file', m') && m'.nextSeq == Reached(s.network.value.entries, m.nextSeq)
            && forall who :: Moved(s.Now(), Copy(who, file, m), Copy(who, file', m'))
  {
    Handle(s);
    JournalInside(s);
    SeqOfView(s.vault);
    hide Server.Valid, Vault.ValidFor, Vault.View, Tracks, JournalOk, Apply, Reached, Covers, Stands, Since;
    m' := PatchLandsIn(s.vault.c, s.past, s.network.value.entries, s.vault.file, s.vault.header.layout.chainNextSeq,
                       s.vault.changeLog, file, m);
  }

  // ----- joining and coming back

  lemma FirstReply(s: State, peer: PeerId)
    requires s.serving.Some?
    ensures Reply(s, peer, ChainState(0, Zeros(32))) == if HasGrant(s.model, peer) then FullSync(s.file) else Failure(NotGranted())
  {
    hide HasGrant, NotGranted;
  }

  /** Asks for the whole container. */
  method Fetch(server: Server, listener: Identity, who: Identity, mine: Arr32, theirs: Arr32) returns (r: Result<bytes>)
    requires server.Valid()
    ensures r == match JoinAnswer(server.vault.c, server.Now(), who) case None => Ok(server.Now().file) case Some(e) => Err(e)
  {
    ghost var s, peer := server.Now(), server.vault.c.Peer(who);
    if s.serving.Some? {
      FirstReply(s, peer);
    }
    SmallMessagesFit(0, Zeros(32));
    hide Server.Valid, Vault.View, Fits, HasGrant, Reply, NotGranted;
    var got :- Ask(server, listener, who, mine, theirs, 0, Zeros(32));
    match got {
      case FullSync(all) => r := Ok(all);
      case Failure(text) => r := Err(Remote(text));
      case _ => r := Err(CorruptContainer);
    }
  }

  lemma JoinerIsGranted(c: Suite, s: State, who: Identity)
    requires JoinAnswer(c, s, who) == None
    ensures HoldsGrant(s.model.(admin := false), c.encPub(who.encSecret))
  {
    GrantedHolds(s.model, c.Peer(who));
  }

  /** Opens a copy that stands in the past: exactly the peers granted then get in, and read the vault as
      it was then. */
  method OpenCopy(server: Server, file: bytes, who: Identity, ghost m: Model) returns (r: Result<Vault>)
    requires server.Valid() && Stands(server.past, file, m)
    ensures r.Ok? <==> HoldsGrant(m, server.vault.c.encPub(who.encSecret))
    ensures r.Err? ==> r.error == AccessNotGranted
    ensures r.Ok? ==> fresh(r.value) && r.value.Valid() && r.value.View() == m && r.value.file == file
                      && r.value.header.layout.chainNextSeq == m.nextSeq && r.value.c == server.vault.c
                      && r.value.changeLog == [] && r.value.admin == None
  {
    StandsHealthy(server, file, m);
    hide Server.Valid, Vault.ValidFor, Represents, Healthy, HoldsGrant, ModelOf, Stands, RecipientKeyIn, Reloads, HeaderIn;
    r := OpenAsRecipient(server.vault.c, file, who, Held(server.past, m));
    if r.Ok? {
      SeqOfView(r.value);
    }
  }

  /** Fetches the whole container and opens it as a recipient. */
  method FirstCopy(server: Server, listener: Identity, who: Identity, mine: Arr32, theirs: Arr32) returns (r: Result<Vault>)
    requires server.Valid()
    ensures r.Ok? <==> JoinAnswer(server.vault.c, server.Now(), who) == None
    ensures r.Err? ==> JoinAnswer(server.vault.c, server.Now(), who) == Some(r.error)
    ensures r.Ok? ==> fresh(r.value) && r.value.Valid() && r.value.file == server.Now().file
                      && r.value.View() == server.Now().model.(admin := false)
  {
    hide Server.Valid, Vault.Valid, Vault.View, HoldsGrant, Stands, JoinAnswer;
    StandsNow(server);
    var all :- Fetch(server, listener, who, mine, theirs);
    JoinerIsGranted(server.vault.c, server.Now(), who);
    r := OpenCopy(server, all, who, server.vault.View().(admin := false));
  }

  lemma ReplyIgnoresHash(s: State, peer: PeerId, n: u64, h: Arr32, h': Arr32)
    requires s.serving.Some?
    ensures Reply(s, peer, ChainState(n, h)) == Reply(s, peer, ChainState(n, h'))
  {
  }

  /** Coming back: the peer opens its own copy, says where it stands and applies the answer. */
  method CatchUp(server: Server, listener: Identity, rep: Replica, ghost m: Model, mine: Arr32, theirs: Arr32)
    returns (r: Result<bytes>, ghost m': Model)
    requires server.Valid() && Stands(server.past, rep.file, m) && m.nextSeq < U64
    ensures r.Err? ==> CatchUpAnswer(server.vault.c, server.Now(), Copy(rep.who, rep.file, m)) == Err(r.error)
    ensures r.Ok? ==>
              && CatchUpAnswer(server.vault.c, server.Now(), Copy(rep.who, rep.file, m)) == Ok(())
              && Stands(server.past, r.value, m') && Moved(server.Now(), Copy(rep.who, rep.file, m), Copy(rep.who, r.value, m'))
  {
    hide Server.Valid, Vault.Valid, Vault.View, HoldsGrant, Stands, Fits, Reply, Moved, Apply, Covers, Since, Represents,
      Healthy, Reloads;
    m' := m;
    var v := OpenCopy(server, rep.file, rep.who, m);
    if v.Err? {
      return Err(v.error), m;
    }
    ghost var s, peer := server.Now(), server.vault.c.Peer(rep.who);
    var got := Ask(server, listener, rep.who, mine, theirs, v.value.header.layout.chainNextSeq, v.value.header.layout.chainLastHash);
    if s.serving.Some? {
      ReplyIgnoresHash(s, peer, m.nextSeq, Zeros(32), v.value.header.layout.chainLastHash);
      ReplyCases(s, peer, ChainState(m.nextSeq, Zeros(32)));
    }
    if got.Err? {
      return Err(got.error), m;
    }
    ghost var g := v.value.img;
    if got.value.Patch? {
      m' := PatchLands(server, rep.file, m);
      StandsHealthy(server, Apply(got.value.ranges, rep.file), m');
      g := Held(server.past, m');
    }
    var done := ApplyIncoming(v.value, got.value, g);
    r := if done.Ok? then Ok(v.value.file) else Err(done.error);
  }

  lemma HeldKey(s: Server, file: bytes, m: Model)
    requires s.Valid() && Stands(s.past, file, m)
    ensures m.nextSeq - s.past.tl.first < |s.past.snaps| && s.past.tl.first <= m.nextSeq
    ensures AdminKeyIn(s.vault.c, file, m.password) == Ok(Held(s.past, m).key)
  {
    StandsHealthy(s, file, m);
    ModelFields(Held(s.past, m), false);
    OwnPasswordYieldsKey(s.vault.c, file, Held(s.past, m));
    hide Server.Valid, Represents, Healthy, ModelOf, Stands, AdminKeyIn;
  }

  lemma HandleKey(v: Vault)
    requires v.Valid()
    ensures AdminKeyIn(v.c, v.file, v.View().password) == Ok(v.key)
  {
    ModelFields(v.img, v.admin.Some?);
    OwnPasswordYieldsKey(v.c, v.file, v.img);
    hide Represents, Healthy, ModelOf, AdminKeyIn;
  }

  /** An open handle of a replica takes the journal's patch: the file becomes the later state, and the
      handle stands for it exactly when the two states have one content key, that is, when no revocation
      in between has rotated it. */
  method TakePatch(server: Server, v: Vault) returns (r: Result<()>, ghost m: Model)
    requires server.Valid() && server.network.Some? && Covers(server.network.value.entries, v.header.layout.chainNextSeq)
    requires v.Valid() && v != server.vault && v.c == server.vault.c && v.admin.None? && v.changeLog == []
    requires Stands(server.past, v.file, v.View()) && v.View().nextSeq == v.header.layout.chainNextSeq
    modifies v
    ensures r == Ok(()) && server.Valid() && server.Now() == old(server.Now()) && server.past == old(server.past)
    ensures v.file == Apply(Since(server.network.value.entries, old(v.View()).nextSeq), old(v.file))
    ensures Stands(server.past, v.file, m) && m.nextSeq == Reached(server.network.value.entries, old(v.View()).nextSeq)
    ensures v.Valid() <==> AdminKeyIn(v.c, v.file, m.password) == AdminKeyIn(v.c, old(v.file), old(v.View()).password)
    ensures v.Valid() ==> v.View() == m
  {
    hide Server.Valid, Server.Now, Vault.ValidFor, Stands, Apply, Covers, Reached, AdminKeyIn, Represents, Healthy, Reloads;
    ghost var before := v.View();
    HandleKey(v);
    m := PatchLands(server, v.file, before);
    var ranges := Since(server.network.value.entries, v.header.layout.chainNextSeq);
    StandsHealthy(server, Apply(ranges, v.file), m);
    HeldKey(server, Apply(ranges, v.file), m);
    r := ApplyIncoming(v, Patch(v.header.layout.chainNextSeq, ranges), Held(server.past, m));
  }

  // ----- a vault, its admin and its peers

  /** The copy is what the peer has on disk, and stands in the past. */
  ghost predicate CopyOk(p: Past, r: Replica, copy: Copy) {
    copy.who == r.who && copy.file == r.file && Stands(p, copy.file, copy.model)
  }

  ghost predicate CopiesOk(p: Past, rs: seq<Replica>, copies: seq<Copy>) {
    |copies| == |rs| && forall k | 0 <= k < |rs| :: CopyOk(p, rs[k], copies[k])
  }

  lemma CopyAt(p: Past, rs: seq<Replica>, copies: seq<Copy>, k: nat)
    requires CopiesOk(p, rs, copies) && k < |rs|
    ensures k < |copies| && CopyOk(p, rs[k], copies[k])
  {
    hide CopyOk;
  }

  lemma CopyMoves(p: Past, rs: seq<Replica>, copies: seq<Copy>, k: nat, r: Replica, copy: Copy)
    requires CopiesOk(p, rs, copies) && k < |rs| && CopyOk(p, r, copy)
    ensures |copies| == |rs| && CopiesOk(p, rs[k := r], copies[k := copy])
  {
    hide CopyOk;
  }

  lemma CopyAdded(p: Past, rs: seq<Replica>, copies: seq<Copy>, r: Replica, copy: Copy)
    requires CopiesOk(p, rs, copies) && CopyOk(p, r, copy)
    ensures CopiesOk(p, rs + [r], copies + [copy])
  {
    hide CopyOk;
  }

  lemma CopiesStay(p: Past, q: Past, rs: seq<Replica>, copies: seq<Copy>)
    requires CopiesOk(p, rs, copies) && Continues(p, q)
    ensures CopiesOk(q, rs, copies)
  {
    hide Continues, Stands;
    forall k | 0 <= k < |rs|
      ensures CopyOk(q, rs[k], copies[k])
    {
      assert CopyOk(p, rs[k], copies[k]);
      StandsStay(p, q, copies[k].file, copies[k].model);
    }
  }

  ghost predicate StandsBehind(p: Past, copy: Copy, next: nat) {
    Stands(p, copy.file, copy.model) && copy.model.nextSeq <= next
  }

  /** At a moment of a run, the container and all copies stand in the past, and no copy is ahead. */
  ghost predicate Sound(p: Past, m: Moment) {
    && Stands(p, m.admin.file, m.admin.model.(admin := false))
    && forall k | 0 <= k < |m.copies| :: StandsBehind(p, m.copies[k], m.admin.model.nextSeq)
  }

  lemma SoundStays(p: Past, q: Past, m: Moment)
    requires Sound(p, m) && Continues(p, q)
    ensures Sound(q, m)
  {
    hide Continues, Stands;
    StandsStay(p, q, m.admin.file, m.admin.model.(admin := false));
    forall k | 0 <= k < |m.copies|
      ensures StandsBehind(q, m.copies[k], m.admin.model.nextSeq)
    {
      assert StandsBehind(p, m.copies[k], m.admin.model.nextSeq);
      StandsStay(p, q, m.copies[k].file, m.copies[k].model);
    }
  }

  function Done<T>(r: Result<T>): Result<()> {
    match r
    case Ok(_) => Ok(())
    case Err(e) => Err(e)
  }

  lemma PastStays(s: Server)
    requires s.Valid()
    ensures Continues(s.past, s.past)
  {
    Handle(s);
    hide Server.Valid, Vault.Valid, Tracks;
    NothingHappened(s.vault.c, s.past, s.vault.file, s.vault.header.layout.chainNextSeq, s.vault.changeLog);
  }

  lemma SameSize(p: Past, rs: seq<Replica>, copies: seq<Copy>)
    requires CopiesOk(p, rs, copies)
    ensures |copies| == |rs|
  {
  }

  lemma PasswordAfter(a: State, cmd: Cmd, recorded: bool, r: Result<()>, b: State)
    requires Changed(a, cmd, recorded, r, b)
    ensures b.model.password == if r.Ok? && cmd.Revoke? then cmd.password else a.model.password
  {
    hide Wrote;
  }

  lemma AllSound(p: Past, q: Past, trace: seq<Moment>)
    requires Continues(p, q) && forall k | 0 <= k < |trace| :: Sound(p, trace[k])
    ensures forall k | 0 <= k < |trace| :: Sound(q, trace[k])
  {
    hide Sound, Continues;
    forall k | 0 <= k < |trace|
      ensures Sound(q, trace[k])
    {
      SoundStays(p, q, trace[k]);
    }
  }

  lemma CopyIsBehind(s: Server, copy: Copy)
    requires s.Valid() && Stands(s.past, copy.file, copy.model)
    ensures s.vault.Valid() && StandsBehind(s.past, copy, s.vault.View().nextSeq)
  {
    StandsNow(s);
    Handle(s);
    TracksBounds(s.vault.c, s.past, s.vault.file, s.vault.header.layout.chainNextSeq, s.vault.changeLog);
    StandsBegin(s.past, copy.file, copy.model);
    hide Server.Valid, Vault.Valid, Vault.View, Stands, Tracks;
  }

  lemma SoundNow(d: Deployment)
    requires d.Valid()
    ensures Sound(d.server.past, d.Now())
  {
    var s := d.server;
    StandsNow(s);
    hide Server.Valid, Vault.ValidFor, Vault.View, CopiesOk, Stands;
    SameSize(s.past, d.replicas, d.copies);
    forall k | 0 <= k < |d.copies|
      ensures StandsBehind(s.past, d.copies[k], s.vault.View().nextSeq)
    {
      CopyAt(s.past, d.replicas, d.copies, k);
      CopyIsBehind(s, d.copies[k]);
    }
  }

  /** The trace so far. */
  ghost predicate Traced(c: Suite, first: Past, p: Past, start: Moment, events: seq<Event>, answers: seq<Result<()>>,
                         trace: seq<Moment>, now: Moment)
  {
    && IsRun(c, trace, events, answers) && trace[0] == start && trace[|events|] == now && Continues(first, p)
    && forall k | 0 <= k < |trace| :: Sound(p, trace[k])
  }

  lemma TraceBegins(c: Suite, p: Past, start: Moment, events: seq<Event>)
    requires Continues(p, p) && Sound(p, start)
    ensures Traced(c, p, p, start, events[..0], [], [start], start)
  {
    hide Continues, Sound;
    RunBegins(c, start);
    assert events[..0] == [];
  }

  lemma TraceGoesOn(c: Suite, first: Past, p: Past, q: Past, start: Moment, events: seq<Event>, n: nat,
                    answers: seq<Result<()>>, trace: seq<Moment>, now: Moment, r: Result<()>, now': Moment)
    requires n < |events| && Traced(c, first, p, start, events[..n], answers, trace, now)
    requires Happens(c, now, events[n], r, now') && Continues(p, q) && Sound(q, now')
    ensures Traced(c, first, q, start, events[..n + 1], answers + [r], trace + [now'], now')
  {
    hide Continues, Sound, Happens;
    ContinuesOnward(first, p, q);
    AllSound(p, q, trace);
    RunGoesOn(c, trace, events, answers, n, r, now');
  }

  lemma TraceMeans(c: Suite, first: Past, p: Past, start: Moment, events: seq<Event>, answers: seq<Result<()>>,
                   trace: seq<Moment>, now: Moment)
    requires Traced(c, first, p, start, events, answers, trace, now)
    ensures IsRun(c, trace, events, answers) && |trace| == |events| + 1
    ensures trace[0] == start && trace[|events|] == now && Continues(first, p)
    ensures forall n | 0 <= n <= |events| :: Sound(p, trace[n])
  {
    hide Continues, Sound, Happens;
  }

  class Deployment {
    const server: Server
    const listener: Identity
    var password: bytes                 // the one the admin remembers
    var replicas: seq<Replica>
    ghost var copies: seq<Copy>         // the vault each replica holds

    ghost predicate Valid()
      reads this, server, server.vault, server.vault.allocator,
            if server.network.Some? then {server.network.value} else {}
    {
      && server.Valid() && server.vault.View().password == password
      && CopiesOk(server.past, replicas, copies)
    }

    ghost function Now(): Moment
      requires Valid()
      reads this, server, server.vault, server.vault.allocator,
            if server.network.Some? then {server.network.value} else {}
    {
      Moment(server.Now(), copies)
    }

    ghost function Repr(): set<object>
      reads this, server, server.vault
    {
      {this} + server.Repr()
    }

    constructor (vault: Vault, password: bytes, listener: Identity)
      requires vault.Valid() && vault.changeLog == [] && vault.View().password == password
      ensures Valid() && fresh(server) && server.vault == vault && server.network == None
      ensures Now() == Moment(State(vault.file, vault.View(), vault.header.keys.adminSigning, None, []), [])
      ensures server.past.tl.first == vault.View().nextSeq
    {
      hide Server.Valid, Vault.ValidFor, Stands;
      var s := new Server(vault);
      server, this.listener, this.password := s, listener, password;
      replicas, copies := [], [];
    }

    /** `join`: a new peer gets the whole container and can read everything in it. */
    method Join(who: Identity, mine: Arr32, theirs: Arr32) returns (r: Result<Vault>)
      requires Valid()
      modifies this`replicas, this`copies
      ensures Valid() && Joined(server.vault.c, old(Now()), who, Done(r), Now())
      ensures r.Ok? ==> fresh(r.value) && r.value.Valid() && r.value.View() == Now().admin.model.(admin := false)
    {
      hide Server.Valid, Vault.ValidFor, Vault.View, JoinAnswer, CopiesOk, Stands;
      StandsNow(server);
      ghost var s := server.Now();
      r := FirstCopy(server, listener, who, mine, theirs);
      if r.Ok? {
        ghost var copy := Copy(who, s.file, s.model.(admin := false));
        CopyAdded(server.past, replicas, copies, Replica(who, r.value.file), copy);
        replicas := replicas + [Replica(who, r.value.file)];
        copies := copies + [copy];
      }
    }

    /** The `k`-th copy, and what it has to do with the present. */
    lemma TheCopy(k: nat)
      requires Valid() && k < |replicas|
      ensures server.Valid() && k < |copies| == |replicas| && Now() == Moment(server.Now(), copies)
      ensures CopyOk(server.past, replicas[k], copies[k]) && copies[k].model.nextSeq < U64
    {
      CopyAt(server.past, replicas, copies, k);
      SameSize(server.past, replicas, copies);
      StandsHealthy(server, copies[k].file, copies[k].model);
      hide Server.Valid, Server.Now, Vault.View, CopiesOk, Stands;
    }

    method SetCopy(k: nat, rep: Replica, ghost copy: Copy)
      requires Valid() && k < |replicas| && CopyOk(server.past, rep, copy)
      modifies this`replicas, this`copies
      ensures Valid() && |copies| == |replicas| == |old(copies)| && k < |copies|
      ensures Now() == old(Now()).(copies := old(copies)[k := copy])
    {
      hide Server.Valid, Server.Now, Vault.View, CopiesOk, CopyOk;
      SameSize(server.past, replicas, copies);
      CopyMoves(server.past, replicas, copies, k, rep, copy);
      replicas := replicas[k := rep];
      copies := copies[k := copy];
    }

    /** Coming back, as `CaughtUp` says: the copy moves on to the state after the newest recorded mutation,
        or everything stays as it was. */
    method Reconnect(k: nat, mine: Arr32, theirs: Arr32) returns (r: Result<()>)
      requires Valid() && k < |replicas|
      modifies this`replicas, this`copies
      ensures Valid() && |copies| == |replicas| == |old(copies)| && CaughtUp(server.vault.c, old(Now()), k, r, Now())
    {
      hide Valid, Now, Server.Valid, Server.Now, Stands, CatchUpAnswer, Moved, CaughtUp;
      TheCopy(k);
      ghost var before, copy := Now(), copies[k];
      var rep := replicas[k];
      var outcome;
      ghost var m';
      outcome, m' := CatchUp(server, listener, rep, copy.model, mine, theirs);
      r := Done(outcome);
      if outcome.Err? {
        CameBack(server.vault.c, before, k, r, copy);
        return;
      }
      ghost var moved := Copy(rep.who, outcome.value, m');
      CameBack(server.vault.c, before, k, r, moved);
      SetCopy(k, rep.(file := outcome.value), moved);
    }

    /** A peer opens its own replica: it gets in exactly when the vault in it grants it access, and reads
        the admin's files as of that sequence number. */
    method OpenReplica(k: nat) returns (r: Result<Vault>)
      requires Valid() && k < |replicas|
      ensures |copies| == |replicas|
      ensures r.Ok? <==> HoldsGrant(copies[k].model, server.vault.c.encPub(replicas[k].who.encSecret))
      ensures r.Err? ==> r.error == AccessNotGranted
      ensures r.Ok? ==> fresh(r.value) && r.value.Valid() && r.value.View() == copies[k].model
    {
      hide Server.Valid, Vault.ValidFor, Vault.View, CopiesOk, Stands, HoldsGrant;
      CopyAt(server.past, replicas, copies, k);
      CopyMoves(server.past, replicas, copies, k, replicas[k], copies[k]);
      r := OpenCopy(server, replicas[k].file, replicas[k].who, copies[k].model);
    }

    // ----- what the admin does

    method Change(job: Job) returns (r: Result<()>)
      requires Valid() && server.vault.View().nextSeq + 1 < U64 && Loadable(job.cmd)
      modifies this`password, server`past, server.vault, server.vault.allocator, server.Journals()
      ensures Valid() && Continues(old(server.past), server.past) && copies == old(copies) && replicas == old(replicas)
      ensures server.vault.allocator == old(server.vault.allocator) && server.vault.c == old(server.vault.c)
      ensures Changed(old(server.Now()), job.cmd, IsFileCommand(job.cmd), r, server.Now())
      ensures Journaled(old(server.Now()), job.cmd, r, server.Now())
    {
      hide Server.Valid, Vault.ValidFor, Vault.View, CopiesOk, Continues, Loadable, Changed, Journaled;
      ghost var before := server.Now();
      if IsFileCommand(job.cmd) {
        r := server.Submit(job);
      } else {
        r := server.Share(job);
      }
      ChangesAreJournaled(before, job.cmd, r, server.Now());
      PasswordAfter(before, job.cmd, IsFileCommand(job.cmd), r, server.Now());
      if r.Ok? && job.cmd.Revoke? {
        password := job.cmd.password;
      }
      CopiesStay(old(server.past), server.past, replicas, copies);
    }

    method Serve()
      requires Valid()
      modifies server`network, server`past
      ensures Valid() && Now() == old(Now()).(admin := old(Now()).admin.(serving := Some([])))
      ensures Continues(old(server.past), server.past) && server.network.Some? && fresh(server.network.value)
    {
      hide Server.Valid, Vault.ValidFor, Vault.View, CopiesOk, Continues;
      ghost var before := server.Now();
      server.StartServing();
      assert server.Now().model == before.model;
      CopiesStay(old(server.past), server.past, replicas, copies);
    }

    method Pause()
      requires Valid()
      modifies server`network
      ensures Valid() && Now() == old(Now()).(admin := old(Now()).admin.(serving := None)) && server.network == None
    {
      hide Server.Valid, Vault.ValidFor, Vault.View, CopiesOk;
      ghost var before := server.Now();
      server.StopServing();
      assert server.Now().model == before.model;
    }

    method Relock(who: Identity)
      requires Valid()
      modifies server
      ensures Valid() && Now() == old(Now()).(admin := Relocked(server.vault.c, old(Now()).admin, who))
      ensures Continues(old(server.past), server.past) && server.network == None
      ensures fresh(server.vault) && fresh(server.vault.allocator) && server.vault.c == old(server.vault.c)
    {
      hide Server.Valid, Vault.ValidFor, Vault.View, CopiesOk, Continues;
      ghost var before := server.Now();
      server.Reopen(password, who);
      assert server.Now().model.password == before.model.password;
      CopiesStay(old(server.past), server.past, replicas, copies);
    }

    // ----- runs

    method PeerStep(e: Event) returns (r: Result<()>)
      requires Valid() && (e.Joins? || e.Reconnects?)
      modifies this`replicas, this`copies
      ensures Valid() && Happens(server.vault.c, old(Now()), e, r, Now()) && Continues(server.past, server.past)
    {
      hide Server.Valid, Server.Now, Vault.View, CopiesOk, CaughtUp, Joined, Continues;
      PastStays(server);
      match e {
        case Joins(who, mine, theirs) =>
          var joined := Join(who, mine, theirs);
          r := Done(joined);
        case Reconnects(k, mine, theirs) =>
          r := Err(IoError);
          SameSize(server.past, replicas, copies);
          if k < |replicas| {
            r := Reconnect(k, mine, theirs);
          }
      }
    }

    method AdminStep(e: Event) returns (r: Result<()>)
      requires Valid() && server.vault.View().nextSeq + 1 < U64
      requires (e.Changes? ==> Loadable(e.job.cmd)) && !e.Joins? && !e.Reconnects?
      modifies Repr()
      ensures Valid() && fresh(Repr() - old(Repr())) && server.vault.c == old(server.vault.c)
      ensures Happens(server.vault.c, old(Now()), e, r, Now()) && Continues(old(server.past), server.past)
    {
      hide Server.Valid, Server.Now, Vault.View, CopiesOk, Continues, Loadable, Changed;
      PastStays(server);
      r := Ok(());
      match e {
        case Changes(job) =>
          r := Change(job);
        case Serves =>
          Serve();
        case Pauses =>
          Pause();
        case Relocks(who) =>
          Relock(who);
      }
    }

    /** One event of a run does what `Happens` says. */
    method Step(e: Event) returns (r: Result<()>)
      requires Valid() && server.vault.View().nextSeq + 1 < U64 && (e.Changes? ==> Loadable(e.job.cmd))
      modifies Repr()
      ensures Valid() && fresh(Repr() - old(Repr())) && server.vault.c == old(server.vault.c)
      ensures Happens(server.vault.c, old(Now()), e, r, Now()) && Continues(old(server.past), server.past)
    {
      hide Valid, Now, Continues, Loadable, Happens;
      if e.Joins? || e.Reconnects? {
        r := PeerStep(e);
      } else {
        r := AdminStep(e);
      }
    }

    /** No copy is ahead of the admin. */
    lemma Behind(k: nat)
      requires Valid() && k < |replicas|
      ensures server.Valid() && server.vault.Valid() && server.Now().model == server.vault.View()
      ensures k < |copies| && copies[k].file == replicas[k].file && copies[k].who == replicas[k].who
      ensures copies[k].model.nextSeq <= server.Now().model.nextSeq && server.Now().file == server.vault.file
    {
      CopyAt(server.past, replicas, copies, k);
      CopyIsBehind(server, copies[k]);
      hide Server.Valid, Vault.Valid, Vault.View, CopiesOk, Stands;
    }

    lemma PresentIsTidy()
      requires Valid()
      ensures Tidy(Now().admin)
    {
      ServerIsTidy(server);
      hide Server.Valid, Server.Now, Vault.View, CopiesOk, Tidy;
    }

    lemma PresentSeq()
      requires Valid()
      ensures server.Valid() && server.vault.Valid() && Now().admin.model == server.vault.View()
      ensures Continues(server.past, server.past)
    {
      StandsNow(server);
      PastStays(server);
      hide Server.Valid, Vault.Valid, Vault.View, CopiesOk, Continues;
    }

    /** The next event of a run. */
    method Continue(events: seq<Event>, n: nat, ghost first: Past, ghost start: Moment, answers: seq<Result<()>>,
                    ghost trace: seq<Moment>) returns (answers': seq<Result<()>>, ghost trace': seq<Moment>)
      requires Valid() && n < |events| && Traced(server.vault.c, first, server.past, start, events[..n], answers, trace, Now())
      requires Now().admin.model.nextSeq + 1 < U64 && (events[n].Changes? ==> Loadable(events[n].job.cmd))
      modifies Repr()
      ensures Valid() && fresh(Repr() - old(Repr())) && server.vault.c == old(server.vault.c)
      ensures Traced(server.vault.c, first, server.past, start, events[..n + 1], answers', trace', Now())
      ensures Now().admin.model.nextSeq <= old(Now()).admin.model.nextSeq + 1
    {
      hide Valid, Now, Repr, Continues, Loadable, Happens, Traced;
      PresentSeq();
      ghost var c, p, now := server.vault.c, server.past, Now();
      var r := Step(events[n]);
      SoundNow(this);
      OneStep(c, now, events[n], r, Now());
      TraceGoesOn(c, first, p, server.past, start, events, n, answers, trace, now, r, Now());
      answers', trace' := answers + [r], trace + [Now()];
    }

    /** Over every run of events, the moments before and after each event are related as `Happens` says,
        and at each of them the container and every copy are states of one and the same past. */
    method Run(events: seq<Event>) returns (answers: seq<Result<()>>, ghost trace: seq<Moment>)
      requires Valid() && server.vault.View().nextSeq + |events| < U64
      requires forall k | 0 <= k < |events| && events[k].Changes? :: Loadable(events[k].job.cmd)
      modifies Repr()
      ensures Valid() && fresh(Repr() - old(Repr())) && server.vault.c == old(server.vault.c)
      ensures IsRun(server.vault.c, trace, events, answers) && |trace| == |events| + 1
      ensures trace[0] == old(Now()) && trace[|events|] == Now() && Tidy(trace[0].admin)
      ensures Continues(old(server.past), server.past)
      ensures forall n | 0 <= n <= |events| :: Sound(server.past, trace[n])
    {
      hide Valid, Now, Continues, Loadable, Happens, Traced, IsRun, Sound, Tidy, Server.Valid, Server.Now, Vault.Valid, Vault.View;
      ghost var c, start, first := server.vault.c, Now(), server.past;
      answers, trace := [], [start];
      SoundNow(this);
      PresentIsTidy();
      PresentSeq();
      TraceBegins(c, first, start, events);
      for n := 0 to |events|
        invariant Valid() && fresh(Repr() - old(Repr())) && server.vault.c == c
        invariant Traced(c, first, server.past, start, events[..n], answers, trace, Now())
        invariant Now().admin.model.nextSeq + (|events| - n) < U64
      {
        answers, trace := Continue(events, n, first, start, answers, trace);
      }
      assert events[..|events|] == events;
      TraceMeans(c, first, server.past, start, events, answers, trace, Now());
    }
  }

  /** The vault was, at moment `i`, what the copy is. */
  predicate IsMoment(trace: seq<Moment>, i: nat, copy: Copy) {
    i < |trace| && trace[i].admin.file == copy.file && trace[i].admin.model.(admin := false) == copy.model
  }

  /** At every moment of a run, every copy no older than the run is, bytes and vault, what the admin's
      container was at an earlier moment of that run, or is right then. */
  lemma CopyWasTheVault(c: Suite, p: Past, trace: seq<Moment>, events: seq<Event>, answers: seq<Result<()>>, n: nat, k: nat)
    returns (i: nat)
    requires IsRun(c, trace, events, answers) && n <= |events| && k < |trace[n].copies|
    requires forall j | 0 <= j <= |events| :: Sound(p, trace[j])
    requires trace[0].admin.model.nextSeq <= trace[n].copies[k].model.nextSeq
    ensures i <= n && IsMoment(trace, i, trace[n].copies[k])
  {
    hide Happens, Stands;
    var copy := trace[n].copies[k];
    assert Sound(p, trace[n]) && StandsBehind(p, copy, trace[n].admin.model.nextSeq);
    i := EverySeqIsPassed(c, trace, events, answers, n, copy.model.nextSeq);
    assert Sound(p, trace[i]);
    StandsAlike(p, copy.file, copy.model, trace[i].admin.file, trace[i].admin.model.(admin := false));
  }

  /** What the invariant of a deployment means: every replica is what its copy says, and the sequence
      number in its own header is the one it stands at. */
  lemma ReplicasArePastStates(d: Deployment)
    requires d.Valid()
    ensures |d.replicas| == |d.copies|
    ensures forall k | 0 <= k < |d.replicas| ::
              && d.copies[k].file == d.replicas[k].file && d.copies[k].who == d.replicas[k].who
              && SeqIn(d.server.vault.c, d.replicas[k].file) == d.copies[k].model.nextSeq
  {
    hide Server.Valid, Vault.ValidFor, Vault.View, CopiesOk, Stands, SeqIn;
    SameSize(d.server.past, d.replicas, d.copies);
    forall k | 0 <= k < |d.replicas|
      ensures d.copies[k].file == d.replicas[k].file && d.copies[k].who == d.replicas[k].who
      ensures SeqIn(d.server.vault.c, d.replicas[k].file) == d.copies[k].model.nextSeq
    {
      CopyAt(d.server.past, d.replicas, d.copies, k);
      StandsHealthy(d.server, d.copies[k].file, d.copies[k].model);
    }
  }

  // ----- the whole story

  /** Nobody is served, nothing is unrecorded, and there are no peers. */
  function Beginning(file: bytes, m: Model, owner: Arr32): Moment {
    Moment(State(file, m, owner, None, []), [])
  }

  lemma NewOwner(c: Suite, file: bytes, name: text, description: text, capacity: u64, who: Identity, ts: i64, h: Header)
    requires NewContainer(c, file, name, description, capacity, who, ts, h)
    ensures h.keys.adminSigning == c.signPub(who.signSecret)
  {
  }

  /** A new vault, nobody served yet. */
  method Found(c: Suite, name: text, description: text, capacity: u64, password: bytes, who: Identity, salt: Arr16,
               dek: Key, seed: bytes, ts: i64, listener: Identity) returns (r: Result<Deployment>)
    requires GeometryFor(capacity).Total() < U64
    ensures r.Ok? <==> |name| <= MAX_NAME_LEN && |description| <= MAX_DESC_LEN && capacity >= BLOCK_SIZE
    ensures r.Ok? ==>
              && r.value.Valid() && fresh(r.value.Repr()) && r.value.server.vault.c == c && r.value.server.past.tl.first == 1
              && NewContainer(c, r.value.Now().admin.file, name, description, capacity, who, ts, r.value.server.vault.header)
              && r.value.Now() == Beginning(r.value.Now().admin.file, NewModel(capacity, password), c.signPub(who.signSecret))
  {
    hide Vault.Valid, Deployment.Valid, Server.Valid, Vault.View, NewContainer, GeometryFor, Genesis, FreshStore, FreshImage,
      Represents, ModelOf;
    var v :- Create(c, name, description, capacity, password, who, salt, dek, seed, ts);
    NewOwner(c, v.file, name, description, capacity, who, ts, v.header);
    var d := new Deployment(v, password, listener);
    r := Ok(d);
  }

  /** The copy the `k`-th peer holds at moment `n` is what the vault was at that moment or an earlier one. */
  ghost predicate WasTheVault(trace: seq<Moment>, n: nat, k: nat)
    requires n < |trace| && k < |trace[n].copies|
  {
    exists i: nat :: i <= n && IsMoment(trace, i, trace[n].copies[k])
  }

  ghost predicate CopiesWereTheVault(trace: seq<Moment>) {
    forall n, k | 0 <= n < |trace| && 0 <= k < |trace[n].copies| :: WasTheVault(trace, n, k)
  }

  /** In a run from the beginning of a vault, that is so of every copy at every moment. */
  lemma AllCopiesWereTheVault(c: Suite, p: Past, trace: seq<Moment>, events: seq<Event>, answers: seq<Result<()>>)
    requires IsRun(c, trace, events, answers)
    requires forall j | 0 <= j <= |events| :: Sound(p, trace[j])
    requires trace[0].admin.model.nextSeq <= p.tl.first
    ensures CopiesWereTheVault(trace)
  {
    hide Happens, Stands, IsMoment;
    forall n, k | 0 <= n < |trace| && 0 <= k < |trace[n].copies|
      ensures WasTheVault(trace, n, k)
    {
      assert Sound(p, trace[n]) && StandsBehind(p, trace[n].copies[k], trace[n].admin.model.nextSeq);
      StandsInBounds(p, trace[n].copies[k].file, trace[n].copies[k].model);
      var i := CopyWasTheVault(c, p, trace, events, answers, n, k);
    }
  }

  lemma RunFromTheBeginning(c: Suite, first: Past, p: Past, trace: seq<Moment>, events: seq<Event>, answers: seq<Result<()>>)
    requires IsRun(c, trace, events, answers) && Continues(first, p)
    requires forall j | 0 <= j <= |events| :: Sound(p, trace[j])
    requires trace[0].admin.model.nextSeq == first.tl.first
    ensures trace[|events|].admin.model == AfterEvents(c, trace[0].admin.owner, trace[0].admin.model, events)
    ensures CopiesWereTheVault(trace)
  {
    hide Happens, Stands, CopiesWereTheVault, AfterEvents, Sound;
    AllCopiesWereTheVault(c, p, trace, events, answers);
    ModelFollows(c, trace, events, answers, |events|);
    assert events[..|events|] == events;
  }

  /** From `create` on: whatever happens, the trace begins with the container just created, every event
      does what `Happens` says, the vault is the fold of the admin's commands, and every copy any peer
      ever holds is, bytes and vault, what the admin's container was at an earlier moment or is right
      then. */
  method Story(c: Suite, name: text, description: text, capacity: u64, password: bytes, who: Identity, salt: Arr16,
               dek: Key, seed: bytes, ts: i64, listener: Identity, events: seq<Event>)
    returns (r: Result<Deployment>, answers: seq<Result<()>>, ghost trace: seq<Moment>)
    requires GeometryFor(capacity).Total() < U64 && |events| + 1 < U64
    requires forall k | 0 <= k < |events| && events[k].Changes? :: Loadable(events[k].job.cmd)
    ensures r.Ok? <==> |name| <= MAX_NAME_LEN && |description| <= MAX_DESC_LEN && capacity >= BLOCK_SIZE
    ensures r.Ok? ==>
              && r.value.Valid() && IsRun(c, trace, events, answers) && trace[|events|] == r.value.Now()
              && trace[0] == Beginning(trace[0].admin.file, NewModel(capacity, password), c.signPub(who.signSecret))
              && (exists h: Header :: NewContainer(c, trace[0].admin.file, name, description, capacity, who, ts, h))
              && r.value.Now().admin.model == AfterEvents(c, c.signPub(who.signSecret), NewModel(capacity, password), events)
              && CopiesWereTheVault(trace)
  {
    hide Deployment.Valid, Deployment.Now, Server.Valid, Server.Now, Vault.Valid, Vault.View, GeometryFor, Loadable,
      NewContainer, Happens, IsRun, Sound, Stands, AfterEvents, CopiesWereTheVault, Continues;
    answers, trace := [], [];
    var founded := Found(c, name, description, capacity, password, who, salt, dek, seed, ts, listener);
    if founded.Err? {
      return Err(founded.error), answers, trace;
    }
    var d := founded.value;
    ghost var header, start, first := d.server.vault.header, d.Now(), d.server.past;
    d.PresentSeq();
    answers, trace := d.Run(events);
    assert NewContainer(c, trace[0].admin.file, name, description, capacity, who, ts, header);
    RunFromTheBeginning(c, first, d.server.past, trace, events, answers);
    r := Ok(d);
  }

  // ----- what goes wrong

  /** A peer that could be brought up to date right now. */
  ghost predicate CanCatchUp(c: Suite, s: State, copy: Copy) {
    && s.serving.Some? && copy.model.nextSeq < U64 && Covers(s.serving.value, copy.model.nextSeq)
    && HasGrant(s.model, c.Peer(copy.who)) && HoldsGrant(copy.model, c.encPub(copy.who.encSecret))
    && Fits(Patch(copy.model.nextSeq, Since(s.serving.value, copy.model.nextSeq)))
  }

  /** An unrecorded grant leaves such a peer as able to catch up as before, but not to the present. */
  lemma GrantGoesUnrecorded(c: Suite, a: State, peer: PeerId, r: Result<()>, b: State, copy: Copy)
    requires Changed(a, Grant(peer), false, r, b) && Refusal(a.model, Grant(peer)).None? && CanCatchUp(c, a, copy)
    ensures r == Ok(()) && CatchUpAnswer(c, b, copy) == Ok(())
    ensures b.unrecorded != [] && b.model.nextSeq == a.model.nextSeq + 1
  {
    hide Covers, Since, MessageBytes, Fits, HoldsGrant, Apply;
    Outcome(a.model, Grant(peer));
  }

  lemma MovedShort(s: State, before: Copy, after: Copy)
    requires Moved(s, before, after) && s.unrecorded != [] && before.model.nextSeq != s.model.nextSeq
    ensures after.file != s.file
  {
    hide Covers, Reached, Apply, Since;
  }

  /** A grant is not recorded: whenever a peer could have caught up just before one, it is told afterwards
      that it succeeded, and yet does not hold the admin's container. */
  method GrantIsMissed(d: Deployment, k: nat, job: Job, mine: Arr32, theirs: Arr32)
    returns (granted: Result<()>, synced: Result<()>)
    requires d.Valid() && k < |d.replicas| && k < |d.copies| && d.server.vault.View().nextSeq + 1 < U64
    requires job.cmd.Grant? && Refusal(d.server.vault.View(), job.cmd).None?
    requires CanCatchUp(d.server.vault.c, d.server.Now(), d.copies[k])
    modifies d, d.server`past, d.server.vault, d.server.vault.allocator, d.server.Journals()
    ensures d.Valid() && k < |d.replicas|
    ensures granted == Ok(()) && synced == Ok(())
    ensures d.replicas[k].file != d.server.vault.file
  {
    hide Server.Valid, Server.Now, Vault.View, CopiesOk, Continues, Refusal, Changed, CanCatchUp, CatchUpAnswer, Moved, Stands;
    ghost var a, copy := d.server.Now(), d.copies[k];
    d.Behind(k);
    granted := d.Change(job);
    GrantGoesUnrecorded(d.server.vault.c, a, job.cmd.peer, granted, d.server.Now(), copy);
    ghost var b := d.server.Now();
    d.Behind(k);
    synced := d.Reconnect(k, mine, theirs);
    d.Behind(k);
    MovedShort(b, copy, d.copies[k]);
  }
}
