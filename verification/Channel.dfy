/** The key exchange and the encrypted channel on top of it (`src/net/handshake.rs`). */
module Channel {

  import opened Bytes
  import opened Results
  import opened Crypto
  import opened Codec
  import opened Protocol

  // ----- nonces

  /** The nonce of the message with this counter: its low 64 bits are `2 * counter + parity`. */
  function Nonce(counter: nat, parity: nat): (n: bytes)
    ensures |n| == 12
  {
    Le(2 * counter + parity, 8) + Zeros(4)
  }

  lemma NoncesDiffer(i: nat, p: nat, j: nat, q: nat)
    requires i < U63 && j < U63 && p <= 1 && q <= 1
    ensures Nonce(i, p) == Nonce(j, q) <==> i == j && p == q
  {
    if Nonce(i, p) == Nonce(j, q) {
      FixedWidthRoundTrips(0, 0, 2 * i + p, 0, 0);
      FixedWidthRoundTrips(0, 0, 2 * j + q, 0, 0);
      hide Le, UnLe;
      assert Nonce(i, p)[..8] == Le(2 * i + p, 8) && Nonce(j, q)[..8] == Le(2 * j + q, 8);
    }
  }

  /** The nonces of the first `n` messages one side sends. */
  function NoncesUsed(parity: nat, n: nat): (s: seq<bytes>)
    ensures |s| == n && forall j | 0 <= j < n :: s[j] == Nonce(j, parity)
  {
    seq(n, j requires 0 <= j => Nonce(j, parity))
  }

  /** No nonce is ever used twice under the shared key, by either side. */
  lemma NoNonceTwice(na: nat, nb: nat)
    requires na <= U63 && nb <= U63
    ensures var all := NoncesUsed(0, na) + NoncesUsed(1, nb);
            forall i, j | 0 <= i < j < |all| :: all[i] != all[j]
  {
    var all := NoncesUsed(0, na) + NoncesUsed(1, nb);
    forall i, j | 0 <= i < j < |all|
      ensures all[i] != all[j]
    {
      NoncesDiffer(if i < na then i else i - na, if i < na then 0 else 1,
                   if j < na then j else j - na, if j < na then 0 else 1);
    }
  }

  // ----- one end of a connection

  const TAG_LEN: nat := 16

  function Packet(c: Suite, key: Key, parity: nat, j: nat, plaintext: bytes): bytes {
    c.encPacket(key, Nonce(j, parity), plaintext)
  }

  function Unpacked(c: Suite, key: Key, parity: nat, j: nat, packet: bytes): Result<bytes> {
    match c.decPacket(key, Nonce(j, parity), packet)
    case Some(p) => Ok(p)
    case None => Err(CryptoFailure)
  }

  lemma PacketOpens(c: Suite, key: Key, nonce: bytes, plaintext: bytes)
    ensures |c.encPacket(key, nonce, plaintext)| == |plaintext| + TAG_LEN
    ensures c.decPacket(key, nonce, c.encPacket(key, nonce, plaintext)) == Some(plaintext)
  {
    assert c.PacketsLawful();
  }

  class SecureChannel {
    const c: Suite
    const outgoing: Stream
    const incoming: Stream
    const key: Key
    const sendParity: nat
    var sendCounter: nat
    var recvCounter: nat

    constructor (c: Suite, outgoing: Stream, incoming: Stream, key: Key, sendParity: nat)
      ensures this.c == c && this.outgoing == outgoing && this.incoming == incoming && this.key == key
      ensures this.sendParity == sendParity && sendCounter == 0 && recvCounter == 0
    {
      this.c, this.outgoing, this.incoming, this.key := c, outgoing, incoming, key;
      this.sendParity, sendCounter, recvCounter := sendParity, 0, 0;
    }

    method SendNonce() returns (nonce: bytes)
      requires sendCounter < U63 && sendParity <= 1
      modifies this`sendCounter
      ensures nonce == Nonce(old(sendCounter), sendParity) && sendCounter == old(sendCounter) + 1
      ensures nonce == Le(2 * old(sendCounter) + sendParity, 8) + [0, 0, 0, 0]
    {
      var n := sendCounter * 2 + sendParity;
      sendCounter := sendCounter + 1;
      nonce := Le(n, 8) + Zeros(4);
    }

    method RecvNonce() returns (nonce: bytes)
      requires recvCounter < U63 && sendParity <= 1
      modifies this`recvCounter
      ensures nonce == Nonce(old(recvCounter), 1 - sendParity) && recvCounter == old(recvCounter) + 1
      ensures nonce == Le(2 * old(recvCounter) + (1 - sendParity), 8) + [0, 0, 0, 0]
    {
      var recvParity := 1 - sendParity;
      var n := recvCounter * 2 + recvParity;
      recvCounter := recvCounter + 1;
      nonce := Le(n, 8) + Zeros(4);
    }

    /** A message too large for a frame is not sent, but uses up its counter all the same. */
    method Send(plaintext: bytes) returns (r: Result<()>)
      requires sendCounter < U63 && sendParity <= 1
      modifies this`sendCounter, outgoing
      ensures r == if |plaintext| + TAG_LEN <= MAX_FRAME_LEN then Ok(()) else Err(IoError)
      ensures sendCounter == old(sendCounter) + 1
      ensures outgoing.data == if r.Ok? then old(outgoing.data) + FrameBytes(Packet(c, key, sendParity, old(sendCounter), plaintext))
                               else old(outgoing.data)
    {
      var nonce := SendNonce();
      var ciphertext := c.encPacket(key, nonce, plaintext);
      PacketOpens(c, key, nonce, plaintext);
      r := outgoing.WriteFrame(ciphertext);
    }

    method Recv(ghost frames: seq<bytes>) returns (r: Result<bytes>)
      requires recvCounter < U63 && sendParity <= 1
      modifies this`recvCounter, incoming
      ensures match FrameAtFront(old(incoming.data))
              case Err(e) => r == Err(e) && recvCounter == old(recvCounter)
              case Ok(packet) => recvCounter == old(recvCounter) + 1
                                 && r == Unpacked(c, key, 1 - sendParity, old(recvCounter), packet)
      ensures old(incoming.data) == Frames(frames) && AllFit(frames) ==>
                if frames == [] then r == Err(IoError) && recvCounter == old(recvCounter) && incoming.data == []
                else recvCounter == old(recvCounter) + 1 && incoming.data == Frames(frames[1..])
                     && r == Unpacked(c, key, 1 - sendParity, old(recvCounter), frames[0])
    {
      hide FrameAtFront, Frames, FrameBytes;
      var ciphertext :- incoming.ReadFrame(frames);
      var nonce := RecvNonce();
      var plain := c.decPacket(key, nonce, ciphertext);
      r := if plain.Some? then Ok(plain.value) else Err(CryptoFailure);
    }
  }

  /** Everything one side has sent, as packets in order. */
  function Packets(c: Suite, key: Key, parity: nat, sent: seq<bytes>): (s: seq<bytes>)
    ensures |s| == |sent|
  {
    seq(|sent|, j requires 0 <= j < |sent| => Packet(c, key, parity, j, sent[j]))
  }

  // ----- the two ends together

  /** Everything `sender` ever sent, of which `receiver` has read a prefix; the rest is on the wire. */
  ghost predicate Way(sender: SecureChannel, receiver: SecureChannel, sent: seq<bytes>)
    reads sender`sendCounter, receiver`recvCounter, sender.outgoing
  {
    && sender.c == receiver.c && sender.key == receiver.key && sender.outgoing == receiver.incoming
    && sender.sendParity + receiver.sendParity == 1
    && receiver.recvCounter <= sender.sendCounter == |sent| < U63
    && AllFit(Packets(sender.c, sender.key, sender.sendParity, sent))
    && sender.outgoing.data == Frames(Packets(sender.c, sender.key, sender.sendParity, sent)[receiver.recvCounter..])
  }

  lemma OneMorePacket(c: Suite, key: Key, parity: nat, sent: seq<bytes>, p: bytes, d: nat)
    requires AllFit(Packets(c, key, parity, sent)) && |p| + TAG_LEN <= MAX_FRAME_LEN && d <= |sent|
    ensures AllFit(Packets(c, key, parity, sent + [p]))
    ensures Frames(Packets(c, key, parity, sent + [p])[d..])
         == Frames(Packets(c, key, parity, sent)[d..]) + FrameBytes(Packet(c, key, parity, |sent|, p))
  {
    var ps, q := Packets(c, key, parity, sent), Packet(c, key, parity, |sent|, p);
    assert Packets(c, key, parity, sent + [p]) == ps + [q];
    assert (ps + [q])[d..] == ps[d..] + [q];
    FramesAppend(ps[d..], q);
    PacketOpens(c, key, Nonce(|sent|, parity), p);
  }

  lemma NextPacket(c: Suite, key: Key, parity: nat, sent: seq<bytes>, d: nat)
    requires d <= |sent| && AllFit(Packets(c, key, parity, sent))
    ensures var rest := Packets(c, key, parity, sent)[d..];
            && AllFit(rest) && Frames([]) == [] && (d == |sent| ==> rest == [])
            && (d < |sent| ==> rest != [] && rest[1..] == Packets(c, key, parity, sent)[d + 1..]
                               && Unpacked(c, key, parity, d, rest[0]) == Ok(sent[d]))
  {
    if d < |sent| {
      PacketOpens(c, key, Nonce(d, parity), sent[d]);
    }
  }

  datatype Side = Left | Right {
    function Other(): Side {
      if this == Left then Right else Left
    }
  }

  /** One thing for each side. */
  datatype Both<T> = Both(left: T, right: T) {
    function At(s: Side): T {
      if s == Left then left else right
    }

    function Put(s: Side, x: T): Both<T> {
      if s == Left then this.(left := x) else this.(right := x)
    }
  }

  /** What both sides have said, and how much of it each has received. */
  datatype Talk = Talk(said: Both<seq<bytes>>, got: Both<nat>)

  datatype Action = Say(side: Side, plaintext: bytes) | Hear(side: Side)

  /** Receiving takes one message, exactly when the other side has said more than was received. */
  function Then(t: Talk, a: Action): Talk {
    match a
    case Say(s, p) => t.(said := t.said.Put(s, t.said.At(s) + [p]))
    case Hear(s) => if t.got.At(s) < |t.said.At(s.Other())| then t.(got := t.got.Put(s, t.got.At(s) + 1)) else t
  }

  lemma TalkAfter(t: Talk, u: Talk, a: Action)
    requires u.said == if a.Say? then t.said.Put(a.side, t.said.At(a.side) + [a.plaintext]) else t.said
    requires u.got.At(a.side.Other()) == t.got.At(a.side.Other())
    requires u.got.At(a.side) == t.got.At(a.side) + (if a.Hear? && t.got.At(a.side) < |t.said.At(a.side.Other())| then 1 else 0)
    ensures u == Then(t, a)
  {
  }

  /** A connection: two ends, and for each the plaintexts it has sent so far. */
  class Link {
    const left: SecureChannel
    const right: SecureChannel
    ghost var sent: Both<seq<bytes>>

    constructor (left: SecureChannel, right: SecureChannel)
      requires Way(left, right, []) && Way(right, left, []) && left.outgoing != right.outgoing && left != right
      ensures this.left == left && this.right == right
      ensures Valid() && sent == Both([], [])
    {
      this.left, this.right := left, right;
      sent := Both([], []);
    }

    function End(s: Side): SecureChannel {
      if s == Left then left else right
    }

    ghost predicate Valid()
      reads this, left, right, left.outgoing, right.outgoing
    {
      && left != right && left.outgoing != right.outgoing
      && Way(left, right, sent.left) && Way(right, left, sent.right)
    }

    ghost function Talked(): Talk
      reads this, left, right
    {
      Talk(sent, Both(left.recvCounter, right.recvCounter))
    }

    /** How many messages this side has received. */
    function Received(s: Side): nat
      reads left, right
    {
      End(s).recvCounter
    }

    method Send(s: Side, plaintext: bytes) returns (r: Result<()>)
      requires Valid() && |sent.At(s)| + 1 < U63
      modifies this, left, right, left.outgoing, right.outgoing
      ensures r == if |plaintext| + TAG_LEN <= MAX_FRAME_LEN then Ok(()) else Err(IoError)
      ensures r.Ok? ==> Valid() && sent == old(sent).Put(s, old(sent).At(s) + [plaintext])
      ensures r.Ok? ==> Talked() == Then(old(Talked()), Say(s, plaintext))
      ensures forall e :: Received(e) == old(Received(e))
    {
      hide Frames, FrameBytes, Packets, AllFit, Packet, Then;
      var sender := End(s);
      r := sender.Send(plaintext);
      if r.Ok? {
        OneMorePacket(sender.c, sender.key, sender.sendParity, sent.At(s), plaintext, End(s.Other()).recvCounter);
        sent := sent.Put(s, sent.At(s) + [plaintext]);
        TalkAfter(old(Talked()), Talked(), Say(s, plaintext));
      }
    }

    /** The next plaintext the other side sent; when there is none, nothing happens. */
    method Recv(s: Side) returns (r: Result<bytes>)
      requires Valid()
      modifies left, right, left.outgoing, right.outgoing
      ensures Valid() && Received(s.Other()) == old(Received(s.Other()))
      ensures r == if old(Received(s)) < |sent.At(s.Other())| then Ok(sent.At(s.Other())[old(Received(s))]) else Err(IoError)
      ensures Received(s) == old(Received(s)) + (if r.Ok? then 1 else 0) && Talked() == Then(old(Talked()), Hear(s))
    {
      hide Frames, FrameBytes, Packets, AllFit, Packet, Unpacked, Then;
      var sender, receiver := End(s.Other()), End(s);
      ghost var ps := Packets(sender.c, sender.key, sender.sendParity, sent.At(s.Other()));
      ghost var d := receiver.recvCounter;
      NextPacket(sender.c, sender.key, sender.sendParity, sent.At(s.Other()), d);
      r := receiver.Recv(ps[d..]);
      TalkAfter(old(Talked()), Talked(), Hear(s));
    }
  }

  // ----- runs

  function ThenAll(t: Talk, actions: seq<Action>): Talk {
    if actions == [] then t else Then(ThenAll(t, actions[..|actions| - 1]), actions[|actions| - 1])
  }

  lemma {:induction false} SaidLength(t: Talk, actions: seq<Action>, s: Side)
    ensures |ThenAll(t, actions).said.At(s)| <= |t.said.At(s)| + |actions|
  {
    if actions != [] {
      SaidLength(t, actions[..|actions| - 1], s);
    }
  }

  lemma TalkBegins(t: Talk)
    ensures ThenAll(t, []) == t
  {
  }

  lemma OneMoreAction(t: Talk, actions: seq<Action>, n: nat)
    requires n < |actions|
    ensures ThenAll(t, actions[..n + 1]) == Then(ThenAll(t, actions[..n]), actions[n])
  {
    assert actions[..n + 1][..n] == actions[..n];
  }

  /** What side `s` heard since it had received `start` messages: exactly what the other side said. */
  ghost predicate HeardSince(t: Talk, s: Side, start: nat, heard: seq<bytes>)
  {
    start <= t.got.At(s) <= |t.said.At(s.Other())| && heard == t.said.At(s.Other())[start..t.got.At(s)]
  }

  lemma HeardOn(t: Talk, s: Side, start: nat, heard: seq<bytes>, a: Action)
    requires HeardSince(t, s, start, heard)
    ensures HeardSince(Then(t, a), s, start,
                       if a == Hear(s) && t.got.At(s) < |t.said.At(s.Other())| then heard + [t.said.At(s.Other())[t.got.At(s)]] else heard)
  {
  }

  /** One step of a run. */
  method Act(link: Link, a: Action, heard: Both<seq<bytes>>, ghost start: Both<nat>) returns (heard': Both<seq<bytes>>)
    requires link.Valid() && |link.sent.left| + 1 < U63 && |link.sent.right| + 1 < U63
    requires a.Say? ==> |a.plaintext| + TAG_LEN <= MAX_FRAME_LEN
    requires HeardSince(link.Talked(), Left, start.left, heard.left) && HeardSince(link.Talked(), Right, start.right, heard.right)
    modifies link, link.left, link.right, link.left.outgoing, link.right.outgoing
    ensures link.Valid() && link.Talked() == Then(old(link.Talked()), a)
    ensures HeardSince(link.Talked(), Left, start.left, heard'.left) && HeardSince(link.Talked(), Right, start.right, heard'.right)
  {
    hide Link.Valid, HeardSince, Then;
    heard' := heard;
    HeardOn(link.Talked(), Left, start.left, heard.left, a);
    HeardOn(link.Talked(), Right, start.right, heard.right, a);
    match a {
      case Say(s, p) =>
        var r := link.Send(s, p);
      case Hear(s) =>
        var r := link.Recv(s);
        if r.Ok? {
          heard' := heard.Put(s, heard.At(s) + [r.value]);
        }
    }
  }

  lemma NothingHeard(link: Link)
    requires link.Valid()
    ensures var t := link.Talked(); HeardSince(t, Left, t.got.left, []) && HeardSince(t, Right, t.got.right, [])
  {
    var t := link.Talked();
    assert link.sent.right[link.left.recvCounter..link.left.recvCounter] == [];
    assert link.sent.left[link.right.recvCounter..link.right.recvCounter] == [];
    assert t.got.At(Left) == t.got.left && t.got.At(Right) == t.got.right;
  }

  /** Over every interleaving of sends and receives, each receive yields the next plaintext the other
      side said, if there is one: what was said and how much was received is as `Then` says, action by
      action, and what each side heard is exactly that stretch of what the other said. */
  method Converse(link: Link, actions: seq<Action>) returns (heard: Both<seq<bytes>>)
    requires link.Valid() && |link.sent.left| + |actions| + 1 < U63 && |link.sent.right| + |actions| + 1 < U63
    requires forall k | 0 <= k < |actions| && actions[k].Say? :: |actions[k].plaintext| + TAG_LEN <= MAX_FRAME_LEN
    modifies link, link.left, link.right, link.left.outgoing, link.right.outgoing
    ensures link.Valid() && link.Talked() == ThenAll(old(link.Talked()), actions)
    ensures forall s :: HeardSince(link.Talked(), s, old(link.Talked()).got.At(s), heard.At(s))
  {
    hide Then, ThenAll, Way, HeardSince;
    heard := Both([], []);
    ghost var t := link.Talked();
    NothingHeard(link);
    assert actions[..0] == [] && ThenAll(t, []) == t by { TalkBegins(t); }
    for n := 0 to |actions|
      invariant link.Valid() && link.Talked() == ThenAll(t, actions[..n])
      invariant HeardSince(link.Talked(), Left, t.got.left, heard.left) && HeardSince(link.Talked(), Right, t.got.right, heard.right)
    {
      OneMoreAction(t, actions, n);
      SaidLength(t, actions[..n], Left);
      SaidLength(t, actions[..n], Right);
      heard := Act(link, actions[n], heard, t.got);
    }
    assert actions[..|actions|] == actions;
  }

  // ----- the key exchange

  const HELLO_LEN: nat := 64 + 32 + 64
  const SESSION_LABEL: bytes := [114, 101, 118, 97, 117, 108, 116, 45, 115, 101, 115, 115, 105, 111, 110, 45, 118, 49]

  datatype Hello = Hello(peer: PeerId, ephemeral: Arr32, signature: Arr64)

  function HelloBytes(h: Hello): (s: bytes)
    ensures |s| == HELLO_LEN
  {
    h.peer.signing + h.peer.encryption + h.ephemeral + h.signature
  }

  function ParseHello(s: bytes): Result<Hello> {
    if |s| != HELLO_LEN then Err(CorruptContainer)
    else Ok(Hello(PeerId(Slice(s, 0, 32), Slice(s, 32, 32)), Slice(s, 64, 32), Slice(s, 96, 64)))
  }

  /** Hellos and 160-byte strings correspond one to one. */
  lemma HelloRoundTrip(h: Hello, s: bytes)
    ensures ParseHello(HelloBytes(h)) == Ok(h)
    ensures ParseHello(s).Ok? <==> |s| == HELLO_LEN
    ensures ParseHello(s).Ok? ==> HelloBytes(ParseHello(s).value) == s
    ensures var b := HelloBytes(h);
            && Slice(b, 0, 32) == h.peer.signing && Slice(b, 32, 32) == h.peer.encryption
            && Slice(b, 64, 32) == h.ephemeral && Slice(b, 96, 64) == h.signature
  {
    var b := HelloBytes(h);
    assert Slice(b, 0, 32) == h.peer.signing && Slice(b, 32, 32) == h.peer.encryption;
    assert Slice(b, 64, 32) == h.ephemeral;
    assert Slice(b, 96, 64) == h.signature by {
      forall k | 0 <= k < 64
        ensures Slice(b, 96, 64)[k] == h.signature[k]
      {
        assert b[96 + k] == h.signature[k];
      }
    }
    if |s| == HELLO_LEN {
      assert s == s[..32] + s[32..64] + s[64..96] + s[96..];
    }
  }

  function BuildHello(c: Suite, me: Identity, ephemeral: Arr32): Hello {
    Hello(c.Peer(me), c.encPub(ephemeral), c.sign(me.signSecret, c.encPub(ephemeral)))
  }

  function SessionKey(c: Suite, secret: Arr32, theirs: Arr32): Key {
    c.hash(c.dh(secret, theirs) + SESSION_LABEL)
  }

  /** Both sides derive the same key from their own secret and the other's public value: the hash of the
      shared secret and the label. */
  lemma SameSessionKey(c: Suite, a: Arr32, b: Arr32)
    ensures SessionKey(c, a, c.encPub(b)) == SessionKey(c, b, c.encPub(a)) == c.hash(c.dh(a, c.encPub(b)) + SESSION_LABEL)
  {
    assert c.AgreementLawful();
  }

  /** Connections with different shared secrets have different keys, unless the hash collides on them. */
  lemma KeyBindsSecret(c: Suite, a: Arr32, theirs: Arr32, a': Arr32, theirs': Arr32)
    requires c.dh(a, theirs) != c.dh(a', theirs') && SessionKey(c, a, theirs) == SessionKey(c, a', theirs')
    ensures var x, y := c.dh(a, theirs) + SESSION_LABEL, c.dh(a', theirs') + SESSION_LABEL;
            x != y && c.hash(x) == c.hash(y)
  {
    var x, y := c.dh(a, theirs) + SESSION_LABEL, c.dh(a', theirs') + SESSION_LABEL;
    assert x[..32] == c.dh(a, theirs) && y[..32] == c.dh(a', theirs');
  }

  /** The hello a stream begins with, if it is one and its signature is good. */
  function HelloAtFront(c: Suite, s: bytes): Result<Hello> {
    var buf :- FrameAtFront(s);
    var h :- ParseHello(buf);
    if c.verify(h.peer.signing, h.ephemeral, h.signature) then Ok(h) else Err(IntegrityViolation)
  }

  /** Reads the other side's hello and checks its signature. */
  method ReadHello(c: Suite, stream: Stream) returns (r: Result<Hello>)
    modifies stream
    ensures r == HelloAtFront(c, old(stream.data))
    ensures r.Ok? ==> old(stream.data) == FrameBytes(HelloBytes(r.value)) + stream.data
  {
    hide FrameAtFront, FrameBytes, Frames, HelloBytes;
    var buf :- stream.ReadFrame([]);
    if |buf| != HELLO_LEN {
      return Err(CorruptContainer);
    }
    var h := Hello(PeerId(Slice(buf, 0, 32), Slice(buf, 32, 32)), Slice(buf, 64, 32), Slice(buf, 96, 64));
    if !c.verify(h.peer.signing, h.ephemeral, h.signature) {
      return Err(IntegrityViolation);
    }
    HelloRoundTrip(h, buf);
    r := Ok(h);
  }

  lemma OwnHelloVerifies(c: Suite, me: Identity, ephemeral: Arr32)
    ensures var h := BuildHello(c, me, ephemeral); c.verify(h.peer.signing, h.ephemeral, h.signature)
  {
    assert c.SignLawful();
  }

  lemma FrameAlone(f: bytes)
    requires |f| <= MAX_FRAME_LEN
    ensures FrameAtFront(FrameBytes(f)) == Ok(f)
  {
    FirstFrame([f]);
    assert Frames([f]) == FrameBytes(f) + Frames([]);
    assert Frames([f]) == FrameBytes(f);
  }

  /** A hello just written, alone on its stream, is read as it was built. */
  lemma OwnHelloAtFront(c: Suite, me: Identity, ephemeral: Arr32)
    ensures var h := BuildHello(c, me, ephemeral);
            HelloAtFront(c, FrameBytes(HelloBytes(h))) == Ok(h)
  {
    var h := BuildHello(c, me, ephemeral);
    OwnHelloVerifies(c, me, ephemeral);
    HelloRoundTrip(h, []);
    FrameAlone(HelloBytes(h));
    hide FrameAtFront, FrameBytes, HelloBytes, ParseHello;
  }

  lemma NothingSent(a: SecureChannel, b: SecureChannel)
    requires a.c == b.c && a.key == b.key && a.outgoing == b.incoming && a.sendParity + b.sendParity == 1
    requires a.sendCounter == 0 && b.recvCounter == 0 && a.outgoing.data == []
    ensures Way(a, b, [])
  {
  }

  /** The initiator's first step. */
  method Greet(c: Suite, outgoing: Stream, me: Identity, ephemeral: Arr32)
    modifies outgoing
    ensures outgoing.data == old(outgoing.data) + FrameBytes(HelloBytes(BuildHello(c, me, ephemeral)))
  {
    hide FrameBytes, HelloBytes;
    var _ := outgoing.WriteFrame(HelloBytes(BuildHello(c, me, ephemeral)));
  }

  /** A channel nothing has been sent over. */
  ghost predicate Fresh(ch: SecureChannel, c: Suite, outgoing: Stream, incoming: Stream, key: Key, parity: nat)
    reads ch
  {
    && ch.c == c && ch.outgoing == outgoing && ch.incoming == incoming && ch.key == key && ch.sendParity == parity
    && ch.sendCounter == 0 && ch.recvCounter == 0
  }

  /** The responder, whoever calls: it answers every well-formed hello with a good signature, and no
      other, and takes the caller to be the peer that signed it. */
  method Respond(c: Suite, incoming: Stream, outgoing: Stream, me: Identity, ephemeral: Arr32)
    returns (r: Result<(SecureChannel, PeerId)>)
    requires incoming != outgoing
    modifies incoming, outgoing
    ensures match HelloAtFront(c, old(incoming.data))
            case Err(e) => r == Err(e) && outgoing.data == old(outgoing.data)
            case Ok(h) =>
              && r.Ok? && r.value.1 == h.peer && fresh(r.value.0)
              && Fresh(r.value.0, c, outgoing, incoming, SessionKey(c, ephemeral, h.ephemeral), 1)
              && outgoing.data == old(outgoing.data) + FrameBytes(HelloBytes(BuildHello(c, me, ephemeral)))
              && old(incoming.data) == FrameBytes(HelloBytes(h)) + incoming.data
  {
    hide FrameBytes, HelloBytes, HelloAtFront, SessionKey;
    var heard :- ReadHello(c, incoming);
    var _ := outgoing.WriteFrame(HelloBytes(BuildHello(c, me, ephemeral)));
    var channel := new SecureChannel(c, outgoing, incoming, SessionKey(c, ephemeral, heard.ephemeral), 1);
    r := Ok((channel, heard.peer));
  }

  /** The initiator's second step, whoever answers: it goes on only with the peer it expects. */
  method Settle(c: Suite, incoming: Stream, outgoing: Stream, ephemeral: Arr32, expected: PeerId)
    returns (r: Result<SecureChannel>)
    modifies incoming
    ensures match HelloAtFront(c, old(incoming.data))
            case Err(e) => r == Err(e)
            case Ok(h) =>
              && old(incoming.data) == FrameBytes(HelloBytes(h)) + incoming.data
              && if h.peer != expected then r == Err(AccessNotGranted)
                 else r.Ok? && fresh(r.value)
                      && Fresh(r.value, c, outgoing, incoming, SessionKey(c, ephemeral, h.ephemeral), 0)
  {
    hide FrameBytes, HelloBytes, HelloAtFront, SessionKey;
    var reached :- ReadHello(c, incoming);
    if reached.peer != expected {
      return Err(AccessNotGranted);
    }
    var channel := new SecureChannel(c, outgoing, incoming, SessionKey(c, ephemeral, reached.ephemeral), 0);
    r := Ok(channel);
  }

  lemma NothingLeft(f: bytes, rest: bytes)
    requires f == f + rest
    ensures rest == []
  {
    assert |f| == |f| + |rest|;
  }

  /** The whole key exchange between an initiator that expects `expected` and a responder: the
      responder always learns who called; the initiator goes on exactly when it reached the peer it
      expected, and then both ends share a key, with opposite parities and fresh counters. */
  method Connect(c: Suite, me: Identity, myEphemeral: Arr32, expected: PeerId, them: Identity, theirEphemeral: Arr32)
    returns (caller: PeerId, r: Result<Link>)
    ensures caller == c.Peer(me)
    ensures r.Ok? <==> expected == c.Peer(them)
    ensures r.Err? ==> r.error == AccessNotGranted
    ensures r.Ok? ==>
              && fresh(r.value) && fresh(r.value.left) && fresh(r.value.right)
              && fresh(r.value.left.outgoing) && fresh(r.value.right.outgoing)
              && r.value.Valid() && r.value.left.c == c && r.value.sent == Both([], [])
              && r.value.Received(Left) == r.value.Received(Right) == 0
              && r.value.left.key == r.value.right.key == c.hash(c.dh(myEphemeral, c.encPub(theirEphemeral)) + SESSION_LABEL)
  {
    hide Frames, FrameBytes, HelloBytes, ParseHello, SessionKey, HelloAtFront;
    var there := new Stream();
    var back := new Stream();
    ghost var mine, theirs := BuildHello(c, me, myEphemeral), BuildHello(c, them, theirEphemeral);
    OwnHelloAtFront(c, me, myEphemeral);
    OwnHelloAtFront(c, them, theirEphemeral);
    SameSessionKey(c, myEphemeral, theirEphemeral);
    Greet(c, there, me, myEphemeral);
    assert there.data == FrameBytes(HelloBytes(mine));
    var answered := Respond(c, there, back, them, theirEphemeral);
    assert back.data == FrameBytes(HelloBytes(theirs));
    NothingLeft(FrameBytes(HelloBytes(mine)), there.data);
    caller := answered.value.1;
    var settled := Settle(c, back, there, myEphemeral, expected);
    NothingLeft(FrameBytes(HelloBytes(theirs)), back.data);
    if settled.Err? {
      return caller, Err(settled.error);
    }
    NothingSent(settled.value, answered.value.0);
    NothingSent(answered.value.0, settled.value);
    var link := new Link(settled.value, answered.value.0);
    r := Ok(link);
  }
}
