/** Wire framing and the sync messages peers exchange (`src/net/protocol.rs`). */
module Protocol {

  import opened Bytes
  import opened Results
  import opened Crypto
  import opened WriteLog
  import opened Codec

  const MAX_FRAME_LEN: nat := 64 * 1024 * 1024

  datatype SyncMessage =
    | ChainState(nextSeq: u64, lastHash: Arr32)
    | Patch(seqNo: u64, ranges: seq<Range>)
    | FullSync(data: bytes)
    | UpToDate
    | Failure(message: text)

  // ----- what a message looks like on the wire

  function RangeBytes(r: Range): (s: bytes)
    ensures |s| == 12 + |r.1|
  {
    Le(r.0, 8) + Le(|r.1|, 4) + r.1
  }

  function RangesBytes(rs: seq<Range>): bytes {
    if rs == [] then [] else RangeBytes(rs[0]) + RangesBytes(rs[1..])
  }

  /** Lengths are written as 32-bit integers, whatever they are. */
  function MessageBytes(m: SyncMessage): bytes {
    match m
    case ChainState(nextSeq, lastHash) => [1] + Le(nextSeq, 8) + lastHash
    case Patch(seqNo, ranges) => [2] + Le(seqNo, 8) + Le(|ranges|, 4) + RangesBytes(ranges)
    case FullSync(data) => [3] + Le(|data|, 8) + data
    case UpToDate => [4]
    case Failure(message) => [5] + Le(|message|, 4) + message
  }

  function ParseRanges(s: bytes, n: nat): Result<seq<Range>> {
    if n == 0 then Ok([])
    else if |s| < 12 then Err(CorruptContainer)
    else
      var len := U32Of(Slice(s, 8, 4));
      if |s| < 12 + len then Err(CorruptContainer)
      else
        var rest :- ParseRanges(s[12 + len..], n - 1);
        Ok([(U64Of(Slice(s, 0, 8)), Slice(s, 12, len))] + rest)
  }

  function ParseMessage(c: Suite, s: bytes): Result<SyncMessage> {
    if s == [] then Err(CorruptContainer)
    else if s[0] == 1 then
      if |s| < 41 then Err(CorruptContainer) else Ok(ChainState(U64Of(Slice(s, 1, 8)), Slice(s, 9, 32)))
    else if s[0] == 2 then
      if |s| < 13 then Err(CorruptContainer)
      else
        var ranges :- ParseRanges(s[13..], U32Of(Slice(s, 9, 4)));
        Ok(Patch(U64Of(Slice(s, 1, 8)), ranges))
    else if s[0] == 3 then
      if |s| < 9 || |s| < 9 + U64Of(Slice(s, 1, 8)) then Err(CorruptContainer)
      else Ok(FullSync(Slice(s, 9, U64Of(Slice(s, 1, 8)))))
    else if s[0] == 4 then Ok(UpToDate)
    else if s[0] == 5 then
      if |s| < 5 || |s| < 5 + U32Of(Slice(s, 1, 4)) then Err(CorruptContainer)
      else Ok(Failure(c.lossy(Slice(s, 5, U32Of(Slice(s, 1, 4))))))
    else Err(CorruptContainer)
  }

  // ----- round trips

  predicate ShortRanges(rs: seq<Range>) {
    forall k | 0 <= k < |rs| :: |rs[k].1| < U32
  }

  /** Every length fits the field it is written in. */
  predicate Encodable(m: SyncMessage) {
    match m
    case ChainState(_, _) => true
    case Patch(_, ranges) => |ranges| < U32 && ShortRanges(ranges)
    case FullSync(data) => |data| < U64
    case UpToDate => true
    case Failure(message) => |message| < U32
  }

  lemma RangeFields(r: Range, rest: bytes)
    requires |r.1| < U32
    ensures var s := RangeBytes(r) + rest;
            && U64Of(Slice(s, 0, 8)) == r.0 && U32Of(Slice(s, 8, 4)) == |r.1| && Slice(s, 12, |r.1|) == r.1
            && s[12 + |r.1|..] == rest
  {
    var s := RangeBytes(r) + rest;
    FixedWidthRoundTrips(0, |r.1|, r.0, 0, 0);
    hide Le;
    assert Slice(s, 0, 8) == Le(r.0, 8);
    assert Slice(s, 8, 4) == Le(|r.1|, 4);
  }

  lemma ThreeParts(a: bytes, b: bytes, d: bytes)
    ensures var s := a + b + d;
            && |s| == |a| + |b| + |d| && Slice(s, |a|, |b|) == b && Slice(s, |a| + |b|, |d|) == d && s[|a| + |b|..] == d
  {
  }

  lemma TaggedPrefix(s: bytes, tag: byte, a: bytes, b: bytes)
    requires 1 + |a| + |b| <= |s| && s[0] == tag && s[1..1 + |a|] == a && s[1 + |a|..1 + |a| + |b|] == b
    ensures [tag] + a + b == s[..1 + |a| + |b|] && [tag] + a + b <= s
  {
    assert s[..1 + |a| + |b|] == s[..1] + s[1..1 + |a|] + s[1 + |a|..1 + |a| + |b|];
  }

  lemma FirstRange(rs: seq<Range>, rest: bytes)
    requires rs != []
    ensures RangesBytes(rs) + rest == RangeBytes(rs[0]) + (RangesBytes(rs[1..]) + rest) && rs == [rs[0]] + rs[1..]
  {
    hide RangeBytes;
    ConcatIsAssociative(RangeBytes(rs[0]), RangesBytes(rs[1..]), rest);
    HeadAndTail(rs);
  }

  lemma RangeIsParsed(r: Range, rest: bytes, more: seq<Range>)
    requires |r.1| < U32 && ParseRanges(rest, |more|) == Ok(more)
    ensures ParseRanges(RangeBytes(r) + rest, |more| + 1) == Ok([r] + more)
  {
    RangeFields(r, rest);
    hide RangeBytes, U64Of, U32Of, Slice;
  }

  lemma {:induction false} RangesRoundTrip(rs: seq<Range>, rest: bytes)
    requires ShortRanges(rs)
    ensures ParseRanges(RangesBytes(rs) + rest, |rs|) == Ok(rs)
  {
    hide RangeBytes;
    if rs != [] {
      assert ParseRanges(RangesBytes(rs[1..]) + rest, |rs[1..]|) == Ok(rs[1..]) by {
        RangesRoundTrip(rs[1..], rest);
      }
      hide ParseRanges, RangesBytes;
      RangeIsParsed(rs[0], RangesBytes(rs[1..]) + rest, rs[1..]);
      FirstRange(rs, rest);
    }
  }

  lemma PatchFields(seqNo: u64, count: nat, rest: bytes)
    requires count < U32
    ensures var s := [2] + Le(seqNo, 8) + Le(count, 4) + rest;
            && U64Of(Slice(s, 1, 8)) == seqNo && U32Of(Slice(s, 9, 4)) == count && s[13..] == rest
  {
    var s := [2] + Le(seqNo, 8) + Le(count, 4) + rest;
    FixedWidthRoundTrips(0, count, seqNo, 0, 0);
    assert Slice(s, 1, 8) == Le(seqNo, 8);
    assert Slice(s, 9, 4) == Le(count, 4);
  }

  lemma ChainStateFields(nextSeq: u64, lastHash: Arr32)
    ensures var s := [1] + Le(nextSeq, 8) + lastHash; U64Of(Slice(s, 1, 8)) == nextSeq && Slice(s, 9, 32) == lastHash
  {
    FixedWidthRoundTrips(0, 0, nextSeq, 0, 0);
    ThreeParts([1], Le(nextSeq, 8), lastHash);
    hide Le, Slice;
  }

  lemma FullSyncFields(data: bytes)
    requires |data| < U64
    ensures var s := [3] + Le(|data|, 8) + data; U64Of(Slice(s, 1, 8)) == |data| && Slice(s, 9, |data|) == data
  {
    FixedWidthRoundTrips(0, 0, |data|, 0, 0);
    ThreeParts([3], Le(|data|, 8), data);
    hide Le, Slice;
  }

  lemma FailureFields(message: bytes)
    requires |message| < U32
    ensures var s := [5] + Le(|message|, 4) + message; U32Of(Slice(s, 1, 4)) == |message| && Slice(s, 5, |message|) == message
  {
    FixedWidthRoundTrips(0, |message|, 0, 0, 0);
    ThreeParts([5], Le(|message|, 4), message);
    hide Le, Slice;
  }

  lemma ParseMessageOfBytes(c: Suite, m: SyncMessage)
    requires Encodable(m)
    ensures ParseMessage(c, MessageBytes(m)) == Ok(m)
  {
    hide Le, UnLe, U64Of, U32Of, Slice, ParseRanges, RangesBytes, ValidUtf8;
    match m {
      case ChainState(nextSeq, lastHash) =>
        ChainStateFields(nextSeq, lastHash);
      case Patch(seqNo, ranges) =>
        PatchFields(seqNo, |ranges|, RangesBytes(ranges));
        RangesRoundTrip(ranges, []);
        assert RangesBytes(ranges) + [] == RangesBytes(ranges);
      case FullSync(data) =>
        FullSyncFields(data);
      case UpToDate =>
      case Failure(message) =>
        FailureFields(message);
    }
  }

  lemma NumbersReencode(s: bytes, i: nat, j: nat)
    requires i + 8 <= |s| && j + 4 <= |s|
    ensures Le(U64Of(Slice(s, i, 8)), 8) == s[i..i + 8] && Le(U32Of(Slice(s, j, 4)), 4) == s[j..j + 4]
  {
    LeOfUnLe(Slice(s, i, 8));
    LeOfUnLe(Slice(s, j, 4));
  }

  lemma RangeReencodes(s: bytes, len: nat)
    requires |s| >= 12 + len && len == U32Of(Slice(s, 8, 4))
    ensures RangeBytes((U64Of(Slice(s, 0, 8)), Slice(s, 12, len))) == s[..12 + len]
  {
    NumbersReencode(s, 0, 8);
    hide U64Of, U32Of, Le;
    assert s[..12 + len] == s[0..8] + s[8..12] + s[12..12 + len];
  }

  lemma PrefixAfter(head: bytes, tail: bytes, s: bytes)
    requires |head| <= |s| && s[..|head|] == head && tail <= s[|head|..]
    ensures head + tail <= s
  {
    assert s == s[..|head|] + s[|head|..];
  }

  /** The bytes parsed as `n` ranges are, up to where the last one ends, the bytes of those ranges. */
  lemma {:induction false} ParsedRangesArePrefix(s: bytes, n: nat)
    requires ParseRanges(s, n).Ok?
    ensures var rs := ParseRanges(s, n).value; |rs| == n && ShortRanges(rs) && RangesBytes(rs) <= s
  {
    if n > 0 {
      var len := U32Of(Slice(s, 8, 4));
      ParsedRangesArePrefix(s[12 + len..], n - 1);
      var rest := ParseRanges(s[12 + len..], n - 1).value;
      var r: Range := (U64Of(Slice(s, 0, 8)), Slice(s, 12, len));
      RangeReencodes(s, len);
      assert ([r] + rest)[1..] == rest;
      hide ParseRanges, RangeBytes;
      PrefixAfter(RangeBytes(r), RangesBytes(rest), s);
    }
  }

  lemma TextField(s: bytes, n: nat)
    requires |s| >= 5 && s[0] == 5 && n == U32Of(Slice(s, 1, 4)) && |s| >= 5 + n
    ensures [5] + Le(n, 4) + Slice(s, 5, n) <= s
  {
    LeOfUnLe(Slice(s, 1, 4));
    hide Le, UnLe;
    TaggedPrefix(s, 5, s[1..5], Slice(s, 5, n));
  }

  lemma TextReencodes(c: Suite, s: bytes)
    requires |s| >= 5 && s[0] == 5 && |s| >= 5 + U32Of(Slice(s, 1, 4))
    requires ValidUtf8(Slice(s, 5, U32Of(Slice(s, 1, 4))))
    ensures var m: text := c.lossy(Slice(s, 5, U32Of(Slice(s, 1, 4))));
            |m| < U32 && [5] + Le(|m|, 4) + m <= s
  {
    var n := U32Of(Slice(s, 1, 4));
    TextField(s, n);
    hide Le, UnLe, U32Of, Slice, ValidUtf8;
    var m: text := Slice(s, 5, n);
    assert c.lossy(m) == m;
  }

  lemma ChainStateReencodes(s: bytes)
    requires |s| >= 41 && s[0] == 1
    ensures [1] + Le(U64Of(Slice(s, 1, 8)), 8) + Slice(s, 9, 32) <= s
  {
    NumbersReencode(s, 1, 1);
    hide Le, U64Of;
    TaggedPrefix(s, 1, s[1..9], Slice(s, 9, 32));
  }

  lemma PatchReencodes(s: bytes)
    requires |s| >= 13 && s[0] == 2
    requires ParseRanges(s[13..], U32Of(Slice(s, 9, 4))).Ok?
    ensures var rs := ParseRanges(s[13..], U32Of(Slice(s, 9, 4))).value;
            |rs| < U32 && ShortRanges(rs) && [2] + Le(U64Of(Slice(s, 1, 8)), 8) + Le(|rs|, 4) + RangesBytes(rs) <= s
  {
    NumbersReencode(s, 1, 9);
    TaggedPrefix(s, 2, s[1..9], s[9..13]);
    ParsedRangesArePrefix(s[13..], U32Of(Slice(s, 9, 4)));
    hide ParseRanges, RangesBytes, Le, ShortRanges;
    PrefixAfter(s[..13], RangesBytes(ParseRanges(s[13..], U32Of(Slice(s, 9, 4))).value), s);
  }

  lemma FullSyncReencodes(s: bytes, n: nat)
    requires |s| >= 9 && s[0] == 3 && n == U64Of(Slice(s, 1, 8)) && |s| >= 9 + n
    ensures [3] + Le(n, 8) + Slice(s, 9, n) <= s
  {
    NumbersReencode(s, 1, 1);
    hide Le, U64Of;
    TaggedPrefix(s, 3, s[1..9], Slice(s, 9, n));
  }

  /** Whatever `decode` accepts under tags 1 to 4 starts with the encoding of what it returned; under
      tag 5 so it does when the text was valid UTF-8. */
  lemma AcceptedIsPrefix(c: Suite, s: bytes)
    requires ParseMessage(c, s).Ok?
    requires s[0] == 5 ==> ValidUtf8(Slice(s, 5, U32Of(Slice(s, 1, 4))))
    ensures Encodable(ParseMessage(c, s).value) && MessageBytes(ParseMessage(c, s).value) <= s
  {
    hide ParseRanges, RangesBytes, Le, UnLe, ShortRanges, Slice, U64Of, U32Of, ValidUtf8;
    if s[0] == 1 {
      ChainStateReencodes(s);
    } else if s[0] == 2 {
      PatchReencodes(s);
    } else if s[0] == 3 {
      FullSyncReencodes(s, U64Of(Slice(s, 1, 8)));
    } else if s[0] == 5 {
      TextReencodes(c, s);
    }
  }

  /** Where the parts of each message are. */
  lemma MessageLayout(m: SyncMessage)
    requires Encodable(m)
    ensures var s := MessageBytes(m);
            match m
            case ChainState(next, hash) => |s| == 41 && s[0] == 1 && U64Of(Slice(s, 1, 8)) == next && Slice(s, 9, 32) == hash
            case Patch(n, ranges) =>
              |s| >= 13 && s[0] == 2 && U64Of(Slice(s, 1, 8)) == n && U32Of(Slice(s, 9, 4)) == |ranges|
              && ParseRanges(s[13..], |ranges|) == Ok(ranges)
            case FullSync(data) => |s| == 9 + |data| && s[0] == 3 && U64Of(Slice(s, 1, 8)) == |data| && s[9..] == data
            case UpToDate => s == [4]
            case Failure(message) =>
              |s| == 5 + |message| && s[0] == 5 && U32Of(Slice(s, 1, 4)) == |message| && s[5..] == message
  {
    hide Le, U64Of, U32Of, ParseRanges, RangesBytes, ValidUtf8;
    match m {
      case ChainState(next, hash) => ChainStateFields(next, hash);
      case Patch(n, ranges) =>
        PatchFields(n, |ranges|, RangesBytes(ranges));
        RangesRoundTrip(ranges, []);
        assert RangesBytes(ranges) + [] == RangesBytes(ranges);
      case FullSync(data) => FullSyncFields(data);
      case UpToDate =>
      case Failure(message) => FailureFields(message);
    }
  }

  /** Decoding inverts encoding for every message whose lengths fit their fields; and, error texts
      aside, only for those. */
  lemma MessageRoundTrip(c: Suite, m: SyncMessage)
    ensures Encodable(m) ==> ParseMessage(c, MessageBytes(m)) == Ok(m)
    ensures !m.Failure? && ParseMessage(c, MessageBytes(m)) == Ok(m) ==> Encodable(m)
  {
    if Encodable(m) {
      ParseMessageOfBytes(c, m);
    } else if m.Patch? && ParseMessage(c, MessageBytes(m)) == Ok(m) {
      var s := MessageBytes(m);
      ParsedRangesArePrefix(s[13..], U32Of(Slice(s, 9, 4)));
    }
  }

  lemma {:induction false} RangesAreLong(rs: seq<Range>)
    ensures 12 * |rs| <= |RangesBytes(rs)|
    ensures forall k | 0 <= k < |rs| :: |rs[k].1| <= |RangesBytes(rs)|
  {
    if rs != [] {
      RangesAreLong(rs[1..]);
      forall k | 0 <= k < |rs|
        ensures |rs[k].1| <= |RangesBytes(rs)|
      {
        assert k > 0 ==> rs[k] == rs[1..][k - 1];
      }
    }
  }

  /** Every message that fits a frame survives. */
  lemma FramedIsEncodable(m: SyncMessage)
    requires |MessageBytes(m)| <= MAX_FRAME_LEN
    ensures Encodable(m)
  {
    if m.Patch? {
      RangesAreLong(m.ranges);
    }
  }

  // ----- encoding and decoding

  lemma OneMoreRange(buf: bytes, rs: seq<Range>, k: nat)
    requires k < |rs|
    ensures buf + Le(rs[k].0, 8) + Le(|rs[k].1|, 4) + rs[k].1 + RangesBytes(rs[k + 1..]) == buf + RangesBytes(rs[k..])
  {
    assert rs[k..][0] == rs[k] && rs[k..][1..] == rs[k + 1..];
  }

  method EncodeRanges(head: bytes, ranges: seq<Range>) returns (buf: bytes)
    ensures buf == head + RangesBytes(ranges)
  {
    buf := head;
    assert ranges[0..] == ranges;
    for k := 0 to |ranges|
      invariant buf + RangesBytes(ranges[k..]) == head + RangesBytes(ranges)
    {
      OneMoreRange(buf, ranges, k);
      buf := buf + Le(ranges[k].0, 8) + Le(|ranges[k].1|, 4) + ranges[k].1;
    }
  }

  method Encode(m: SyncMessage) returns (buf: bytes)
    ensures buf == MessageBytes(m)
  {
    hide Le, RangesBytes;
    buf := [];
    match m {
      case ChainState(nextSeq, lastHash) =>
        buf := buf + [1];
        assert buf == [1];
        buf := buf + Le(nextSeq, 8);
        buf := buf + lastHash;
      case Patch(seqNo, ranges) =>
        buf := buf + [2];
        assert buf == [2];
        buf := buf + Le(seqNo, 8);
        buf := buf + Le(|ranges|, 4);
        buf := EncodeRanges(buf, ranges);
      case FullSync(data) =>
        buf := buf + [3];
        assert buf == [3];
        buf := buf + Le(|data|, 8);
        buf := buf + data;
      case UpToDate =>
        buf := buf + [4];
        assert buf == [4];
      case Failure(message) =>
        buf := buf + [5];
        assert buf == [5];
        buf := buf + Le(|message|, 4);
        buf := buf + message;
    }
  }

  predicate Needs(buf: bytes, pos: nat, n: nat) {
    pos + n <= |buf|
  }

  /** Ranges already read, followed by what the rest parses to. */
  function Following(rs: seq<Range>, rest: Result<seq<Range>>): Result<seq<Range>> {
    match rest
    case Ok(more) => Ok(rs + more)
    case Err(e) => Err(e)
  }

  lemma FollowingNothing(r: Result<seq<Range>>)
    ensures Following([], r) == r
  {
    if r.Ok? {
      assert [] + r.value == r.value;
    }
  }

  lemma TailOfTail(buf: bytes, pos: nat, k: nat)
    requires pos + k <= |buf|
    ensures buf[pos..][k..] == buf[pos + k..]
  {
  }

  lemma SliceOfTail(buf: bytes, pos: nat, off: nat, n: nat)
    requires pos + off + n <= |buf|
    ensures Slice(buf[pos..], off, n) == Slice(buf, pos + off, n)
  {
  }

  lemma OneMoreParsed(buf: bytes, pos: nat, n: nat, rs: seq<Range>)
    requires pos <= |buf| && n > 0
    ensures Following(rs, ParseRanges(buf[pos..], n))
         == if |buf| < pos + 12 then Err(CorruptContainer)
            else
              var len := U32Of(Slice(buf, pos + 8, 4));
              if |buf| < pos + 12 + len then Err(CorruptContainer)
              else Following(rs + [(U64Of(Slice(buf, pos, 8)), Slice(buf, pos + 12, len))],
                             ParseRanges(buf[pos + 12 + len..], n - 1))
  {
    hide U64Of, U32Of, Slice;
    var s := buf[pos..];
    if |s| >= 12 {
      SliceOfTail(buf, pos, 0, 8);
      SliceOfTail(buf, pos, 8, 4);
      var len: nat := U32Of(Slice(s, 8, 4));
      if |s| >= 12 + len {
        SliceOfTail(buf, pos, 12, len);
        TailOfTail(buf, pos, 12 + len);
        var first: Range := (U64Of(Slice(buf, pos, 8)), Slice(buf, pos + 12, len));
        var more := ParseRanges(buf[pos + 12 + len..], n - 1);
        if more.Ok? {
          assert rs + ([first] + more.value) == rs + [first] + more.value;
        }
      }
    }
  }

  method DecodeRanges(buf: bytes, start: nat, count: nat) returns (r: Result<seq<Range>>)
    requires start <= |buf|
    ensures r == ParseRanges(buf[start..], count)
  {
    hide U64Of, U32Of, Slice;
    var ranges: seq<Range> := [];
    var pos: nat := start;
    FollowingNothing(ParseRanges(buf[start..], count));
    for k := 0 to count
      invariant pos <= |buf|
      invariant ParseRanges(buf[start..], count) == Following(ranges, ParseRanges(buf[pos..], count - k))
    {
      OneMoreParsed(buf, pos, count - k, ranges);
      if !Needs(buf, pos, 8 + 4) { return Err(CorruptContainer); }
      var offset := U64Of(Slice(buf, pos, 8));
      pos := pos + 8;
      var len := U32Of(Slice(buf, pos, 4));
      pos := pos + 4;
      if !Needs(buf, pos, len) { return Err(CorruptContainer); }
      var data := Slice(buf, pos, len);
      pos := pos + len;
      ranges := ranges + [(offset, data)];
    }
    assert ranges + [] == ranges;
    r := Ok(ranges);
  }

  method Decode(c: Suite, buf: bytes) returns (r: Result<SyncMessage>)
    ensures r == ParseMessage(c, buf)
  {
    hide ParseRanges;
    if buf == [] {
      return Err(CorruptContainer);
    }
    var pos := 1;
    match buf[0] {
      case 1 =>
        if !Needs(buf, pos, 8 + 32) { return Err(CorruptContainer); }
        var nextSeq := U64Of(Slice(buf, pos, 8));
        pos := pos + 8;
        r := Ok(ChainState(nextSeq, Slice(buf, pos, 32)));
      case 2 =>
        if !Needs(buf, pos, 8 + 4) { return Err(CorruptContainer); }
        var seqNo := U64Of(Slice(buf, pos, 8));
        pos := pos + 8;
        var count := U32Of(Slice(buf, pos, 4));
        pos := pos + 4;
        var ranges :- DecodeRanges(buf, pos, count);
        r := Ok(Patch(seqNo, ranges));
      case 3 =>
        if !Needs(buf, pos, 8) { return Err(CorruptContainer); }
        var len := U64Of(Slice(buf, pos, 8));
        pos := pos + 8;
        if !Needs(buf, pos, len) { return Err(CorruptContainer); }
        r := Ok(FullSync(Slice(buf, pos, len)));
      case 4 =>
        r := Ok(UpToDate);
      case 5 =>
        if !Needs(buf, pos, 4) { return Err(CorruptContainer); }
        var len := U32Of(Slice(buf, pos, 4));
        pos := pos + 4;
        if !Needs(buf, pos, len) { return Err(CorruptContainer); }
        r := Ok(Failure(c.lossy(Slice(buf, pos, len))));
      case _ =>
        r := Err(CorruptContainer);
    }
  }

  // ----- frames on a byte stream

  function FrameBytes(data: bytes): bytes {
    Le(|data|, 4) + data
  }

  function Frames(fs: seq<bytes>): bytes {
    if fs == [] then [] else FrameBytes(fs[0]) + Frames(fs[1..])
  }

  lemma {:induction false} FramesAppend(fs: seq<bytes>, f: bytes)
    ensures Frames(fs + [f]) == Frames(fs) + FrameBytes(f)
  {
    if fs == [] {
      assert Frames([f]) == FrameBytes(f) + Frames([]);
    } else {
      assert (fs + [f])[1..] == fs[1..] + [f];
      FramesAppend(fs[1..], f);
    }
  }

  predicate AllFit(fs: seq<bytes>) {
    forall k | 0 <= k < |fs| :: |fs[k]| <= MAX_FRAME_LEN
  }

  lemma FirstFrame(fs: seq<bytes>)
    requires fs != [] && |fs[0]| <= MAX_FRAME_LEN
    ensures var s := Frames(fs);
            && |s| >= 4 + |fs[0]| && U32Of(s[..4]) == |fs[0]| && s[4..][..|fs[0]|] == fs[0] && s[4..][|fs[0]|..] == Frames(fs[1..])
  {
    var f, rest := fs[0], Frames(fs[1..]);
    FixedWidthRoundTrips(0, |f|, 0, 0, 0);
    hide Le, UnLe, Frames;
    assert Frames(fs) == FrameBytes(f) + rest;
    assert (FrameBytes(f) + rest)[..4] == Le(|f|, 4);
    assert (FrameBytes(f) + rest)[4..] == f + rest;
  }

  /** The frame a stream begins with. */
  function FrameAtFront(s: bytes): Result<bytes> {
    if |s| < 4 then Err(IoError)
    else
      var len: nat := U32Of(s[..4]);
      if len > MAX_FRAME_LEN || |s| - 4 < len then Err(IoError) else Ok(s[4..][..len])
  }

  lemma ThreeWays(s: bytes, i: nat, n: nat)
    requires i + n <= |s|
    ensures s == s[..i] + s[i..][..n] + s[i..][n..]
  {
  }

  lemma Reframed(s: bytes)
    requires FrameAtFront(s).Ok?
    ensures var f := FrameAtFront(s).value; s == FrameBytes(f) + s[4..][|f|..]
  {
    var f := FrameAtFront(s).value;
    LeOfUnLe(s[..4]);
    hide Le, UnLe;
    ThreeWays(s, 4, |f|);
  }

  /** One direction of a connection: the bytes sent and not yet received. */
  class Stream {
    var data: bytes

    constructor ()
      ensures data == []
    {
      data := [];
    }

    method WriteFrame(payload: bytes) returns (r: Result<()>)
      modifies this
      ensures r == if |payload| <= MAX_FRAME_LEN then Ok(()) else Err(IoError)
      ensures data == if r.Ok? then old(data) + FrameBytes(payload) else old(data)
      ensures r.Ok? ==> data == old(data) + Le(|payload|, 4) + payload
    {
      if |payload| > MAX_FRAME_LEN {
        return Err(IoError);
      }
      data := data + Le(|payload|, 4);
      data := data + payload;
      r := Ok(());
    }

    /** Takes exactly `n` bytes; at the end of the stream there is nothing more to come. */
    method ReadExact(n: nat) returns (r: Result<bytes>)
      modifies this
      ensures r.Ok? <==> n <= |old(data)|
      ensures r.Err? ==> r.error == IoError
      ensures r.Ok? ==> r.value == old(data)[..n] && data == old(data)[n..]
      ensures r.Err? ==> data == []
    {
      if n > |data| {
        data := [];
        return Err(IoError);
      }
      r := Ok(data[..n]);
      data := data[n..];
    }

    /** Takes the frame at the front of the stream, if a whole one of admissible length is there; so
        whatever frames were written, in order, are read back one by one, in order. */
    method ReadFrame(ghost fs: seq<bytes>) returns (r: Result<bytes>)
      modifies this
      ensures r == FrameAtFront(old(data))
      ensures r.Ok? ==> |r.value| <= MAX_FRAME_LEN && old(data) == FrameBytes(r.value) + data
      ensures old(data) == Frames(fs) && AllFit(fs) ==>
                if fs == [] then r == Err(IoError) && data == []
                else r == Ok(fs[0]) && data == Frames(fs[1..])
    {
      if fs != [] && |fs[0]| <= MAX_FRAME_LEN {
        FirstFrame(fs);
      }
      hide Frames;
      var head :- ReadExact(4);
      var len := U32Of(head);
      if len > MAX_FRAME_LEN {
        return Err(IoError);
      }
      r := ReadExact(len);
      if r.Ok? {
        Reframed(old(data));
      }
    }

    /** Reading as many frames as were written recovers exactly their sequence. */
    method ReadAll(n: nat, ghost fs: seq<bytes>) returns (out: seq<bytes>)
      requires data == Frames(fs) && AllFit(fs) && n == |fs|
      modifies this
      ensures out == fs && data == []
    {
      out := [];
      for k := 0 to n
        invariant data == Frames(fs[k..]) && out == fs[..k]
      {
        assert fs[k..][0] == fs[k] && fs[k..][1..] == fs[k + 1..];
        var f := ReadFrame(fs[k..]);
        out := out + [f.value];
      }
    }
  }
}
