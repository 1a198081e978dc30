/** Bytes, fixed-width little-endian integers and zero-padded fields: the alphabet of the
    `.rvlt` format and of the wire protocol. */
module Bytes {

  newtype byte = x: int | 0 <= x < 256
  type bytes = seq<byte>

  const U16: nat := 0x1_0000
  const U32: nat := 0x1_0000_0000
  const U63: int := 0x8000_0000_0000_0000
  const U64: nat := 0x1_0000_0000_0000_0000
  const U128: nat := 0x1_0000_0000_0000_0000_0000_0000_0000_0000

  type u16 = x: nat | x < U16
  type u32 = x: nat | x < U32
  type u64 = x: nat | x < U64
  type i64 = x: int | -U63 <= x < U63
  type u128 = x: nat | x < U128

  /** 64-bit addition, which wraps around in a release build. */
  function Add64(a: nat, b: nat): u64 {
    (a + b) % U64
  }

  function Zeros(n: nat): (s: bytes)
    ensures |s| == n
    ensures forall i | 0 <= i < n :: s[i] == 0
  {
    seq(n, _ => 0 as byte)
  }

  type Arr16 = s: bytes | |s| == 16 witness Zeros(16)
  type Arr32 = s: bytes | |s| == 32 witness Zeros(32)
  type Arr64 = s: bytes | |s| == 64 witness Zeros(64)

  function Min(a: int, b: int): int {
    if a <= b then a else b
  }

  function Max(a: int, b: int): int {
    if a <= b then b else a
  }

  /** `data` left-justified in a field of `width` bytes. */
  function Fixed(data: bytes, width: nat): (s: bytes)
    requires |data| <= width
    ensures |s| == width && s[..|data|] == data && (|data| == width ==> s == data)
  {
    data + Zeros(width - |data|)
  }

  // ----- little-endian integers

  function Pow256(w: nat): nat {
    if w == 0 then 1 else 256 * Pow256(w - 1)
  }

  /** The `w` low-order bytes of `v`, least significant first. */
  function Le(v: nat, w: nat): (s: bytes)
    ensures |s| == w
  {
    if w == 0 then [] else [(v % 256) as byte] + Le(v / 256, w - 1)
  }

  function UnLe(s: bytes): nat {
    if s == [] then 0 else s[0] as int + 256 * UnLe(s[1..])
  }

  lemma HeadAndTail<T>(s: seq<T>)
    requires s != []
    ensures s == [s[0]] + s[1..]
  {
  }

  lemma ConcatIsAssociative(a: bytes, b: bytes, d: bytes)
    ensures (a + b) + d == a + (b + d)
  {
  }

  lemma NonzeroMultiple(d: nat, e: int)
    ensures (e >= 1 ==> d * e >= d) && (e <= -1 ==> d * e + d <= 0)
  {
  }

  lemma QuotientIs(v: nat, d: nat, q: nat, r: nat)
    requires v == d * q + r && r < d
    ensures v / d == q
  {
    var e := v / d - q;
    assert d * e == d * (v / d) - d * q;
    NonzeroMultiple(d, e);
  }

  lemma DivideTwice(v: nat, p: nat)
    requires p > 0
    ensures v / 256 / p == v / (256 * p)
  {
    var q, r := v / 256 / p, v / 256 % p;
    var low := v % 256;
    assert v == 256 * (p * q + r) + low;
    assert v == (256 * p) * q + (256 * r + low);
    assert 256 * r + low < 256 * p;
    QuotientIs(v, 256 * p, q, 256 * r + low);
  }

  lemma LowByte(low: byte, rest: nat)
    ensures (low as int + 256 * rest) % 256 == low as int && (low as int + 256 * rest) / 256 == rest
  {
  }

  lemma {:induction false} UnLeOfLe(v: nat, w: nat)
    requires v < Pow256(w)
    ensures UnLe(Le(v, w)) == v
  {
    if w > 0 {
      UnLeOfLe(v / 256, w - 1);
      assert Le(v, w)[1..] == Le(v / 256, w - 1);
    }
  }

  lemma {:induction false} LeOfUnLe(s: bytes)
    ensures UnLe(s) < Pow256(|s|)
    ensures Le(UnLe(s), |s|) == s
  {
    if s != [] {
      LeOfUnLe(s[1..]);
      LowByte(s[0], UnLe(s[1..]));
      HeadAndTail(s);
    }
  }

  lemma Widths()
    ensures Pow256(2) == U16 && Pow256(4) == U32 && Pow256(8) == U64 && Pow256(16) == U128
  {
    assert Pow256(4) == U32;
    assert Pow256(8) == 256 * 256 * 256 * 256 * Pow256(4);
    assert Pow256(12) == 256 * 256 * 256 * 256 * Pow256(8);
    assert Pow256(16) == 256 * 256 * 256 * 256 * Pow256(12);
  }

  function U16Of(s: bytes): u16
    requires |s| == 2
  {
    Widths(); LeOfUnLe(s); UnLe(s)
  }

  function U32Of(s: bytes): u32
    requires |s| == 4
  {
    Widths(); LeOfUnLe(s); UnLe(s)
  }

  function U64Of(s: bytes): u64
    requires |s| == 8
  {
    Widths(); LeOfUnLe(s); UnLe(s)
  }

  function U128Of(s: bytes): u128
    requires |s| == 16
  {
    Widths(); LeOfUnLe(s); UnLe(s)
  }

  /** Signed 64-bit integers travel in two's complement. */
  function I64Bytes(v: i64): (s: bytes)
    ensures |s| == 8
  {
    Le(if v < 0 then v + U64 else v, 8)
  }

  function I64Of(s: bytes): i64
    requires |s| == 8
  {
    var u := U64Of(s);
    if u < U63 then u else u - U64
  }

  lemma FixedWidthRoundTrips(a: u16, b: u32, c: u64, d: u128, e: i64)
    ensures U16Of(Le(a, 2)) == a && U32Of(Le(b, 4)) == b && U64Of(Le(c, 8)) == c
    ensures U128Of(Le(d, 16)) == d && I64Of(I64Bytes(e)) == e
  {
    Widths();
    UnLeOfLe(a, 2); UnLeOfLe(b, 4); UnLeOfLe(c, 8); UnLeOfLe(d, 16);
    UnLeOfLe(if e < 0 then e + U64 else e, 8);
  }

  // ----- arrays of u64

  function LeSeq(ns: seq<u64>): (s: bytes)
    ensures |s| == 8 * |ns|
  {
    if ns == [] then [] else LeSeq(ns[..|ns| - 1]) + Le(ns[|ns| - 1], 8)
  }

  function UnLeSeq(s: bytes, n: nat): (ns: seq<u64>)
    requires |s| == 8 * n
    ensures |ns| == n
  {
    if n == 0 then [] else UnLeSeq(s[..8 * (n - 1)], n - 1) + [U64Of(s[8 * (n - 1)..])]
  }

  lemma {:induction false} UnLeSeqOfLeSeq(ns: seq<u64>)
    ensures UnLeSeq(LeSeq(ns), |ns|) == ns
  {
    if ns != [] {
      var n := |ns| - 1;
      var a, b := LeSeq(ns[..n]), Le(ns[n], 8);
      assert |a| == 8 * n && (a + b)[..8 * n] == a && (a + b)[8 * n..] == b;
      UnLeSeqOfLeSeq(ns[..n]);
      FixedWidthRoundTrips(0, 0, ns[n], 0, 0);
      assert ns == ns[..n] + [ns[n]];
    }
  }

  /** Reading one number out of the middle. */
  lemma {:induction false} UnLeSeqAt(s: bytes, n: nat, k: nat)
    requires |s| == 8 * n && k < n
    ensures UnLeSeq(s, n)[k] == U64Of(s[8 * k..8 * k + 8])
  {
    if k < n - 1 {
      UnLeSeqAt(s[..8 * (n - 1)], n - 1, k);
      assert s[..8 * (n - 1)][8 * k..8 * k + 8] == s[8 * k..8 * k + 8];
    } else {
      assert s[8 * k..] == s[8 * k..8 * k + 8];
    }
  }

  // ----- increasing lists

  predicate Increasing(s: seq<nat>) {
    forall i, j | 0 <= i < j < |s| :: s[i] < s[j]
  }

  lemma IncreasingAt(s: seq<nat>, i: nat, j: nat)
    requires Increasing(s) && i <= j < |s|
    ensures s[i] <= s[j] && (i < j ==> s[i] < s[j])
  {
  }

  lemma IncreasingAppend(s: seq<nat>, x: nat)
    requires Increasing(s) && (s != [] ==> s[|s| - 1] < x)
    ensures Increasing(s + [x])
  {
  }

  /** Least significant byte first: byte `j` is the digit of weight 256^j. */
  lemma {:induction false} LittleEndianDigits(v: nat, w: nat, j: nat)
    requires j < w
    ensures Pow256(j) > 0 && Le(v, w)[j] as int == v / Pow256(j) % 256
  {
    if j > 0 {
      LittleEndianDigits(v / 256, w - 1, j - 1);
      DivideTwice(v, Pow256(j - 1));
    }
  }

  lemma Residue(v: int, d: nat, m: nat)
    requires m < d && (v == m || v + d == m)
    ensures v % d == m
  {
  }

  /** Signed integers travel modulo 2^64. */
  lemma SignedIsModular(v: i64)
    ensures UnLe(I64Bytes(v)) == v % U64
  {
    var m: nat := if v < 0 then v + U64 else v;
    assert Pow256(8) == U64 by { Widths(); }
    hide Le, UnLe, Pow256;
    UnLeOfLe(m, 8);
    Residue(v, U64, m);
  }

  // ----- UTF-8 (RFC 3629, section 4)

  predicate Cont(b: byte) {
    0x80 <= b <= 0xBF
  }

  /** The length of the well-formed UTF-8 sequence at the head of `s`, 0 if there is none. */
  function Utf8Head(s: bytes): nat
    requires s != []
    ensures Utf8Head(s) <= |s|
  {
    var b := s[0];
    if b <= 0x7F then 1
    else if 0xC2 <= b <= 0xDF && |s| >= 2 && Cont(s[1]) then 2
    else if 0xE0 <= b <= 0xEF && |s| >= 3 && Cont(s[1]) && Cont(s[2])
            && (b == 0xE0 ==> 0xA0 <= s[1]) && (b == 0xED ==> s[1] <= 0x9F) then 3
    else if 0xF0 <= b <= 0xF4 && |s| >= 4 && Cont(s[1]) && Cont(s[2]) && Cont(s[3])
            && (b == 0xF0 ==> 0x90 <= s[1]) && (b == 0xF4 ==> s[1] <= 0x8F) then 4
    else 0
  }

  predicate ValidUtf8(s: bytes) {
    s == [] || (Utf8Head(s) > 0 && ValidUtf8(s[Utf8Head(s)..]))
  }

  /** The Unicode scalar values: the code points that are not surrogates. */
  predicate Scalar(cp: nat) {
    cp < 0x11_0000 && !(0xD800 <= cp < 0xE000)
  }

  function Utf8Of(cp: nat): bytes
    requires Scalar(cp)
  {
    if cp < 0x80 then [cp as byte]
    else if cp < 0x800 then [(0xC0 + cp / 0x40) as byte, (0x80 + cp % 0x40) as byte]
    else if cp < 0x1_0000 then [(0xE0 + cp / 0x1000) as byte, (0x80 + cp / 0x40 % 0x40) as byte, (0x80 + cp % 0x40) as byte]
    else [(0xF0 + cp / 0x4_0000) as byte, (0x80 + cp / 0x1000 % 0x40) as byte, (0x80 + cp / 0x40 % 0x40) as byte,
          (0x80 + cp % 0x40) as byte]
  }

  function Utf8Text(cps: seq<nat>): bytes
    requires forall i | 0 <= i < |cps| :: Scalar(cps[i])
  {
    if cps == [] then [] else Utf8Of(cps[0]) + Utf8Text(cps[1..])
  }

  lemma HeadOfEncoded(cp: nat, rest: bytes)
    requires Scalar(cp)
    ensures Utf8Head(Utf8Of(cp) + rest) == |Utf8Of(cp)| > 0
  {
  }

  lemma SixBits(a: nat, b: nat)
    requires b < 0x40
    ensures (0x40 * a + b) / 0x40 == a && (0x40 * a + b) % 0x40 == b
  {
  }

  lemma EncodeOne(b: byte)
    ensures b < 0x80 ==> Scalar(b as nat) && Utf8Of(b as nat) == [b]
  {
  }

  lemma EncodeTwo(a: nat, b: nat)
    requires 2 <= a < 0x20 && b < 0x40
    ensures Scalar(0x40 * a + b) && Utf8Of(0x40 * a + b) == [(0xC0 + a) as byte, (0x80 + b) as byte]
  {
    SixBits(a, b);
  }

  lemma DivideTwice64(v: nat, p: nat)
    requires p == 0x40 || p == 0x1000
    ensures v / 0x40 / p == v / (0x40 * p)
  {
  }

  lemma EncodeThree(a: nat, b: nat, d: nat)
    requires a < 0x10 && b < 0x40 && d < 0x40 && (a == 0 ==> 0x20 <= b) && (a == 0xD ==> b < 0x20)
    ensures var cp := 0x40 * (0x40 * a + b) + d;
            Scalar(cp) && Utf8Of(cp) == [(0xE0 + a) as byte, (0x80 + b) as byte, (0x80 + d) as byte]
  {
    SixBits(a, b);
    SixBits(0x40 * a + b, d);
    DivideTwice64(0x40 * (0x40 * a + b) + d, 0x40);
  }

  lemma EncodeFour(a: nat, b: nat, d: nat, e: nat)
    requires a <= 4 && b < 0x40 && d < 0x40 && e < 0x40 && (a == 0 ==> 0x10 <= b) && (a == 4 ==> b < 0x10)
    ensures var cp := 0x40 * (0x40 * (0x40 * a + b) + d) + e;
            && Scalar(cp)
            && Utf8Of(cp) == [(0xF0 + a) as byte, (0x80 + b) as byte, (0x80 + d) as byte, (0x80 + e) as byte]
  {
    SixBits(a, b);
    SixBits(0x40 * a + b, d);
    SixBits(0x40 * (0x40 * a + b) + d, e);
    DivideTwice64(0x40 * (0x40 * (0x40 * a + b) + d) + e, 0x40);
    DivideTwice64(0x40 * (0x40 * (0x40 * a + b) + d) + e, 0x1000);
  }

  lemma HeadDecodes(s: bytes) returns (cp: nat)
    requires s != [] && Utf8Head(s) > 0
    ensures Scalar(cp) && Utf8Of(cp) == s[..Utf8Head(s)]
  {
    var n, b := Utf8Head(s), s[0] as nat;
    EncodeOne(s[0]);
    hide Utf8Of, Scalar;
    if n == 1 {
      cp := b;
    } else if n == 2 {
      cp := 0x40 * (b - 0xC0) + (s[1] as nat - 0x80);
      EncodeTwo(b - 0xC0, s[1] as nat - 0x80);
    } else if n == 3 {
      cp := 0x40 * (0x40 * (b - 0xE0) + (s[1] as nat - 0x80)) + (s[2] as nat - 0x80);
      EncodeThree(b - 0xE0, s[1] as nat - 0x80, s[2] as nat - 0x80);
    } else {
      cp := 0x40 * (0x40 * (0x40 * (b - 0xF0) + (s[1] as nat - 0x80)) + (s[2] as nat - 0x80)) + (s[3] as nat - 0x80);
      EncodeFour(b - 0xF0, s[1] as nat - 0x80, s[2] as nat - 0x80, s[3] as nat - 0x80);
    }
  }

  lemma {:induction false} EncodedIsValid(cps: seq<nat>)
    requires forall i | 0 <= i < |cps| :: Scalar(cps[i])
    ensures ValidUtf8(Utf8Text(cps))
  {
    hide Utf8Of, Utf8Head;
    if cps != [] {
      HeadOfEncoded(cps[0], Utf8Text(cps[1..]));
      EncodedIsValid(cps[1..]);
    }
  }

  lemma {:induction false} ValidIsEncoded(s: bytes) returns (cps: seq<nat>)
    requires ValidUtf8(s)
    ensures (forall i | 0 <= i < |cps| :: Scalar(cps[i])) && Utf8Text(cps) == s
  {
    hide Utf8Of, Utf8Head, Scalar;
    cps := [];
    if s != [] {
      var cp := HeadDecodes(s);
      var more := ValidIsEncoded(s[Utf8Head(s)..]);
      cps := [cp] + more;
      assert cps[1..] == more;
    }
  }

  /** Valid are exactly the encodings of sequences of scalar values. */
  lemma Utf8Exactly(s: bytes)
    ensures ValidUtf8(s) <==> exists cps: seq<nat> :: (forall i | 0 <= i < |cps| :: Scalar(cps[i])) && Utf8Text(cps) == s
  {
    hide ValidUtf8, Utf8Text, Scalar;
    if ValidUtf8(s) {
      var cps := ValidIsEncoded(s);
    }
    if cps: seq<nat> :| (forall i | 0 <= i < |cps| :: Scalar(cps[i])) && Utf8Text(cps) == s {
      EncodedIsValid(cps);
    }
  }

  /** The contents of a Rust `String` or `&str`. */
  type text = s: bytes | ValidUtf8(s)
}
