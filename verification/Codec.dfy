/** Records as lists of fixed-width fields, and the byte cursors that print and parse them
    (`Writer` and `Reader` of `src/core/format.rs`). */
module Codec {

  import opened Bytes
  import opened Results

  /** Fields laid end to end. */
  function Flat(fs: seq<bytes>): bytes {
    if fs == [] then [] else Flat(fs[..|fs| - 1]) + fs[|fs| - 1]
  }

  /** Where field `k` begins. */
  function Start(fs: seq<bytes>, k: nat): nat
    requires k <= |fs|
  {
    if k == 0 then 0 else Start(fs, k - 1) + |fs[k - 1]|
  }

  lemma {:induction false} StartOfPrefix(fs: seq<bytes>, n: nat, k: nat)
    requires k <= n <= |fs|
    ensures Start(fs[..n], k) == Start(fs, k)
  {
    if k > 0 {
      StartOfPrefix(fs, n, k - 1);
    }
  }

  lemma {:induction false} FlatLength(fs: seq<bytes>)
    ensures |Flat(fs)| == Start(fs, |fs|)
  {
    if fs != [] {
      var n := |fs| - 1;
      FlatLength(fs[..n]);
      StartOfPrefix(fs, n, n);
    }
  }

  /** Each field is found at its offset, whatever follows the record. */
  lemma {:induction false} FieldAt(fs: seq<bytes>, rest: bytes, k: nat)
    requires k < |fs|
    ensures Start(fs, k) + |fs[k]| <= |Flat(fs)|
    ensures (Flat(fs) + rest)[Start(fs, k)..Start(fs, k) + |fs[k]|] == fs[k]
  {
    var n := |fs| - 1;
    FlatLength(fs[..n]);
    StartOfPrefix(fs, n, n);
    if k < n {
      FieldAt(fs[..n], fs[n] + rest, k);
      StartOfPrefix(fs, n, k);
      assert Flat(fs) + rest == Flat(fs[..n]) + (fs[n] + rest);
    }
  }

  lemma {:induction false} FlatConcat(a: seq<bytes>, b: seq<bytes>)
    ensures Flat(a + b) == Flat(a) + Flat(b)
  {
    if b == [] {
      assert a + b == a;
    } else {
      assert (a + b)[..|a + b| - 1] == a + b[..|b| - 1];
      FlatConcat(a, b[..|b| - 1]);
    }
  }

  function Slice(buf: bytes, off: nat, n: nat): (s: bytes)
    requires off + n <= |buf|
    ensures |s| == n
  {
    buf[off..off + n]
  }

  lemma SliceOfSlice(buf: bytes, off: nat, n: nat, i: nat, m: nat)
    requires off + n <= |buf| && i + m <= n
    ensures Slice(buf, off, n)[i..i + m] == Slice(buf, off + i, m)
  {
    var a, b := Slice(buf, off, n)[i..i + m], Slice(buf, off + i, m);
    forall k | 0 <= k < m
      ensures a[k] == b[k]
    {
    }
    assert a == b;
  }

  /** A field of a group of fields that sits at offset `base` of a buffer. */
  lemma FieldIn(buf: bytes, base: nat, fs: seq<bytes>, k: nat)
    requires base + |Flat(fs)| <= |buf| && Slice(buf, base, |Flat(fs)|) == Flat(fs) && k < |fs|
    ensures Start(fs, k) + |fs[k]| <= |Flat(fs)|
    ensures Slice(buf, base + Start(fs, k), |fs[k]|) == fs[k]
  {
    FieldAt(fs, [], k);
    hide Flat, Start;
    assert Flat(fs) + [] == Flat(fs);
    SliceOfSlice(buf, base, |Flat(fs)|, Start(fs, k), |fs[k]|);
  }

  /** A length-prefixed byte string in a field of `width` bytes. */
  function BlobAt(buf: bytes, off: nat, width: nat): (r: Result<bytes>)
    requires off + 2 + width <= |buf|
    ensures r.Ok? ==> |r.value| <= width
  {
    var n := U16Of(Slice(buf, off, 2));
    if n > width then Err(CorruptContainer) else Ok(Slice(buf, off + 2, n))
  }

  /** ... that must hold UTF-8. */
  function TextAt(buf: bytes, off: nat, width: nat): (r: Result<text>)
    requires off + 2 + width <= |buf|
    ensures r.Ok? ==> |r.value| <= width
  {
    var b :- BlobAt(buf, off, width);
    if ValidUtf8(b) then Ok(b) else Err(CorruptContainer)
  }

  lemma BlobRoundTrip(buf: bytes, off: nat, width: nat, b: bytes)
    requires off + 2 + width <= |buf| && |b| <= width < U16
    requires Slice(buf, off, 2) == Le(|b|, 2) && Slice(buf, off + 2, width) == Fixed(b, width)
    ensures BlobAt(buf, off, width) == Ok(b)
    ensures ValidUtf8(b) ==> TextAt(buf, off, width) == Ok(b)
  {
    FixedWidthRoundTrips(|b|, 0, 0, 0, 0);
    SliceOfSlice(buf, off + 2, width, 0, |b|);
  }

  class Writer {
    var buf: bytes
    ghost var fields: seq<bytes>

    ghost predicate Valid()
      reads this
    {
      buf == Flat(fields)
    }

    constructor ()
      ensures Valid() && fields == []
    {
      buf, fields := [], [];
    }

    method Raw(v: bytes)
      requires Valid()
      modifies this
      ensures Valid() && fields == old(fields) + [v]
    {
      assert (fields + [v])[..|fields|] == fields;
      buf, fields := buf + v, fields + [v];
    }

    method PutU8(v: byte)
      requires Valid()
      modifies this
      ensures Valid() && fields == old(fields) + [[v]]
    {
      Raw([v]);
    }

    method PutU16(v: u16)
      requires Valid()
      modifies this
      ensures Valid() && fields == old(fields) + [Le(v, 2)]
    {
      Raw(Le(v, 2));
    }

    method PutU32(v: u32)
      requires Valid()
      modifies this
      ensures Valid() && fields == old(fields) + [Le(v, 4)]
    {
      Raw(Le(v, 4));
    }

    method PutU64(v: u64)
      requires Valid()
      modifies this
      ensures Valid() && fields == old(fields) + [Le(v, 8)]
    {
      Raw(Le(v, 8));
    }

    method PutI64(v: i64)
      requires Valid()
      modifies this
      ensures Valid() && fields == old(fields) + [I64Bytes(v)]
    {
      Raw(I64Bytes(v));
    }

    method PutU128(v: u128)
      requires Valid()
      modifies this
      ensures Valid() && fields == old(fields) + [Le(v, 16)]
    {
      Raw(Le(v, 16));
    }

    /** An array of u64, one after the other, as one field. */
    method PutU64s(vs: seq<u64>)
      requires Valid()
      modifies this
      ensures Valid() && fields == old(fields) + [LeSeq(vs)]
    {
      ghost var before := buf;
      for n := 0 to |vs|
        invariant buf == before + LeSeq(vs[..n])
        invariant fields == old(fields)
      {
        assert vs[..n + 1][..n] == vs[..n];
        buf := buf + Le(vs[n], 8);
      }
      assert vs[..|vs|] == vs;
      fields := fields + [LeSeq(vs)];
      assert fields[..|fields| - 1] == old(fields);
    }

    /** A fixed-width field, padded with zeros one byte at a time. */
    method PutFixed(data: bytes, width: nat)
      requires Valid() && |data| <= width
      modifies this
      ensures Valid() && fields == old(fields) + [Fixed(data, width)]
    {
      ghost var before := buf;
      buf := buf + data;
      for n := |data| to width
        invariant buf == before + data + Zeros(n - |data|)
        invariant fields == old(fields)
      {
        buf := buf + [0];
        assert Zeros(n - |data|) + [0] == Zeros(n + 1 - |data|);
      }
      fields := fields + [Fixed(data, width)];
      assert fields[..|fields| - 1] == old(fields);
      assert buf == before + Fixed(data, width);
    }

    /** Pads the whole record to `size` bytes. */
    method PadTo(size: nat) returns (r: bytes)
      requires Valid() && |buf| <= size
      modifies this
      ensures r == Flat(old(fields)) + Zeros(size - |Flat(old(fields))|)
    {
      ghost var n := |buf|;
      while |buf| < size
        invariant n <= |buf| <= size && buf == Flat(old(fields)) + Zeros(|buf| - n)
      {
        assert Zeros(|buf| - n) + [0] == Zeros(|buf| + 1 - n);
        buf := buf + [0];
      }
      r := buf;
    }
  }

  /** A cursor over the first `limit` bytes of a buffer. */
  class Reader {
    const buf: bytes
    const limit: nat
    var pos: nat

    ghost predicate Valid()
      reads this
    {
      pos <= limit <= |buf|
    }

    constructor (buf: bytes, limit: nat)
      requires limit <= |buf|
      ensures Valid() && this.buf == buf && this.limit == limit && pos == 0
    {
      this.buf, this.limit, pos := buf, limit, 0;
    }

    /** Takes the next `n` bytes; fails, without moving, when fewer are left. */
    method Take(n: nat) returns (r: Result<bytes>)
      requires Valid()
      modifies this`pos
      ensures Valid()
      ensures pos == old(pos) + (if r.Ok? then n else 0)
      ensures r == if old(pos) + n <= limit then Ok(Slice(buf, old(pos), n)) else Err(CorruptContainer)
    {
      if pos + n > limit {
        return Err(CorruptContainer);
      }
      r := Ok(buf[pos..pos + n]);
      pos := pos + n;
    }

    /** Takes a field that is known to be there: within a record whose length was checked up front,
        `Take` never fails. */
    method Field(n: nat) returns (v: bytes)
      requires Valid() && pos + n <= limit
      modifies this`pos
      ensures Valid() && pos == old(pos) + n && v == Slice(buf, old(pos), n)
    {
      var r := Take(n);
      v := r.value;
    }

    /** Takes a length-prefixed byte string out of a field of `width` bytes. */
    method Blob(width: nat) returns (r: Result<bytes>)
      requires Valid() && pos + 2 + width <= limit
      modifies this`pos
      ensures Valid() && pos == old(pos) + 2 + width && r == BlobAt(buf, old(pos), width)
    {
      ghost var off := pos;
      var len := Field(2);
      var raw := Field(width);
      if U16Of(len) > width {
        return Err(CorruptContainer);
      }
      SliceOfSlice(buf, off + 2, width, 0, U16Of(len));
      r := Ok(raw[..U16Of(len)]);
    }

    method Text(width: nat) returns (r: Result<text>)
      requires Valid() && pos + 2 + width <= limit
      modifies this`pos
      ensures Valid() && pos == old(pos) + 2 + width && r == TextAt(buf, old(pos), width)
    {
      var b := Blob(width);
      if b.Err? {
        return Err(b.error);
      }
      if !ValidUtf8(b.value) {
        return Err(CorruptContainer);
      }
      r := Ok(b.value);
    }

    /** Takes an array of `n` u64. */
    method U64s(n: nat) returns (out: seq<u64>)
      requires Valid() && pos + 8 * n <= limit
      modifies this`pos
      ensures Valid() && pos == old(pos) + 8 * n
      ensures out == UnLeSeq(Slice(buf, old(pos), 8 * n), n)
    {
      out := [];
      ghost var p := pos;
      ghost var all := Slice(buf, p, 8 * n);
      for k := 0 to n
        invariant Valid() && pos == p + 8 * k && out == UnLeSeq(all, n)[..k]
      {
        var b := Field(8);
        UnLeSeqAt(all, n, k);
        SliceOfSlice(buf, p, 8 * n, 8 * k, 8);
        out := out + [U64Of(b)];
      }
      assert out == UnLeSeq(all, n);
    }
  }
}
