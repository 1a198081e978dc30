/** The free/occupied block bitmap (`src/core/allocator.rs`): a shift-and-mask byte array that stands
    for a set of block indices. Bit `i` of the map is bit `i % 8` of byte `i / 8`, least significant
    bit first, which is what the source's shifts do whatever its header comment says. */
module Allocator {

  import opened Bytes

  // ----- one byte

  predicate BitBv(b: bv8, k: bv8)
    requires k < 8
  {
    (b >> k) & 1 == 1
  }

  function WithBitBv(b: bv8, k: bv8, occupied: bool): bv8
    requires k < 8
  {
    var mask: bv8 := 1 << k;
    if occupied then b | mask else b & !mask
  }

  predicate BitOf(b: byte, k: nat)
    requires k < 8
  {
    BitBv(b as bv8, k as bv8)
  }

  function WithBit(b: byte, k: nat, occupied: bool): byte
    requires k < 8
  {
    WithBitBv(b as bv8, k as bv8, occupied) as byte
  }

  lemma ByteOfBv(x: bv8)
    ensures (x as byte) as bv8 == x
  {
  }

  lemma IndexBv(i: nat, j: nat)
    requires i < 8 && j < 8
    ensures (i as bv8) < 8 && (i as bv8 == j as bv8 <==> i == j)
  {
    assert (i as bv8) as nat == i && (j as bv8) as nat == j;
  }

  lemma MaskBits(b: bv8, i: bv8, j: bv8, occupied: bool)
    requires i < 8 && j < 8
    ensures BitBv(WithBitBv(b, i, occupied), j) == if i == j then occupied else BitBv(b, j)
  {
  }

  lemma WithBitEffect(b: byte, i: nat, j: nat, occupied: bool)
    requires i < 8 && j < 8
    ensures BitOf(WithBit(b, i, occupied), j) == if i == j then occupied else BitOf(b, j)
  {
    IndexBv(i, j);
    IndexBv(j, i);
    MaskBits(b as bv8, i as bv8, j as bv8, occupied);
    ByteOfBv(WithBitBv(b as bv8, i as bv8, occupied));
  }

  lemma ZeroBv(i: bv8)
    requires i < 8
    ensures !BitBv(0, i)
  {
  }

  lemma ZeroByteIsFree(k: nat)
    requires k < 8
    ensures !BitOf(0, k)
  {
    IndexBv(k, k);
    ZeroBv(k as bv8);
  }

  /** Least significant bit first. */
  lemma BitsInBinary(b: byte)
    ensures BitOf(b, 0) <==> b % 2 == 1
    ensures BitOf(b, 1) <==> b / 2 % 2 == 1
    ensures BitOf(b, 2) <==> b / 4 % 2 == 1
    ensures BitOf(b, 3) <==> b / 8 % 2 == 1
    ensures BitOf(b, 4) <==> b / 16 % 2 == 1
    ensures BitOf(b, 5) <==> b / 32 % 2 == 1
    ensures BitOf(b, 6) <==> b / 64 % 2 == 1
    ensures BitOf(b, 7) <==> b / 128 % 2 == 1
  {
  }

  // ----- the map

  predicate Bit(bits: bytes, i: nat) {
    i / 8 < |bits| && BitOf(bits[i / 8], i % 8)
  }

  function WithBitAt(bits: bytes, i: nat, occupied: bool): bytes
    requires i / 8 < |bits|
  {
    bits[i / 8 := WithBit(bits[i / 8], i % 8, occupied)]
  }

  lemma WithBitAtEffect(bits: bytes, i: nat, occupied: bool, j: nat)
    requires i / 8 < |bits|
    ensures Bit(WithBitAt(bits, i, occupied), j) == if i == j then occupied else Bit(bits, j)
  {
    if i / 8 == j / 8 {
      WithBitEffect(bits[i / 8], i % 8, j % 8, occupied);
    }
  }

  /** The free blocks among the first `n`. */
  ghost function FreeSet(bits: bytes, n: nat): set<nat> {
    set i: nat | i < n && !Bit(bits, i)
  }

  function BitmapLen(blockCount: nat): nat {
    (blockCount + 7) / 8
  }

  // ----- increasing lists of block indices

  ghost function Members(s: seq<nat>): set<nat> {
    set x | x in s
  }

  lemma {:induction false} IncreasingSize(s: seq<nat>)
    requires Increasing(s)
    ensures |Members(s)| == |s|
  {
    if s != [] {
      var n := |s| - 1;
      IncreasingSize(s[..n]);
      assert s == s[..n] + [s[n]];
      assert Members(s) == Members(s[..n]) + {s[n]};
    }
  }

  lemma WithoutLast(s: seq<nat>)
    requires Increasing(s) && s != []
    ensures var n := |s| - 1;
            && Increasing(s[..n]) && Members(s[..n]) == Members(s) - {s[n]} && s == s[..n] + [s[n]]
            && s[n] in Members(s) && forall x | x in Members(s) :: x <= s[n]
  {
  }

  lemma {:induction false} IncreasingUnique(a: seq<nat>, b: seq<nat>)
    requires Increasing(a) && Increasing(b) && Members(a) == Members(b)
    ensures a == b
  {
    IncreasingSize(a);
    IncreasingSize(b);
    hide Increasing, Members;
    if a != [] {
      var n := |a| - 1;
      WithoutLast(a);
      WithoutLast(b);
      IncreasingUnique(a[..n], b[..n]);
    }
  }

  lemma SubsetSize<T>(a: set<T>, b: set<T>)
    requires a <= b
    ensures |a| <= |b| && (|a| == |b| ==> a == b)
  {
    assert b == a + (b - a);
  }

  lemma NoMembers()
    ensures Increasing([]) && Members([]) == {}
  {
  }

  lemma OneMoreMember(s: seq<nat>, x: nat)
    requires Increasing(s) && forall y | y in Members(s) :: y < x
    ensures Increasing(s + [x]) && Members(s + [x]) == Members(s) + {x}
  {
    assert s != [] ==> s[|s| - 1] in Members(s);
    IncreasingAppend(s, x);
  }

  /** `out` lists the `count` smallest members of `free`, in increasing order, or all of them when
      there are fewer. */
  ghost predicate IsLowest(out: seq<nat>, free: set<nat>, count: nat) {
    && Increasing(out)
    && Members(out) <= free
    && |out| == Min(count, |free|)
    && forall x, y | x in Members(out) && y in free - Members(out) :: x < y
  }

  lemma LowestAreFree(out: seq<nat>, free: set<nat>, count: nat)
    requires IsLowest(out, free, count)
    ensures forall p | 0 <= p < |out| :: out[p] in free
  {
    forall p | 0 <= p < |out|
      ensures out[p] in free
    {
      assert out[p] in Members(out);
    }
  }

  lemma LowestComeFirst(a: seq<nat>, free: set<nat>, count: nat, x: nat, y: nat)
    requires IsLowest(a, free, count) && x in a && y in free && y !in a
    ensures x < y
  {
    assert x in Members(a) && y in free - Members(a);
  }

  /** That pins the list down. */
  lemma LowestIsUnique(a: seq<nat>, b: seq<nat>, free: set<nat>, count: nat)
    requires IsLowest(a, free, count) && IsLowest(b, free, count)
    ensures a == b
  {
    var sa, sb := Members(a), Members(b);
    IncreasingSize(a);
    IncreasingSize(b);
    if sa != sb {
      if sa <= sb { SubsetSize(sa, sb); assert false; }
      if sb <= sa { SubsetSize(sb, sa); assert false; }
      var x :| x in sa && x !in sb;
      var y :| y in sb && y !in sa;
      LowestComeFirst(a, free, count, x, y);
      LowestComeFirst(b, free, count, y, x);
      assert false;
    }
    IncreasingUnique(a, b);
  }

  class BlockAllocator {
    var bits: bytes
    const blockCount: u64

    ghost predicate Valid()
      reads this`bits
    {
      |bits| == BitmapLen(blockCount)
    }

    ghost function Free(): set<nat>
      reads this`bits
    {
      FreeSet(bits, blockCount)
    }

    constructor (blockCount: u64)
      ensures Valid() && this.blockCount == blockCount && bits == Zeros(BitmapLen(blockCount))
      ensures forall i: nat :: !Bit(bits, i)
    {
      this.blockCount := blockCount;
      bits := Zeros(BitmapLen(blockCount));
      forall i: nat
        ensures !Bit(Zeros(BitmapLen(blockCount)), i)
      {
        ZeroByteIsFree(i % 8);
      }
    }

    /** Loads a stored map, cut or zero-extended to the length the block count calls for. */
    constructor FromBytes(stored: bytes, blockCount: u64)
      ensures Valid() && this.blockCount == blockCount
      ensures forall i: nat | i < blockCount :: Bit(bits, i) == Bit(stored, i)
      ensures |stored| == BitmapLen(blockCount) ==> bits == stored
    {
      this.blockCount := blockCount;
      var needed := BitmapLen(blockCount);
      bits := if needed <= |stored| then stored[..needed] else stored + Zeros(needed - |stored|);
      forall k: nat | k < 8
        ensures !BitOf(0, k)
      {
        ZeroByteIsFree(k);
      }
    }

    predicate IsFree(i: nat)
      requires Valid()
      reads this`bits
      ensures IsFree(i) <==> i in Free()
    {
      if i >= blockCount then false else !BitOf(bits[i / 8], i % 8)
    }

    method Set(i: nat, occupied: bool)
      requires Valid() && i < blockCount
      modifies this`bits
      ensures Valid()
      ensures forall j: nat :: Bit(bits, j) == if j == i then occupied else Bit(old(bits), j)
    {
      forall j: nat
        ensures Bit(WithBitAt(bits, i, occupied), j) == if j == i then occupied else Bit(bits, j)
      {
        WithBitAtEffect(bits, i, occupied, j);
      }
      bits := WithBitAt(bits, i, occupied);
    }

    method FreeCount() returns (n: nat)
      requires Valid()
      ensures n == |Free()| <= blockCount
    {
      var occupied := 0;
      for i := 0 to blockCount
        invariant occupied <= i && |FreeSet(bits, i)| == i - occupied
      {
        if !IsFree(i) {
          occupied := occupied + 1;
          assert FreeSet(bits, i + 1) == FreeSet(bits, i);
        } else {
          assert FreeSet(bits, i + 1) == FreeSet(bits, i) + {i};
        }
      }
      n := blockCount - occupied;
    }

    method OccupiedCount() returns (n: nat)
      requires Valid()
      ensures n == blockCount - |Free()|
    {
      var free := FreeCount();
      n := blockCount - free;
    }

    /** Takes the `count` lowest free blocks, or all of them when there are fewer; touches no other
        bit. */
    method Allocate(count: nat) returns (out: seq<u64>)
      requires Valid()
      modifies this`bits
      ensures Valid()
      ensures IsLowest(out, old(Free()), count)
      ensures forall j: nat :: Bit(bits, j) <==> Bit(old(bits), j) || j in Members(out)
    {
      hide Increasing, Members, Bit;
      out := [];
      NoMembers();
      ghost var free := Free();
      for i := 0 to blockCount
        invariant Valid()
        invariant Increasing(out) && Members(out) <= free && |out| <= count
        invariant forall x | x in Members(out) :: x < i
        invariant forall x | x in free && x < i :: x in Members(out)
        invariant forall j: nat :: Bit(bits, j) <==> Bit(old(bits), j) || j in Members(out)
      {
        if |out| == count {
          break;
        }
        if IsFree(i) {
          assert i in free;
          Set(i, true);
          OneMoreMember(out, i);
          out := out + [i];
        }
      }
      IncreasingSize(out);
      SubsetSize(Members(out), free);
      if |out| < count {
        assert Members(out) == free;
      }
    }

    /** Clears the listed bits; repetitions and indices out of range are harmless. */
    method Release(indices: seq<u64>)
      requires Valid()
      modifies this`bits
      ensures Valid()
      ensures forall j: nat :: Bit(bits, j) <==> Bit(old(bits), j) && !(j in indices && j < blockCount)
    {
      for k := 0 to |indices|
        invariant Valid()
        invariant forall j: nat :: Bit(bits, j) <==> Bit(old(bits), j) && !(j in indices[..k] && j < blockCount)
      {
        assert indices[..k + 1] == indices[..k] + [indices[k]];
        if indices[k] < blockCount {
          Set(indices[k], false);
        }
      }
      assert indices[..|indices|] == indices;
    }

    method MarkOccupied(indices: seq<u64>)
      requires Valid()
      modifies this`bits
      ensures Valid()
      ensures forall j: nat :: Bit(bits, j) <==> Bit(old(bits), j) || (j in indices && j < blockCount)
    {
      for k := 0 to |indices|
        invariant Valid()
        invariant forall j: nat :: Bit(bits, j) <==> Bit(old(bits), j) || (j in indices[..k] && j < blockCount)
      {
        assert indices[..k + 1] == indices[..k] + [indices[k]];
        if indices[k] < blockCount {
          Set(indices[k], true);
        }
      }
      assert indices[..|indices|] == indices;
    }
  }
}
