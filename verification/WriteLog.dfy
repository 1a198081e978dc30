/** Byte-range writes and their replay (`Vault::write_at`, `Vault::apply_remote_patch`).
    A range is an offset and the bytes written there; a log is a list of ranges, oldest first. */
module WriteLog {

  import opened Bytes
  import opened Results

  type Range = (u64, bytes)

  /** What a file holds after `data` was written at `off`: an empty write changes nothing, a write
      past the end first extends the file with zeros. */
  function Splice(file: bytes, off: nat, data: bytes): (out: bytes)
  {
    if data == [] then file
    else
      seq(Max(|file|, off + |data|), i requires 0 <= i =>
        if off <= i < off + |data| then data[i - off] else if i < |file| then file[i] else 0)
  }

  /** Replays a log. */
  function Apply(log: seq<Range>, file: bytes): bytes
  {
    if log == [] then file
    else
      var (off, data) := log[|log| - 1];
      Splice(Apply(log[..|log| - 1], file), off, data)
  }

  /** The last byte a log writes at position `i`, if it writes there at all. */
  function LastWrite(log: seq<Range>, i: nat): Option<byte>
  {
    if log == [] then None
    else
      var (off, data) := log[|log| - 1];
      if off <= i < off + |data| then Some(data[i - off]) else LastWrite(log[..|log| - 1], i)
  }

  /** How far a log reaches: one more than the largest position written. */
  function Reach(log: seq<Range>): nat
  {
    if log == [] then 0
    else
      var (off, data) := log[|log| - 1];
      Max(Reach(log[..|log| - 1]), if data == [] then 0 else off + |data|)
  }

  lemma {:induction false} NothingPastReach(log: seq<Range>, i: nat)
    requires Reach(log) <= i
    ensures LastWrite(log, i) == None
  {
    if log != [] {
      NothingPastReach(log[..|log| - 1], i);
    }
  }

  /** Replaying a log, position by position. */
  lemma {:induction false} ApplyAt(log: seq<Range>, file: bytes)
    ensures |Apply(log, file)| == Max(|file|, Reach(log))
    ensures forall i | 0 <= i < |Apply(log, file)| ::
              Apply(log, file)[i] == match LastWrite(log, i) case Some(b) => b
                                                             case None => if i < |file| then file[i] else 0
  {
    if log != [] {
      var log' := log[..|log| - 1];
      ApplyAt(log', file);
      forall i: nat | Reach(log') <= i
        ensures LastWrite(log', i) == None
      {
        NothingPastReach(log', i);
      }
    }
  }

  lemma ApplyNothing(file: bytes)
    ensures Apply([], file) == file
  {
  }

  lemma {:induction false} ApplyConcat(a: seq<Range>, b: seq<Range>, file: bytes)
    ensures Apply(a + b, file) == Apply(b, Apply(a, file))
  {
    if b == [] {
      assert a + b == a;
    } else {
      var b' := b[..|b| - 1];
      assert (a + b)[..|a + b| - 1] == a + b';
      ApplyConcat(a, b', file);
    }
  }

  lemma {:induction false} LastWriteOfConcat(a: seq<Range>, b: seq<Range>, i: nat)
    ensures LastWrite(a + b, i) == if LastWrite(b, i).Some? then LastWrite(b, i) else LastWrite(a, i)
    ensures Reach(a + b) == Max(Reach(a), Reach(b))
  {
    if b == [] {
      assert a + b == a;
    } else {
      var b' := b[..|b| - 1];
      assert (a + b)[..|a + b| - 1] == a + b';
      LastWriteOfConcat(a, b', i);
    }
  }

  /** Replaying a log over a state that already contains some prefix of it gives the same bytes
      as replaying the log once: writes a peer already holds are harmless. */
  lemma {:induction false} ReplayAbsorbsPrefix(log: seq<Range>, m: nat, file: bytes)
    requires m <= |log|
    ensures Apply(log, Apply(log[..m], file)) == Apply(log, file)
  {
    var p := log[..m];
    var once, twice := Apply(log, file), Apply(p + log, file);
    ApplyConcat(p, log, file);
    ApplyAt(log, file);
    ApplyAt(p + log, file);
    LastWriteOfConcat(p, log, 0);
    LastWriteOfConcat(p, log[m..], 0);
    assert p + log[m..] == log;
    forall i | 0 <= i < |once|
      ensures once[i] == twice[i]
    {
      LastWriteOfConcat(p, log, i);
      LastWriteOfConcat(p, log[m..], i);
    }
  }

  // ----- writes inside the file

  /** A write inside the file replaces exactly its own range. */
  lemma SpliceInside(file: bytes, off: nat, data: bytes)
    requires off + |data| <= |file|
    ensures |Splice(file, off, data)| == |file|
    ensures Splice(file, off, data) == file[..off] + data + file[off + |data|..]
    ensures Splice(file, off, data)[off..off + |data|] == data
    ensures forall k | off + |data| <= k < |file| :: Splice(file, off, data)[k] == file[k]
  {
  }

  /** ... and no other. */
  lemma SpliceElsewhere(file: bytes, off: nat, data: bytes, lo: nat, hi: nat)
    requires off + |data| <= |file|
    requires lo <= hi <= |file| && (hi <= off || off + |data| <= lo)
    ensures |Splice(file, off, data)| == |file|
    ensures Splice(file, off, data)[lo..hi] == file[lo..hi]
  {
  }
}
