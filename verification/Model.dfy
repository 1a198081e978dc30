/** What a vault is, seen from outside: a map from names to contents, a map of granted peers, and a
    budget of blocks. The vault engine is proved to refine this. */
module Model {

  import opened Bytes
  import opened Results
  import opened Crypto
  import opened Format
  import opened Content
  import opened Tables

  type Name = text

  datatype Model = Model(
    files: map<Name, bytes>, grants: map<Arr32, Arr32>, blockCount: nat, maxFiles: nat,
    admin: bool, nextSeq: nat, password: bytes)
  {
    ghost function Free(): int {
      blockCount - TotalNeed(files)
    }
  }

  // ----- space

  ghost function Pick(files: map<Name, bytes>): Name
    requires files != map[]
    ensures Pick(files) in files
  {
    var n :| n in files;
    n
  }

  /** The blocks a collection of files occupies. */
  ghost function TotalNeed(files: map<Name, bytes>): nat {
    if files == map[] then 0
    else
      Need(|files[Pick(files)]|) + TotalNeed(files - {Pick(files)})
  }

  /** In whatever order they are counted. */
  lemma {:induction false} TotalNeedRemove(files: map<Name, bytes>, n: Name)
    requires n in files
    ensures TotalNeed(files) == Need(|files[n]|) + TotalNeed(files - {n})
    decreases |files|
  {
    hide Need;
    var k := Pick(files);
    if k != n {
      TotalNeedRemove(files - {k}, n);
      TotalNeedRemove(files - {n}, k);
      assert files - {k} - {n} == files - {n} - {k};
    }
  }

  lemma TotalNeedPut(files: map<Name, bytes>, n: Name, data: bytes)
    ensures TotalNeed(files[n := data])
         == TotalNeed(files) - (if n in files then Need(|files[n]|) else 0) + Need(|data|)
  {
    TotalNeedRemove(files[n := data], n);
    if n in files {
      TotalNeedRemove(files, n);
      assert files[n := data] - {n} == files - {n};
    } else {
      assert files[n := data] - {n} == files;
    }
  }

  ghost function TableNeed(t: Table<Name, bytes>): nat {
    if t == [] then 0
    else TableNeed(t[..|t| - 1]) + (if t[|t| - 1].Some? then Need(|t[|t| - 1].value.1|) else 0)
  }

  lemma {:induction false} TableNeedIsTotalNeed(t: Table<Name, bytes>)
    requires Distinct(t)
    ensures TableNeed(t) == TotalNeed(AsMap(t))
  {
    if t != [] {
      var n := |t| - 1;
      TableNeedIsTotalNeed(t[..n]);
      if t[n].Some? {
        if t[n].value.0 in AsMap(t[..n]) {
          var j := FindRow(t[..n], t[n].value.0);
        }
        TotalNeedPut(AsMap(t[..n]), t[n].value.0, t[n].value.1);
      }
    }
  }

  // ----- operations

  datatype Cmd =
    | Add(name: Name, data: bytes)
    | Update(name: Name, data: bytes)
    | Delete(name: Name)
    | Grant(peer: PeerId)
    | Revoke(signing: Arr32, password: bytes)

  function InsufficientSpaceFor(requested: nat, available: int): Error {
    InsufficientSpace(requested * BLOCK_SIZE, if available < 0 then 0 else available * BLOCK_SIZE)
  }

  /** The error a command meets, checked in the source's order. */
  ghost function Refusal(m: Model, cmd: Cmd): Option<Error> {
    if !m.admin then Some(NotAuthorized)
    else
      match cmd
      case Add(name, data) =>
        if name == [] || |name| > MAX_FILENAME_LEN then Some(FieldTooLong)
        else if name in m.files then Some(FileAlreadyExists(name))
        else if |m.files| == m.maxFiles then Some(FileTableFull)
        else if m.Free() < Need(|data|) then Some(InsufficientSpaceFor(Need(|data|), m.Free()))
        else None
      case Update(name, data) =>
        if name !in m.files then Some(FileNotFound(name))
        else
          var available := m.Free() + Need(|m.files[name]|);
          if available < Need(|data|) then Some(InsufficientSpaceFor(Need(|data|), available)) else None
      case Delete(name) =>
        if name !in m.files then Some(FileNotFound(name)) else None
      case Grant(peer) =>
        if peer.signing in m.grants then Some(AlreadyGranted)
        else if |m.grants| == MAX_RECIPIENTS then Some(RecipientTableFull)
        else None
      case Revoke(signing, _) =>
        if signing !in m.grants then Some(AccessNotGranted) else None
  }

  /** What an accepted command does. */
  ghost function Accepted(m: Model, cmd: Cmd): Model
  {
    var next := m.(nextSeq := m.nextSeq + 1);
    match cmd
    case Add(name, data) => next.(files := m.files[name := data])
    case Update(name, data) => next.(files := m.files[name := data])
    case Delete(name) => next.(files := m.files - {name})
    case Grant(peer) => next.(grants := m.grants[peer.signing := peer.encryption])
    case Revoke(signing, password) => next.(grants := m.grants - {signing}, password := password)
  }

  ghost function After(m: Model, cmd: Cmd): Model {
    if Refusal(m, cmd).None? then Accepted(m, cmd) else m
  }

  ghost function Answer(m: Model, cmd: Cmd): Result<()> {
    match Refusal(m, cmd)
    case None => Ok(())
    case Some(e) => Err(e)
  }

  ghost function AfterAll(m: Model, cmds: seq<Cmd>): Model {
    if cmds == [] then m else After(AfterAll(m, cmds[..|cmds| - 1]), cmds[|cmds| - 1])
  }

  /** A refused command changes nothing; an accepted one does exactly what `Accepted` says. */
  lemma Outcome(m: Model, cmd: Cmd)
    ensures Refusal(m, cmd).Some? ==> Answer(m, cmd) == Err(Refusal(m, cmd).value) && After(m, cmd) == m
    ensures Refusal(m, cmd).None? ==> Answer(m, cmd) == Ok(()) && After(m, cmd) == Accepted(m, cmd)
  {
  }

  // ----- what every command answers and does, condition by condition

  ghost predicate AddAnswered(m: Model, name: Name, data: bytes, r: Result<()>, m': Model) {
    && (r.Ok? <==> m.admin && 1 <= |name| <= 128 && name !in m.files && |m.files| < m.maxFiles && Need(|data|) <= m.Free())
    && (r.Ok? ==> m' == m.(files := m.files[name := data], nextSeq := m.nextSeq + 1))
    && (r.Err? ==> m' == m && if !m.admin then r.error == NotAuthorized
                              else if !(1 <= |name| <= 128) then r.error == FieldTooLong
                              else if name in m.files then r.error == FileAlreadyExists(name)
                              else if |m.files| == m.maxFiles then r.error == FileTableFull
                              else m.Free() >= 0 && r.error == InsufficientSpace(Need(|data|) * 4096, m.Free() * 4096))
  }

  ghost predicate UpdateAnswered(m: Model, name: Name, data: bytes, r: Result<()>, m': Model) {
    && (r.Ok? <==> m.admin && name in m.files && Need(|data|) <= m.Free() + Need(|m.files[name]|))
    && (r.Ok? ==> m' == m.(files := m.files[name := data], nextSeq := m.nextSeq + 1))
    && (r.Err? ==> m' == m && if !m.admin then r.error == NotAuthorized
                              else if name !in m.files then r.error == FileNotFound(name)
                              else m.Free() >= 0 && r.error == InsufficientSpace(Need(|data|) * 4096,
                                                                                 (m.Free() + Need(|m.files[name]|)) * 4096))
  }

  ghost predicate DeleteAnswered(m: Model, name: Name, r: Result<()>, m': Model) {
    && (r.Ok? <==> m.admin && name in m.files)
    && (r.Ok? ==> m' == m.(files := m.files - {name}, nextSeq := m.nextSeq + 1))
    && (r.Err? ==> m' == m && r.error == if !m.admin then NotAuthorized else FileNotFound(name))
  }

  ghost predicate GrantAnswered(m: Model, peer: PeerId, r: Result<()>, m': Model) {
    && (r.Ok? <==> m.admin && peer.signing !in m.grants && |m.grants| < 16)
    && (r.Ok? ==> m' == m.(grants := m.grants[peer.signing := peer.encryption], nextSeq := m.nextSeq + 1))
    && (r.Err? ==> m' == m && r.error == if !m.admin then NotAuthorized
                                         else if peer.signing in m.grants then AlreadyGranted
                                         else RecipientTableFull)
  }

  ghost predicate RevokeAnswered(m: Model, signing: Arr32, password: bytes, r: Result<()>, m': Model) {
    && (r.Ok? <==> m.admin && signing in m.grants)
    && (r.Ok? ==> m' == m.(grants := m.grants - {signing}, password := password, nextSeq := m.nextSeq + 1))
    && (r.Err? ==> m' == m && r.error == if !m.admin then NotAuthorized else AccessNotGranted)
  }

  ghost predicate Answered(m: Model, cmd: Cmd, r: Result<()>, m': Model) {
    match cmd
    case Add(name, data) => AddAnswered(m, name, data, r, m')
    case Update(name, data) => UpdateAnswered(m, name, data, r, m')
    case Delete(name) => DeleteAnswered(m, name, r, m')
    case Grant(peer) => GrantAnswered(m, peer, r, m')
    case Revoke(signing, password) => RevokeAnswered(m, signing, password, r, m')
  }

  lemma DeleteRefusal(m: Model, name: Name)
    ensures Refusal(m, Delete(name)) == if !m.admin then Some(NotAuthorized)
                                        else if name !in m.files then Some(FileNotFound(name)) else None
    ensures Accepted(m, Delete(name)) == m.(files := m.files - {name}, nextSeq := m.nextSeq + 1)
  {
  }

  /** A vault that keeps within its slots and blocks answers every command just so. */
  lemma Outcomes(m: Model, cmd: Cmd)
    requires |m.files| <= m.maxFiles && |m.grants| <= 16 && m.Free() >= 0
    ensures Answered(m, cmd, Answer(m, cmd), After(m, cmd))
  {
    hide Need, TotalNeed;
  }

  /** The block budget is never overdrawn. */
  lemma FreeStaysNonnegative(m: Model, cmd: Cmd)
    requires m.Free() >= 0
    ensures After(m, cmd).Free() >= 0
  {
    if Refusal(m, cmd).None? {
      match cmd {
        case Add(n, d) => TotalNeedPut(m.files, n, d);
        case Update(n, d) => TotalNeedPut(m.files, n, d);
        case Delete(n) => TotalNeedRemove(m.files, n);
        case _ =>
      }
    }
  }

  /** Deleting a file gives back exactly what adding it took, and everything else is as before. */
  lemma AddThenDelete(m: Model, name: Name, data: bytes)
    requires Refusal(m, Add(name, data)).None?
    ensures After(m, Add(name, data)).Free() == m.Free() - Need(|data|)
    ensures After(After(m, Add(name, data)), Delete(name)) == m.(nextSeq := m.nextSeq + 2)
  {
    TotalNeedPut(m.files, name, data);
    assert m.files[name := data] - {name} == m.files;
  }

  /** Updating a file with contents of the same size is always accepted and neutral in space. */
  lemma SameSizeUpdate(m: Model, name: Name, data: bytes)
    requires m.admin && m.Free() >= 0 && name in m.files && |data| == |m.files[name]|
    ensures Refusal(m, Update(name, data)).None?
    ensures After(m, Update(name, data)).Free() == m.Free()
  {
    TotalNeedPut(m.files, name, data);
  }

  // ----- grants

  /** The peer, with exactly these two keys, is granted. */
  predicate HasGrant(m: Model, peer: PeerId) {
    peer.signing in m.grants && m.grants[peer.signing] == peer.encryption
  }

  /** Whether some granted peer has this encryption key. */
  ghost predicate HoldsGrant(m: Model, pub: Arr32) {
    exists signing :: signing in m.grants && m.grants[signing] == pub
  }

  // ----- the last content stored under a name

  /** Read off a run, without any state: the contents given by the last accepted command about `n`. */
  ghost function LastStored(m: Model, cmds: seq<Cmd>, n: Name): Option<bytes> {
    if cmds == [] then (if n in m.files then Some(m.files[n]) else None)
    else
      var before := cmds[..|cmds| - 1];
      var last := cmds[|cmds| - 1];
      if Refusal(AfterAll(m, before), last).Some? then LastStored(m, before, n)
      else
        match last
        case Add(k, d) => if k == n then Some(d) else LastStored(m, before, n)
        case Update(k, d) => if k == n then Some(d) else LastStored(m, before, n)
        case Delete(k) => if k == n then None else LastStored(m, before, n)
        case _ => LastStored(m, before, n)
  }

  function ContentsOf(m: Model, n: Name): Option<bytes> {
    if n in m.files then Some(m.files[n]) else None
  }

  lemma StoredAfter(m: Model, cmd: Cmd, n: Name)
    ensures ContentsOf(After(m, cmd), n)
         == if Refusal(m, cmd).Some? then ContentsOf(m, n)
            else
              match cmd
              case Add(k, d) => if k == n then Some(d) else ContentsOf(m, n)
              case Update(k, d) => if k == n then Some(d) else ContentsOf(m, n)
              case Delete(k) => if k == n then None else ContentsOf(m, n)
              case _ => ContentsOf(m, n)
  {
    hide Refusal;
  }

  lemma {:induction false} FilesHoldLastStored(m: Model, cmds: seq<Cmd>, n: Name)
    ensures var files := AfterAll(m, cmds).files;
            (if n in files then Some(files[n]) else None) == LastStored(m, cmds, n)
  {
    hide After, Refusal;
    if cmds != [] {
      FilesHoldLastStored(m, cmds[..|cmds| - 1], n);
      StoredAfter(AfterAll(m, cmds[..|cmds| - 1]), cmds[|cmds| - 1], n);
    }
  }
}
