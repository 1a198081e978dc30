/** Whole runs of commands, from `create` on, and what a revocation means to everybody who opens the
    vault afterwards. */
module Runs {

  import opened Bytes
  import opened Results
  import opened Crypto
  import opened Format
  import opened Headers
  import opened Container
  import opened Model
  import opened Shelf
  import opened Image
  import opened Vaults
  import opened Opening

  // ----- revocation, seen from outside

  lemma RevocationTakesOneGrant(m: Model, signing: Arr32, password: bytes, pub: Arr32)
    ensures var cmd, m' := Revoke(signing, password), After(m, Revoke(signing, password));
            Answer(m, cmd).Ok? ==>
              && m'.files == m.files && m'.password == password
              && (HoldsGrant(m', pub) <==> exists s :: s in m.grants && s != signing && m.grants[s] == pub)
  {
    var m' := After(m, Revoke(signing, password));
    if Refusal(m, Revoke(signing, password)).None? {
      if s :| s in m.grants && s != signing && m.grants[s] == pub {
        assert s in m'.grants && m'.grants[s] == pub;
      }
    }
  }

  /** What a valid handle says about the bytes it stands on. */
  lemma Standing(v: Vault)
    requires v.Valid()
    ensures Represents(v.c, v.file, v.img.st) && Healthy(v.c, v.img) && v.header == v.img.st.header && v.key == v.img.key
    ensures AdminSlotOk(v.c, v.header.keys, v.View().password, v.key)
    ensures v.View().nextSeq == v.header.layout.chainNextSeq
  {
    ModelFields(v.img, v.admin.Some?);
    hide Represents, ShelfOk, KeyringOk, ChainOk;
  }

  lemma SameButAdmin(img: Image, a: bool, b: bool, pub: Arr32)
    requires |img.recs| == |img.st.entries|
    ensures ModelOf(img, a).files == ModelOf(img, b).files
    ensures HoldsGrant(ModelOf(img, a), pub) <==> HoldsGrant(ModelOf(img, b), pub)
  {
    ModelFields(img, a);
    ModelFields(img, b);
  }

  /** After a revocation, whoever tries to open the vault as a peer gets in exactly when another grant,
      not the revoked one, is made out to them, and then reads the same files as before; the password
      supplied with the revocation -- whatever it was -- is the one that opens the vault from now on. */
  method RevokeThenOpen(v: Vault, signing: Arr32, password: bytes, dek: Key, seeds: nat -> bytes, sealSeed: bytes,
                        ts: i64, peer: Identity, who: Identity)
    returns (r: Result<()>, asPeer: Result<Vault>, asAdmin: Result<Vault>)
    requires v.Valid() && v.header.layout.chainNextSeq + 1 < U64
    modifies v, v.allocator
    ensures r == Answer(old(v.View()), Revoke(signing, password))
    ensures r.Ok? ==>
              && (asPeer.Ok? <==> exists s :: s in old(v.View()).grants && s != signing
                                              && old(v.View()).grants[s] == v.c.encPub(peer.encSecret))
              && (asPeer.Ok? ==> asPeer.value.Valid() && asPeer.value.View().files == old(v.View()).files)
              && asAdmin.Ok? && asAdmin.value.Valid() && asAdmin.value.View().files == old(v.View()).files
  {
    hide Vault.ValidFor, Represents, Healthy, ModelOf, HoldsGrant, TotalNeed, Refusal, Accepted, After, Answer, AdminSlotOk;
    r := v.RevokeAccess(signing, password, dek, seeds, sealSeed, ts);
    Standing(v);
    ghost var pub := v.c.encPub(peer.encSecret);
    RevocationTakesOneGrant(old(v.View()), signing, password, pub);
    SameButAdmin(v.img, v.admin.Some?, false, pub);
    SameButAdmin(v.img, v.admin.Some?, v.c.signPub(who.signSecret) == v.header.keys.adminSigning, pub);
    asPeer := OpenAsRecipient(v.c, v.file, peer, v.img);
    asAdmin := Open(v.c, v.file, password, who, v.img);
  }

  // ----- runs

  /** A command with the randomness and the clock reading it is given. */
  datatype Job = Job(cmd: Cmd, id: u128, ts: i64, dek: Key, seed: bytes, seeds: nat -> bytes)

  predicate Loadable(cmd: Cmd) {
    match cmd
    case Add(_, data) => |data| < U63
    case Update(_, data) => |data| < U63
    case _ => true
  }

  function Commands(jobs: seq<Job>): (cmds: seq<Cmd>)
    ensures |cmds| == |jobs|
  {
    seq(|jobs|, k requires 0 <= k < |jobs| => jobs[k].cmd)
  }

  method Perform(v: Vault, job: Job) returns (r: Result<()>)
    requires v.Valid() && v.header.layout.chainNextSeq + 1 < U64 && Loadable(job.cmd)
    modifies v, v.allocator
    ensures v.Performed(job.cmd, r)
  {
    match job.cmd {
      case Add(name, data) => r := v.AddFile(name, data, job.id, job.ts);
      case Update(name, data) => r := v.UpdateFile(name, data, job.ts);
      case Delete(name) => r := v.DeleteFile(name, job.ts);
      case Grant(peer) => r := v.GrantAccess(peer, job.seed, job.ts);
      case Revoke(signing, password) => r := v.RevokeAccess(signing, password, job.dek, job.seeds, job.seed, job.ts);
    }
  }

  lemma SeqOfView(v: Vault)
    requires v.Valid()
    ensures v.View().nextSeq == v.header.layout.chainNextSeq
  {
    ModelFields(v.img, v.admin.Some?);
  }

  lemma AtMostOneStep(m: Model, cmd: Cmd)
    ensures After(m, cmd).nextSeq == m.nextSeq + (if Refusal(m, cmd).None? then 1 else 0)
  {
  }

  lemma OneMoreCommand(m: Model, cmds: seq<Cmd>, n: nat)
    requires n < |cmds|
    ensures AfterAll(m, cmds[..n + 1]) == After(AfterAll(m, cmds[..n]), cmds[n])
  {
    assert cmds[..n + 1][..n] == cmds[..n];
  }

  /** Over every run, the vault behaves as the model does, command by command; and everything it wrote
      is in its change log. */
  method Run(v: Vault, jobs: seq<Job>) returns (answers: seq<Result<()>>)
    requires v.Valid() && v.header.layout.chainNextSeq + |jobs| < U64
    requires forall k | 0 <= k < |jobs| :: Loadable(jobs[k].cmd)
    modifies v, v.allocator
    ensures v.Valid() && v.allocator == old(v.allocator) && |answers| == |jobs|
    ensures v.View() == AfterAll(old(v.View()), Commands(jobs))
    ensures forall k | 0 <= k < |jobs| ::
              answers[k] == Answer(AfterAll(old(v.View()), Commands(jobs)[..k]), Commands(jobs)[k])
    ensures v.base == old(v.base) && old(v.changeLog) <= v.changeLog
  {
    hide Vault.ValidFor, Vault.View, Answer, After, Loadable;
    answers := [];
    ghost var m, cmds := v.View(), Commands(jobs);
    for n := 0 to |jobs|
      invariant v.Valid() && v.allocator == old(v.allocator) && v.base == old(v.base) && old(v.changeLog) <= v.changeLog
      invariant v.View() == AfterAll(m, cmds[..n]) && |answers| == n
      invariant v.header.layout.chainNextSeq + (|jobs| - n) < U64
      invariant forall k | 0 <= k < n :: answers[k] == Answer(AfterAll(m, cmds[..k]), cmds[k])
    {
      ghost var before := v.View();
      SeqOfView(v);
      var r := Perform(v, jobs[n]);
      SeqOfView(v);
      AtMostOneStep(before, jobs[n].cmd);
      OneMoreCommand(m, cmds, n);
      answers := answers + [r];
    }
    assert cmds[..|jobs|] == cmds;
  }

  // ----- the whole life of a vault

  /** An empty vault, as its creator sees it. */
  ghost function NewModel(capacity: nat, password: bytes): Model {
    Model(map[], map[], capacity / BLOCK_SIZE, GeometryFor(capacity).maxFiles, true, 1, password)
  }

  /** Exactly the names with contents are listed, each once. */
  ghost predicate ListsLastStored(listed: seq<FileInfo>, m: Model, cmds: seq<Cmd>) {
    && (forall k | 0 <= k < |listed| :: LastStored(m, cmds, listed[k].name).Some?)
    && (forall n | LastStored(m, cmds, n).Some? :: exists k :: 0 <= k < |listed| && listed[k].name == n)
    && (forall i, j | 0 <= i < j < |listed| :: listed[i].name != listed[j].name)
  }

  lemma ListingIsLastStored(listed: seq<FileInfo>, m: Model, cmds: seq<Cmd>)
    requires forall k | 0 <= k < |listed| :: listed[k].name in AfterAll(m, cmds).files
    requires forall n | n in AfterAll(m, cmds).files :: exists k :: 0 <= k < |listed| && listed[k].name == n
    requires forall i, j | 0 <= i < j < |listed| :: listed[i].name != listed[j].name
    ensures ListsLastStored(listed, m, cmds)
  {
    hide AfterAll, LastStored;
    forall n: Name {
      FilesHoldLastStored(m, cmds, n);
    }
  }

  /** From `create`, through any run of commands, a read returns exactly the contents stored last under
      that name, and the listing names exactly the files present, each once. */
  method Lifetime(c: Suite, name: text, description: text, capacity: u64, password: bytes, who: Identity,
                  salt: Arr16, dek: Key, seed: bytes, ts: i64, jobs: seq<Job>, wanted: Name)
    returns (r: Result<(Result<bytes>, seq<FileInfo>)>)
    requires GeometryFor(capacity).Total() < U64 && |jobs| + 1 < U64
    requires forall k | 0 <= k < |jobs| :: Loadable(jobs[k].cmd)
    ensures r.Ok? <==> |name| <= MAX_NAME_LEN && |description| <= MAX_DESC_LEN && capacity >= BLOCK_SIZE
    ensures r.Ok? ==>
              && r.value.0 == (match LastStored(NewModel(capacity, password), Commands(jobs), wanted)
                               case Some(data) => Ok(data)
                               case None => Err(FileNotFound(wanted)))
              && ListsLastStored(r.value.1, NewModel(capacity, password), Commands(jobs))
  {
    ghost var m, cmds := NewModel(capacity, password), Commands(jobs);
    hide Vault.ValidFor, ModelOf, AfterAll, LastStored, GeometryFor, Loadable, ListsLastStored, Commands;
    var v :- Create(c, name, description, capacity, password, who, salt, dek, seed, ts);
    SeqOfView(v);
    var answers := Run(v, jobs);
    FilesHoldLastStored(m, cmds, wanted);
    var contents := v.ReadFile(wanted);
    var listed :- v.ListFiles();
    assert v.View() == AfterAll(m, cmds);
    ListingIsLastStored(listed, m, cmds);
    r := Ok((contents, listed));
  }
}
