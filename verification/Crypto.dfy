/** The cryptographic primitives, as parameters. Nothing is assumed of them beyond the inverse laws
    and output lengths collected in `Lawful`; randomness is an explicit `seed`. */
module Crypto {

  import opened Bytes
  import opened Results

  type Key = Arr32

  datatype Identity = Identity(signSecret: Arr32, encSecret: Arr32)

  datatype PeerId = PeerId(signing: Arr32, encryption: Arr32)

  datatype Argon = Argon(mCost: u32, tCost: u32, pCost: u32)

  datatype Primitives = Primitives(
    hash: bytes -> Arr32,                             // SHA-256
    derive: (bytes, Arr16, Argon) -> Key,             // password and salt to key-encryption key
    seal: (Key, bytes, bytes) -> bytes,               // encrypt_random_nonce: key, plaintext, seed
    unseal: (Key, bytes) -> Option<bytes>,
    encBlock: (Key, u128, nat, bytes) -> bytes,       // key, file id, block index, plaintext
    decBlock: (Key, u128, nat, bytes) -> Option<bytes>,
    wrap: (Arr32, Key, bytes) -> bytes,               // recipient's public key, content key, seed
    unwrap: (Arr32, bytes) -> Option<Key>,            // recipient's secret key, wrapped key
    encPub: Arr32 -> Arr32,
    signPub: Arr32 -> Arr32,
    sign: (Arr32, bytes) -> Arr64,
    verify: (Arr32, bytes, Arr64) -> bool,
    dh: (Arr32, Arr32) -> Arr32,                      // X25519: secret, public
    encPacket: (Key, bytes, bytes) -> bytes,          // session key, nonce, plaintext
    decPacket: (Key, bytes, bytes) -> Option<bytes>,
    lossy: bytes -> text)                             // String::from_utf8_lossy
  {
    function Peer(who: Identity): PeerId {
      PeerId(signPub(who.signSecret), encPub(who.encSecret))
    }

    ghost predicate BlocksLawful() {
      forall k: Key, id: u128, i: nat, p: bytes ::
        |encBlock(k, id, i, p)| == |p| + 16 && decBlock(k, id, i, encBlock(k, id, i, p)) == Some(p)
    }

    ghost predicate SealLawful() {
      forall k: Key, p: bytes, seed: bytes ::
        |seal(k, p, seed)| == |p| + 28 && unseal(k, seal(k, p, seed)) == Some(p)
    }

    ghost predicate WrapLawful() {
      && (forall pub: Arr32, dek: Key, seed: bytes :: |wrap(pub, dek, seed)| == WRAPPED_LEN)
      && forall sk: Arr32, dek: Key, seed: bytes :: unwrap(sk, wrap(encPub(sk), dek, seed)) == Some(dek)
    }

    ghost predicate SignLawful() {
      forall sk: Arr32, m: bytes :: verify(signPub(sk), m, sign(sk, m))
    }

    ghost predicate AgreementLawful() {
      forall a: Arr32, b: Arr32 :: dh(a, encPub(b)) == dh(b, encPub(a))
    }

    ghost predicate PacketsLawful() {
      forall k: Key, nonce: bytes, p: bytes ::
        |encPacket(k, nonce, p)| == |p| + 16 && decPacket(k, nonce, encPacket(k, nonce, p)) == Some(p)
    }

    ghost predicate Lawful() {
      && BlocksLawful() && SealLawful() && WrapLawful() && SignLawful() && PacketsLawful() && AgreementLawful()
      && (forall s: text :: lossy(s) == s)
    }
  }

  const WRAPPED_LEN: nat := 92

  /** Primitives that keep no secrets but obey every law: the laws are consistent. */
  ghost function Transparent(): Primitives {
    var drop := (s: bytes, n: nat) => if |s| < n then None else Some(s[n..]);
    Primitives(
      _ => Zeros(32), (_, _, _) => Zeros(32),
      (k, p: bytes, seed) => Zeros(28) + p, (k, s) => drop(s, 28),
      (k, id, i, p: bytes) => Zeros(16) + p, (k, id, i, s) => drop(s, 16),
      (pub, dek: Key, seed) => Zeros(60) + dek, (sk, s: bytes) => if |s| != 92 then None else Some(s[60..]),
      sk => sk, sk => sk, (sk, m) => Zeros(64), (pub, m, sig) => true, (sk, pk) => Zeros(32),
      (k, nonce, p: bytes) => Zeros(16) + p, (k, nonce, s) => drop(s, 16),
      (s: bytes) => if ValidUtf8(s) then s else [])
  }

  lemma LawsAreConsistent()
    ensures Transparent().Lawful()
  {
  }

  type Suite = c: Primitives | c.Lawful() ghost witness (LawsAreConsistent(); Transparent())

  lemma DecBlockOfEncBlock(c: Suite, k: Key, id: u128, i: nat, p: bytes)
    ensures |c.encBlock(k, id, i, p)| == |p| + 16
    ensures c.decBlock(k, id, i, c.encBlock(k, id, i, p)) == Some(p)
  {
  }
}
