/**
 * The cryptographic interface. Every primitive is an arbitrary total function; Sound() states the only
 * facts about them that the theorems use. Each theorem holds for every value of this type that is Sound().
 */
module Crypto {
  import opened Bytes

  const HASH_SIZE: nat := 48
  const KEY_SIZE: nat := 32
  const TAG_SIZE: nat := 16
  const ECC_KEY_SIZE: nat := 48
  const ECC_POINT_SIZE: nat := 96
  const ECC_SIG_SIZE: nat := 96
  const RANDOM_SIZE: nat := 32

  datatype Crypto = Crypto(
    hash: bytes -> bytes,
    hmac: (bytes, bytes) -> bytes,
    extract: (bytes, bytes) -> bytes,
    expand: (bytes, bytes, nat) -> bytes,
    // key, IV, associated data, plaintext -> ciphertext and tag; open is its partial inverse
    seal: (bytes, bytes, bytes, bytes) -> bytes,
    open: (bytes, bytes, bytes, bytes) -> Option<bytes>,
    ecPub: bytes -> bytes,
    ecShared: (bytes, bytes) -> Option<bytes>,
    sign: (bytes, bytes, bytes) -> bytes,
    verify: (bytes, bytes, bytes) -> bool,
    // ML-DSA: level, key, context string, message, signature
    pqcVerify: (nat, bytes, bytes, bytes, bytes) -> bool)
  {
    ghost predicate Sizes() {
      && (forall m :: |hash(m)| == HASH_SIZE)
      && (forall k, m :: |hmac(k, m)| == HASH_SIZE)
      && (forall s, info, n :: |expand(s, info, n)| == n)
      && (forall a :: |ecPub(a)| == ECC_POINT_SIZE)
      && (forall a, m, r :: |sign(a, m, r)| == ECC_SIG_SIZE)
    }

    ghost predicate AeadCorrect() {
      && (forall k, iv, aad, p :: |seal(k, iv, aad, p)| == |p| + TAG_SIZE)
      && (forall k, iv, aad, p :: open(k, iv, aad, seal(k, iv, aad, p)) == Some(p))
    }

    ghost predicate KeyAgreement() {
      forall a, b :: ecShared(a, ecPub(b)).Some? && ecShared(a, ecPub(b)) == ecShared(b, ecPub(a))
    }

    ghost predicate SignatureCorrect() {
      forall a, m, r :: verify(ecPub(a), m, sign(a, m, r))
    }

    ghost predicate Sound() {
      Sizes() && AeadCorrect() && KeyAgreement() && SignatureCorrect()
    }
  }

  /** An interface that encrypts nothing and accepts every signature. */
  function Toy(): Crypto {
    Crypto(m => Zeros(HASH_SIZE), (k, m) => Zeros(HASH_SIZE), (s, k) => Zeros(HASH_SIZE), (s: bytes, info: bytes, n: nat) => Zeros(n),
           (k, iv, aad, p) => p + Zeros(TAG_SIZE),
           (k, iv, aad, x) => if |x| < TAG_SIZE then None else Some(x[..|x| - TAG_SIZE]),
           a => Zeros(ECC_POINT_SIZE), (a, q) => Some([]), (a, m, r) => Zeros(ECC_SIG_SIZE), (q, m, s) => true, (l, q, x, m, s) => true)
  }

  lemma ToyOpens(k: bytes, iv: bytes, aad: bytes, p: bytes)
    ensures |Toy().seal(k, iv, aad, p)| == |p| + TAG_SIZE && Toy().open(k, iv, aad, Toy().seal(k, iv, aad, p)) == Some(p)
  {
    assert (p + Zeros(TAG_SIZE))[..|p|] == p;
  }

  lemma ToyAead()
    ensures Toy().AeadCorrect()
  {
    hide Toy;
    forall k, iv, aad, p: bytes
      ensures |Toy().seal(k, iv, aad, p)| == |p| + TAG_SIZE && Toy().open(k, iv, aad, Toy().seal(k, iv, aad, p)) == Some(p)
    {
      ToyOpens(k, iv, aad, p);
    }
  }

  lemma ToyRest()
    ensures Toy().Sizes() && Toy().KeyAgreement() && Toy().SignatureCorrect()
  {
    hide Zeros;
  }

  /** The hypotheses of the theorems can all be met at once. */
  lemma Satisfiable()
    ensures exists c: Crypto :: c.Sound()
  {
    hide Toy;
    ToyAead();
    ToyRest();
    assert Toy().Sound();
  }

  /** An entropy source: the bytes returned by the i-th request for n random bytes. */
  type Entropy = (nat, nat) -> bytes

  ghost predicate Sized(rnd: Entropy) {
    forall i, n :: |rnd(i, n)| == n
  }

  // ----- DSP0277 key schedule (spdm_kdf.c) -----

  function Prefix(ver: byte): bytes {
    if ver >= 0x14 then Ascii("spdm1.4 ") else if ver >= 0x13 then Ascii("spdm1.3 ") else Ascii("spdm1.2 ")
  }

  /** HKDF-Expand over Length (2, little-endian) || version prefix || label || context. */
  function ExpandLabel(c: Crypto, ver: byte, secret: bytes, what: string, context: bytes, n: nat): bytes {
    c.expand(secret, LE(n, 2) + Prefix(ver) + Ascii(what) + context, n)
  }

  function TrafficKey(c: Crypto, ver: byte, secret: bytes): bytes {
    ExpandLabel(c, ver, secret, "key", [], KEY_SIZE)
  }

  function TrafficIv(c: Crypto, ver: byte, secret: bytes): bytes {
    ExpandLabel(c, ver, secret, "iv", [], IV_SIZE)
  }

  function FinishedKey(c: Crypto, ver: byte, secret: bytes): bytes {
    ExpandLabel(c, ver, secret, "finished", [], HASH_SIZE)
  }

  function MasterSecret(c: Crypto, ver: byte, handshake: bytes): bytes {
    c.extract(ExpandLabel(c, ver, handshake, "derived", [], HASH_SIZE), Zeros(HASH_SIZE))
  }

  /** The next generation of an application secret. */
  function NextSecret(c: Crypto, ver: byte, secret: bytes): bytes {
    ExpandLabel(c, ver, secret, "traffic upd", [], HASH_SIZE)
  }

  /** The versions that can be negotiated, and their minor digit. */
  predicate Negotiable(ver: byte) {
    ver == 0x12 || ver == 0x13 || ver == 0x14
  }

  function Minor(ver: byte): char {
    if ver == 0x12 then '2' else if ver == 0x13 then '3' else '4'
  }

  lemma AsciiJoins(s: string, t: string)
    ensures Ascii(s + t) == Ascii(s) + Ascii(t)
  {
  }

  /** The info of HKDF-Expand in full: length, "spdm1.x ", label, context. */
  lemma ExpandInput(c: Crypto, ver: byte, secret: bytes, what: string, context: bytes, n: nat)
    requires Negotiable(ver)
    ensures ExpandLabel(c, ver, secret, what, context, n)
         == c.expand(secret, LE(n, 2) + Ascii("spdm1." + [Minor(ver)] + " " + what) + context, n)
  {
    hide LE, Ascii;
    AsciiJoins("spdm1." + [Minor(ver)] + " ", what);
    assert "spdm1." + [Minor(ver)] + " " == if ver == 0x12 then "spdm1.2 " else if ver == 0x13 then "spdm1.3 " else "spdm1.4 ";
    assert LE(n, 2) + Prefix(ver) + Ascii(what) == LE(n, 2) + (Prefix(ver) + Ascii(what));
  }

  lemma ExpandAlone(c: Crypto, ver: byte, secret: bytes, what: string, n: nat)
    requires Negotiable(ver)
    ensures ExpandLabel(c, ver, secret, what, [], n) == c.expand(secret, LE(n, 2) + Ascii("spdm1." + [Minor(ver)] + " " + what), n)
  {
    hide LE, Ascii, ExpandLabel;
    ExpandInput(c, ver, secret, what, [], n);
    var info := LE(n, 2) + Ascii("spdm1." + [Minor(ver)] + " " + what);
    assert info + [] == info;
  }

  /** Every derivation of the key schedule, spelled out as the HKDF calls of DSP0277. */
  lemma ScheduleInputs(c: Crypto, ver: byte, secret: bytes)
    requires Negotiable(ver)
    ensures
      var v := "spdm1." + [Minor(ver)];
      && TrafficKey(c, ver, secret) == c.expand(secret, [32, 0] + Ascii(v + " key"), 32)
      && TrafficIv(c, ver, secret) == c.expand(secret, [12, 0] + Ascii(v + " iv"), 12)
      && FinishedKey(c, ver, secret) == c.expand(secret, [48, 0] + Ascii(v + " finished"), 48)
      && MasterSecret(c, ver, secret) == c.extract(c.expand(secret, [48, 0] + Ascii(v + " derived"), 48), Zeros(48))
      && NextSecret(c, ver, secret) == c.expand(secret, [48, 0] + Ascii(v + " traffic upd"), 48)
  {
    hide ExpandLabel, Ascii;
    var v := "spdm1." + [Minor(ver)];
    assert LE(32, 1) == [32] && LE(12, 1) == [12] && LE(48, 1) == [48] && LE(0, 1) == [0];
    assert LE(32, 2) == [32, 0] && LE(12, 2) == [12, 0] && LE(48, 2) == [48, 0];
    ExpandAlone(c, ver, secret, "key", 32);
    ExpandAlone(c, ver, secret, "iv", 12);
    ExpandAlone(c, ver, secret, "finished", 48);
    ExpandAlone(c, ver, secret, "derived", 48);
    ExpandAlone(c, ver, secret, "traffic upd", 48);
    assert v + " " + "key" == v + " key" && v + " " + "iv" == v + " iv" && v + " " + "finished" == v + " finished";
    assert v + " " + "derived" == v + " derived" && v + " " + "traffic upd" == v + " traffic upd";
  }

  // ----- DSP0274 signing input (spdm_msg.c) -----

  function SigningPrefix(ver: byte): bytes {
    var major := 0x30 + ver / 16;
    var minor := 0x30 + ver % 16;
    Ascii("dmtf-spdm-v") + [major] + Ascii(".") + [minor] + Ascii(".*")
  }

  /** combined_spdm_prefix, zero padding to 36 bytes, context string, digest. */
  function SignedMessage(ver: byte, context: string, digest: bytes): bytes
    requires |context| <= 36
  {
    var p := SigningPrefix(ver);
    p + p + p + p + Zeros(36 - |context|) + Ascii(context) + digest
  }
  /** combined_spdm_prefix is 100 bytes: "dmtf-spdm-v1.x.*" four times, then the context string at the right end of the rest. */
  lemma SigningInput(ver: byte, context: string, digest: bytes)
    requires Negotiable(ver) && |context| <= 36
    ensures
      var m := SignedMessage(ver, context, digest);
      var p := Ascii("dmtf-spdm-v1." + [Minor(ver)] + ".*");
      && |p| == 16 && |m| == 100 + |digest| && m[100..] == digest
      && m[..16] == m[16..32] == m[32..48] == m[48..64] == p
      && m[64..100] == Zeros(36 - |context|) + Ascii(context)
  {
    hide Ascii, Zeros;
    PrefixSpelled(ver);
    var p := SigningPrefix(ver);
    var tail := Zeros(36 - |context|) + Ascii(context);
    assert SignedMessage(ver, context, digest) == p + p + p + p + tail + digest;
  }

  lemma PrefixSpelled(ver: byte)
    requires Negotiable(ver)
    ensures SigningPrefix(ver) == Ascii("dmtf-spdm-v1." + [Minor(ver)] + ".*")
  {
    hide Ascii;
    var all := "dmtf-spdm-v1." + [Minor(ver)] + ".*";
    assert all == "dmtf-spdm-v" + ("1" + ("." + ([Minor(ver)] + ".*")));
    AsciiJoins("dmtf-spdm-v", "1" + ("." + ([Minor(ver)] + ".*")));
    AsciiJoins("1", "." + ([Minor(ver)] + ".*"));
    AsciiJoins(".", [Minor(ver)] + ".*");
    AsciiJoins([Minor(ver)], ".*");
    Digits(ver);
  }

  lemma Digits(ver: byte)
    requires Negotiable(ver)
    ensures Ascii("1") == [0x30 + ver / 16] && Ascii([Minor(ver)]) == [0x30 + ver % 16]
  {
  }
}
