/**
 * What the requester accepts, whatever the other end is: for each reply the exact condition, and for a connection that
 * succeeds the proof that the other end must have given.
 */
module Authentication {
  import opened Bytes
  import opened Crypto
  import opened Records
  import opened Context
  import opened RequesterSpec
  import opened Handshake
  import Agreement
  import Codes
  import Negotiation
  import ResponderSpec

  // ----- KEY_EXCHANGE_RSP -----

  /** Where the signature of a KEY_EXCHANGE_RSP starts: after the header, the ECDHE point and the opaque data. */
  function SigOffset(buf: bytes): nat
    requires |buf| >= 138
  {
    138 + Get16(buf, 136)
  }

  /** What the responder signs with its identity key: a transcript, under the context string of the message. */
  function SigningHash(c: Crypto, ver: byte, transcript: bytes): bytes {
    c.hash(SignedMessage(ver, "responder-key_exchange_rsp signing", c.hash(transcript)))
  }

  /** The handshake keys of a session from the shared secret and TH1, each direction from its own secret. */
  function SessionKeys(c: Crypto, ver: byte, handshake: bytes, th1: bytes, k: Keys): Keys {
    var req, rsp := HandshakeSecret(ver, "req hs data", handshake, th1), HandshakeSecret(ver, "rsp hs data", handshake, th1);
    Keys(handshake, FinishedKey(c, ver, Secret(c, req)), FinishedKey(c, ver, Secret(c, rsp)), k.reqApp, k.rspApp,
         Generated(c, req, k.req.num), Generated(c, rsp, k.rsp.num))
  }

  /** The signature verifies under the configured key, over the transcript so far and the response up to the signature. */
  predicate Signed(c: Crypto, x: Ctx, buf: bytes) {
    && |buf| >= 140 && |buf| >= SigOffset(buf) + 144 && x.cfg.rspPub.Some?
    && c.verify(x.cfg.rspPub.value, SigningHash(c, x.ver, x.transcript + buf[..SigOffset(buf)]),
                buf[SigOffset(buf)..SigOffset(buf) + 96])
  }

  /** The shared secret of the requester's ephemeral key and the point in the response. */
  function SharedWith(c: Crypto, x: Ctx, buf: bytes): Option<bytes>
    requires |buf| >= 136
  {
    if x.eph.priv.None? then None else c.ecShared(x.eph.priv.value, buf[40..136])
  }

  /** The session that the response opens, if it does. */
  function ExchangedCtx(c: Crypto, x: Ctx, buf: bytes, shared: bytes): Ctx
    requires |buf| >= 140 && |buf| >= SigOffset(buf) + 144
  {
    var off := SigOffset(buf);
    var th1 := c.hash(x.transcript + buf[..off + 96]);
    x.(transcript := x.transcript + buf[..off + 144], eph := x.eph.(shared := shared), hashes := x.hashes.(th1 := th1),
       keys := SessionKeys(c, x.ver, c.extract(Zeros(48), shared), th1, x.keys),
       sess := Session(Get16(buf, 4), x.cfg.reqSid + 0x1_0000 * Get16(buf, 4), buf[6]), state := KeyEx)
  }

  /** A response is accepted for its signature, and for verify data under the keys that follow from its point. */
  predicate AcceptableExchange(c: Crypto, x: Ctx, buf: bytes) {
    && Signed(c, x, buf) && buf[1] == 0x64 && (x.cfg.mode == Auto ==> buf[6] == 0)
    && |x.transcript| + SigOffset(buf) + 144 <= 16384
    && SharedWith(c, x, buf).Some?
    && var off, x' := SigOffset(buf), ExchangedCtx(c, x, buf, SharedWith(c, x, buf).value);
       buf[off + 96..off + 144] == c.hmac(x'.keys.rspFinished, x'.hashes.th1)
  }

  lemma AgreeKeysMeans(e: Env, x: Ctx, sig: bytes, peer: bytes)
    ensures
      var (x', rc) := AgreeKeys(e, x, sig, peer);
      var shared := if x.eph.priv.None? then None else e.c.ecShared(x.eph.priv.value, peer);
      && (rc == Success <==> |x.transcript| + |sig| <= 16384 && shared.Some?) && rc != BadSignature
      && (rc == Success ==>
            var th1 := e.c.hash(x.transcript + sig);
            x' == x.(transcript := x.transcript + sig, eph := x.eph.(shared := shared.value), hashes := x.hashes.(th1 := th1),
                     keys := SessionKeys(e.c, x.ver, e.c.extract(Zeros(48), shared.value), th1, x.keys)))
  {
    hide HandshakeKeys, SessionKeys, Zeros;
    if x.eph.priv.Some? && e.c.ecShared(x.eph.priv.value, peer).Some? {
      SessionKeysAre(e.c, x.ver, e.c.extract(Zeros(48), e.c.ecShared(x.eph.priv.value, peer).value), e.c.hash(x.transcript + sig), x.keys);
    }
  }

  lemma SessionKeysAre(c: Crypto, ver: byte, handshake: bytes, th1: bytes, k: Keys)
    ensures HandshakeKeys(c, ver, handshake, th1, k) == SessionKeys(c, ver, handshake, th1, k)
  {
    hide HandshakeKeys, Secret, FinishedKey, TrafficKey, TrafficIv;
    HandshakeLineage(c, ver, handshake, th1, k);
  }

  /** The session is opened exactly by the HMAC of TH1 under the responder's finished key, and otherwise nothing changes. */
  lemma SessionOpened(x: Ctx, verify: bytes, rspSid: nat, mutAuth: byte, c: Crypto)
    ensures
      var (x', rc) := OpenSession(x, verify, rspSid, mutAuth, c);
      var good := verify == c.hmac(x.keys.rspFinished, x.hashes.th1);
      && (rc == Success <==> good && |x.transcript| + |verify| <= 16384) && (rc == BadHmac <==> !good) && rc != BadSignature
      && x' == if rc != Success then x
               else x.(transcript := x.transcript + verify, sess := Session(rspSid, x.cfg.reqSid + 0x1_0000 * rspSid, mutAuth), state := KeyEx)
  {
  }

  lemma ThreeSlices(t: bytes, buf: bytes, off: nat)
    requires |buf| >= off + 144
    ensures t + buf[..off] + buf[off..off + 96] == t + buf[..off + 96]
    ensures t + buf[..off + 96] + buf[off + 96..off + 144] == t + buf[..off + 144]
  {
    assert buf[..off] + buf[off..off + 96] == buf[..off + 96];
    assert buf[..off + 96] + buf[off + 96..off + 144] == buf[..off + 144];
  }

  /** A response whose header and length are right, and whose first part the transcript can take. */
  predicate Readable(x: Ctx, buf: bytes) {
    && |buf| >= 140 && |buf| >= SigOffset(buf) + 144 && buf[1] == 0x64 && (x.cfg.mode == Auto ==> buf[6] == 0)
    && |x.transcript| + SigOffset(buf) <= 16384
  }

  lemma SignatureChecked(e: Env, x: Ctx, buf: bytes)
    ensures
      var r := ParseKeyExchangeRsp(e, x, buf);
      if !Readable(x, buf) || x.cfg.rspPub.None? then r.1 != Success && r.1 != BadSignature
      else if !Signed(e.c, x, buf) then r.1 == BadSignature
      else
        var off := SigOffset(buf);
        var (x2, rc) := AgreeKeys(e, x.(transcript := x.transcript + buf[..off]), buf[off..off + 96], buf[40..136]);
        r == if rc != Success then (x2, rc) else OpenSession(x2, buf[off + 96..off + 144], Get16(buf, 4), buf[6], e.c)
  {
    hide AgreeKeys, OpenSession, SignedMessage, GetLE;
  }

  /**
   * Authentication of the responder: a KEY_EXCHANGE_RSP is accepted if and only if it is complete, is signed under the
   * configured key over this requester's own transcript, and carries the HMAC that only the holder of the shared secret
   * can compute; then the session is the one it opens. A wrong signature is reported as such.
   */
  lemma ExchangeAccepted(e: Env, x: Ctx, buf: bytes)
    ensures
      var (x', rc) := ParseKeyExchangeRsp(e, x, buf);
      && (rc == Success <==> AcceptableExchange(e.c, x, buf))
      && (rc == Success ==> x' == ExchangedCtx(e.c, x, buf, SharedWith(e.c, x, buf).value))
      && (rc == BadSignature <==> Readable(x, buf) && x.cfg.rspPub.Some? && !Signed(e.c, x, buf))
  {
    hide ParseKeyExchangeRsp, AgreeKeys, OpenSession, SessionKeys, SigningHash, Get16, Zeros;
    SignatureChecked(e, x, buf);
    if Readable(x, buf) {
      var off := SigOffset(buf);
      var sig := buf[off..off + 96];
      ThreeSlices(x.transcript, buf, off);
      var x1 := x.(transcript := x.transcript + buf[..off]);
      AgreeKeysMeans(e, x1, sig, buf[40..136]);
      SessionOpened(AgreeKeys(e, x1, sig, buf[40..136]).0, buf[off + 96..off + 144], Get16(buf, 4), buf[6], e.c);
    }
  }

  // ----- PSK_EXCHANGE_RSP -----

  function PskOffset(buf: bytes): nat
    requires |buf| >= 12
  {
    12 + Get16(buf, 8) + Get16(buf, 10)
  }

  function PskExchangedCtx(c: Crypto, x: Ctx, buf: bytes): Ctx
    requires |buf| >= 12 && |buf| >= PskOffset(buf) + 48
  {
    var off := PskOffset(buf);
    var th1 := c.hash(x.transcript + buf[..off]);
    x.(transcript := x.transcript + buf[..off + 48], hashes := x.hashes.(th1 := th1), psk := [],
       keys := SessionKeys(c, x.ver, c.extract(Fill(0xFF, 48), x.psk), th1, x.keys),
       sess := Session(Get16(buf, 4), x.cfg.reqSid + 0x1_0000 * Get16(buf, 4), x.sess.mutAuth), state := KeyEx)
  }

  /** Only the holder of the pre-shared key can compute the verify data. */
  predicate AcceptablePskExchange(c: Crypto, x: Ctx, buf: bytes) {
    && |buf| >= 59 && buf[1] == 0x66 && |buf| >= PskOffset(buf) + 48 && |x.transcript| + PskOffset(buf) + 48 <= 16384 && x.psk != []
    && var off, x' := PskOffset(buf), PskExchangedCtx(c, x, buf);
       buf[off..off + 48] == c.hmac(x'.keys.rspFinished, x'.hashes.th1)
  }

  lemma TwoSlices(t: bytes, buf: bytes, off: nat)
    requires |buf| >= off + 48
    ensures t + buf[..off] + buf[off..off + 48] == t + buf[..off + 48]
  {
    assert buf[..off] + buf[off..off + 48] == buf[..off + 48];
  }

  lemma PskHandshakeMeans(e: Env, x: Ctx)
    ensures
      var th1 := e.c.hash(x.transcript);
      ResponderSpec.PskHandshake(e, x)
      == x.(hashes := x.hashes.(th1 := th1), keys := SessionKeys(e.c, x.ver, e.c.extract(Fill(0xFF, 48), x.psk), th1, x.keys), psk := [])
  {
    hide HandshakeKeys, SessionKeys, Fill;
    SessionKeysAre(e.c, x.ver, e.c.extract(Fill(0xFF, 48), x.psk), e.c.hash(x.transcript), x.keys);
  }

  predicate PskReadable(x: Ctx, buf: bytes) {
    |buf| >= 59 && buf[1] == 0x66 && |buf| >= PskOffset(buf) + 48 && |x.transcript| + PskOffset(buf) <= 16384 && x.psk != []
  }

  lemma PskChecked(e: Env, x: Ctx, buf: bytes)
    ensures
      var r := ParsePskExchangeRsp(e, x, buf);
      if !PskReadable(x, buf) then r.1 != Success
      else
        var off := PskOffset(buf);
        var x2 := x.(transcript := x.transcript + buf[..off], hashes := x.hashes.(th1 := e.c.hash(x.transcript + buf[..off])));
        r == OpenSession(ResponderSpec.PskHandshake(e, x2), buf[off..off + 48], Get16(buf, 4), x.sess.mutAuth, e.c)
  {
    hide OpenSession, ResponderSpec.PskHandshake, GetLE;
  }

  lemma PskExchangeAccepted(e: Env, x: Ctx, buf: bytes)
    ensures
      var (x', rc) := ParsePskExchangeRsp(e, x, buf);
      && (rc == Success <==> AcceptablePskExchange(e.c, x, buf))
      && (rc == Success ==> x' == PskExchangedCtx(e.c, x, buf))
  {
    hide ParsePskExchangeRsp, OpenSession, SessionKeys, ResponderSpec.PskHandshake, Get16, Fill;
    PskChecked(e, x, buf);
    if PskReadable(x, buf) {
      var off := PskOffset(buf);
      TwoSlices(x.transcript, buf, off);
      var x2 := x.(transcript := x.transcript + buf[..off], hashes := x.hashes.(th1 := e.c.hash(x.transcript + buf[..off])));
      PskHandshakeMeans(e, x2);
      SessionOpened(ResponderSpec.PskHandshake(e, x2), buf[off..off + 48], Get16(buf, 4), x.sess.mutAuth, e.c);
    }
  }

  // ----- The other replies -----

  /** The fetched key passes if no key is configured, or if it is the configured one, raw or at the end of a TPMT_PUBLIC. */
  predicate KeyMatches(configured: Option<bytes>, key: bytes) {
    configured.None? || (|configured.value| == 96 && (key == configured.value || EndsWith(key, configured.value)))
  }

  /** size(2) = 48, X, size(2) = 48, Y at the end; a key of exactly 96 bytes is the point itself. */
  predicate EndsWith(key: bytes, point: bytes)
    requires |point| == 96
  {
    |key| >= 100 && key[|key| - 100..] == [0, 48] + point[..48] + [0, 48] + point[48..]
  }

  lemma BigEndian48(s: bytes)
    requires |s| == 2
    ensures FromBE(s) == 48 <==> s == [0, 48]
  {
    assert s[..1] == [s[0]] && [s[0]][..0] == [];
    assert FromBE([s[0]]) == s[0] as nat;
  }

  lemma PointAtEnd(key: bytes, point: bytes)
    requires |key| != 96 && |point| == 96
    ensures EccPoint(key) == Some(point) <==> EndsWith(key, point)
  {
    hide FromBE;
    if |key| >= 100 {
      var t := key[|key| - 100..];
      BigEndian48(t[..2]);
      BigEndian48(t[50..52]);
      assert key[|key| - 100..|key| - 98] == t[..2] && key[|key| - 50..|key| - 48] == t[50..52];
      assert key[|key| - 98..|key| - 50] == t[2..50] && key[|key| - 48..] == t[52..];
      assert t == t[..2] + t[2..50] + t[50..52] + t[52..];
      TailParts(t, point);
    }
  }

  lemma TailParts(t: bytes, point: bytes)
    requires |t| == 100 && |point| == 96
    ensures t == [0, 48] + point[..48] + [0, 48] + point[48..] <==> t[..2] == [0, 48] && t[50..52] == [0, 48] && t[2..50] + t[52..] == point
  {
    var u := [0, 48] + point[..48] + [0, 48] + point[48..];
    assert u[..2] == [0, 48] && u[2..50] == point[..48] && u[50..52] == [0, 48] && u[52..] == point[48..];
    assert point[..48] + point[48..] == point;
    if t[..2] == [0, 48] && t[50..52] == [0, 48] && t[2..50] + t[52..] == point {
      assert point[..48] == t[2..50] && point[48..] == t[52..];
      assert t == t[..2] + t[2..50] + t[50..52] + t[52..];
    }
  }

  /** A key other than the configured one is refused. */
  lemma PubKeyAccepted(configured: Option<bytes>, key: bytes)
    ensures CheckPubKey(configured, key) == Success <==> KeyMatches(configured, key)
    ensures CheckPubKey(configured, key) == PeerError <==> configured.Some? && |configured.value| == 96 && !KeyMatches(configured, key)
  {
    hide EndsWith, FromBE;
    if configured.Some? && |configured.value| == 96 && |key| != 96 {
      PointAtEnd(key, configured.value);
    }
    if configured.Some? && |key| == 96 && |configured.value| == 96 {
      NotAtEnd(key, configured.value);
    }
  }

  lemma NotAtEnd(key: bytes, point: bytes)
    requires |key| == 96 && |point| == 96
    ensures !EndsWith(key, point)
  {
  }

  /** CAPABILITIES: exactly 20 bytes of the negotiated version with ENCRYPT, MAC, PUB_KEY_ID and KEY_EX or one kind of PSK. */
  lemma CapabilitiesAccepted(ver: byte, rsp: bytes, caps: nat)
    ensures CheckCapabilities(ver, rsp, caps) == Success <==>
              && |rsp| == 20 && rsp[0] == ver && rsp[1] == 0x61
              && var flags := Get32(rsp, 8);
                 && Bit(flags, 6) && Bit(flags, 7) && Bit(flags, 16)
                 && (if Bit(caps, 10) then Bit(flags, 10) != Bit(flags, 11) else Bit(flags, 9))
                 && 42 <= Get32(rsp, 12) <= Get32(rsp, 16)
  {
    hide Bit, GetLE;
  }

  /** The one ALGORITHMS response of the TCG binding for a version. */
  function OnlyAlgorithms(ver: byte): bytes {
    [ver, 0x63, 4, 0] + [52, 0] + [0, 2] + [0, 0, 0, 0] + [0x80, 0, 0, 0] + [2, 0, 0, 0] + Zeros(16) +
    [2, 0x20, 0x10, 0, 3, 0x20, 2, 0, 4, 0x20, 0x80, 0, 5, 0x20, 1, 0]
  }

  lemma SmallFields()
    ensures LE(52, 2) == [52, 0] && LE(0, 4) == [0, 0, 0, 0] && LE(0x80, 4) == [0x80, 0, 0, 0] && LE(2, 4) == [2, 0, 0, 0]
  {
    assert LE(0, 1) == [0];
    assert LE(0, 2) == [0, 0];
    assert LE(0, 3) == [0, 0, 0];
    assert LE(52, 2) == [52] + LE(0, 1) && LE(0x80, 4) == [0x80] + LE(0, 3) && LE(2, 4) == [2] + LE(0, 3);
  }

  lemma AlgorithmsSlices(rsp: bytes, ver: byte)
    requires |rsp| == 52
    ensures rsp == OnlyAlgorithms(ver) <==>
              && rsp[0] == ver && rsp[1] == 0x63 && rsp[2] == 4 && rsp[3] == 0 && rsp[4..6] == [52, 0] && rsp[6] == 0 && rsp[7] == 2
              && rsp[8..12] == [0, 0, 0, 0] && rsp[12..16] == [0x80, 0, 0, 0] && rsp[16..20] == [2, 0, 0, 0]
              && rsp[20..36] == Zeros(16) && rsp[36..52] == ResponderSpec.ALG_STRUCTS
  {
    hide Zeros;
    assert rsp == [rsp[0], rsp[1], rsp[2], rsp[3]] + rsp[4..6] + [rsp[6], rsp[7]] + rsp[8..12] + rsp[12..16] + rsp[16..20] + rsp[20..36] + rsp[36..52];
    var (z, st) := (Zeros(16), ResponderSpec.ALG_STRUCTS);
    var m := OnlyAlgorithms(ver);
    assert m == [ver, 0x63, 4, 0] + [52, 0] + [0, 2] + [0, 0, 0, 0] + [0x80, 0, 0, 0] + [2, 0, 0, 0] + z + st;
    assert m[4..6] == [52, 0] && m[8..12] == [0, 0, 0, 0] && m[12..16] == [0x80, 0, 0, 0] && m[16..20] == [2, 0, 0, 0];
    assert m[20..36] == z && m[36..52] == st;
  }

  /** A two- or four-byte field holds v exactly when its bytes are the encoding of v. */
  lemma FieldHolds(buf: bytes, off: nat, n: nat, v: nat)
    requires off + n <= |buf| && v < Pow256(n)
    ensures GetLE(buf, off, n) == v <==> buf[off..off + n] == LE(v, n)
  {
    hide LE, FromLE;
    if GetLE(buf, off, n) == v {
      FieldIs(buf, off, n, v);
    }
    if buf[off..off + n] == LE(v, n) {
      SliceReads(buf, off, v, n);
    }
  }

  /** ALGORITHMS: no other message is accepted. */
  lemma AlgorithmsAccepted(ver: byte, rsp: bytes)
    ensures CheckAlgorithms(ver, rsp) == Success <==> rsp == OnlyAlgorithms(ver)
  {
    hide GetLE, LE, Zeros, OnlyAlgorithms;
    AlgorithmsSize(ver);
    if |rsp| == 52 {
      Pow256Values();
      SmallFields();
      FieldHolds(rsp, 4, 2, 52);
      FieldHolds(rsp, 8, 4, 0);
      FieldHolds(rsp, 12, 4, 0x80);
      FieldHolds(rsp, 16, 4, 2);
      AlgorithmsSlices(rsp, ver);
    }
  }

  lemma AlgorithmsSize(ver: byte)
    ensures |OnlyAlgorithms(ver)| == 52
  {
  }

  /** FINISH_RSP: the code, and from 1.4 on opaque data of at most 256 bytes that is all there; it joins the transcript. */
  lemma FinishAccepted(x: Ctx, buf: bytes)
    ensures
      var (x', rc) := ParseFinishRsp(x, buf);
      var n := if x.ver < 0x14 || |buf| < 6 then 4 else 6 + Get16(buf, 4);
      && (rc == Success <==>
            && |buf| >= n && buf[1] == 0x65 && (x.ver >= 0x14 ==> |buf| >= 6 && Get16(buf, 4) <= 256) && |x.transcript| + n <= 16384)
      && x' == if rc == Success then x.(transcript := x.transcript + buf[..n], state := State.Finish) else x
  {
    hide GetLE;
  }

  lemma PskFinishAccepted(x: Ctx, buf: bytes)
    ensures
      var (x', rc) := ParsePskFinishRsp(x, buf);
      && (rc == Success <==> |buf| >= 4 && buf[1] == 0x67 && |x.transcript| + 4 <= 16384)
      && x' == if rc == Success then x.(transcript := x.transcript + buf[..4], state := State.Finish) else x
  {
  }
  // ----- What a connection that succeeds proves -----

  /** What the key exchange has settled stays: version, configuration, secrets, TH1 and session; the transcript only grows. */
  predicate Settled(x: Ctx, x': Ctx) {
    && x'.ver == x.ver && x'.cfg == x.cfg && x'.eph == x.eph && x'.hashes.th1 == x.hashes.th1 && x'.sess == x.sess
    && x'.keys.handshake == x.keys.handshake && x'.keys.reqFinished == x.keys.reqFinished && x'.keys.rspFinished == x.keys.rspFinished
    && x.transcript <= x'.transcript
  }

  /** Both directions have the application keys over the whole transcript, from record 0 on. */
  predicate ApplicationKeyed(c: Crypto, x: Ctx) {
    var req := ApplicationSecret(x.ver, "req app data", x.keys.handshake, x.transcript);
    var rsp := ApplicationSecret(x.ver, "rsp app data", x.keys.handshake, x.transcript);
    && x.keys.reqApp == Secret(c, req) && x.keys.rspApp == Secret(c, rsp)
    && x.keys.req == Generated(c, req, 0) && x.keys.rsp == Generated(c, rsp, 0)
  }

  /** A reply that the far end gave to req, when the requester's transcript was pre. */
  ghost predicate Replied(far: FarEnd, pre: bytes, req: bytes, cap: nat, buf: bytes)
    requires far.Valid()
  {
    exists asked: World :: asked.Valid() && asked.x.transcript == pre && SendReceive(far, asked, req, cap).1 == Ok(buf)
  }

  lemma RepliedTo(far: FarEnd, asked: World, req: bytes, cap: nat, buf: bytes)
    requires far.Valid() && asked.Valid() && SendReceive(far, asked, req, cap).1 == Ok(buf)
    ensures Replied(far, asked.x.transcript, req, cap, buf)
  {
    hide SendReceive, far.Valid;
  }

  /**
   * A signature under the configured key over the transcript so far, and the HMAC under the finished key of the secret
   * agreed on; pre is the transcript when the reply buf came.
   */
  predicate Proof(c: Crypto, x: Ctx, pre: bytes, buf: bytes) {
    && x.eph.priv.Some? && x.cfg.rspPub.Some? && |buf| >= 140 && |buf| >= SigOffset(buf) + 144
    && var off := SigOffset(buf);
       var shared := c.ecShared(x.eph.priv.value, buf[40..136]);
       && pre + buf[..off + 144] <= x.transcript
       && c.verify(x.cfg.rspPub.value, SigningHash(c, x.ver, pre + buf[..off]), buf[off..off + 96])
       && shared.Some? && x.keys.handshake == c.extract(Zeros(48), shared.value)
       && x.hashes.th1 == c.hash(pre + buf[..off + 96])
       && x.keys.rspFinished == FinishedKey(c, x.ver, Secret(c, HandshakeSecret(x.ver, "rsp hs data", x.keys.handshake, x.hashes.th1)))
       && buf[off + 96..off + 144] == c.hmac(x.keys.rspFinished, x.hashes.th1)
       && x.sess.sid == x.cfg.reqSid + 0x1_0000 * Get16(buf, 4)
  }

  /** Such a proof in reply to the requester's own KEY_EXCHANGE, whose ephemeral key it still holds. */
  ghost predicate ResponderProved(c: Crypto, far: FarEnd, x: Ctx, start: bytes, random: bytes, buf: bytes)
    requires far.Valid()
  {
    x.eph.priv.Some? &&
    var req := KeyExchangeRequest(x.ver, x.cfg.mode, x.cfg.reqSid, random, c.ecPub(x.eph.priv.value));
    Replied(far, start + req, req, KEY_EX_RX, buf) && Proof(c, x, start + req, buf)
  }

  lemma ProofStays(c: Crypto, far: FarEnd, x: Ctx, x': Ctx, start: bytes, random: bytes, buf: bytes)
    requires far.Valid() && ResponderProved(c, far, x, start, random, buf) && Settled(x, x')
    ensures ResponderProved(c, far, x', start, random, buf)
  {
    hide Replied, KeyExchangeRequest, SigningHash, Secret, FinishedKey, Zeros, GetLE, far.Valid;
  }

  lemma ExchangeProves(e: Env, far: FarEnd, w: World)
    requires e.Valid() && far.Valid() && w.Valid()
    ensures
      var (w', rc) := KeyExchangeStep(e, far, w);
      && w'.x.cfg == w.x.cfg
      && (rc == Success ==> exists buf :: ResponderProved(e.c, far, w'.x, w.x.transcript, e.rnd(w.x.draws, 32), buf))
  {
    hide SendReceive, KeyExchangeRequest, ParseKeyExchangeRsp, ExchangedCtx, SharedWith, ResponderProved, Replied, Zeros, GetLE, far.Valid,
      e.Valid;
    if w.x.cfg.rspPub.Some? {
      var (x1, req) := BuildKeyExchange(e, w.x);
      var (x2, rc2) := Add(x1, req);
      if rc2 == Success {
        var asked := w.(x := x2);
        var (w3, rx) := SendReceive(far, asked, req, KEY_EX_RX);
        if rx.Ok? {
          ExchangeAccepted(e, w3.x, rx.value);
          ExchangeKeepsCfg(e, w3.x, rx.value);
          if ParseKeyExchangeRsp(e, w3.x, rx.value).1 == Success {
            RepliedTo(far, asked, req, KEY_EX_RX, rx.value);
            AcceptedProves(e.c, far, w3.x, w.x.transcript, e.rnd(w.x.draws, 32), rx.value);
          }
        }
      }
    }
  }

  lemma ExchangeKeepsCfg(e: Env, x: Ctx, buf: bytes)
    ensures ParseKeyExchangeRsp(e, x, buf).0.cfg == x.cfg
  {
    hide HandshakeKeys, ResponderSpec.SignedHash, GetLE, Zeros;
  }

  lemma AcceptedProves(c: Crypto, far: FarEnd, x: Ctx, start: bytes, random: bytes, buf: bytes)
    requires far.Valid() && AcceptableExchange(c, x, buf)
    requires
      var req := KeyExchangeRequest(x.ver, x.cfg.mode, x.cfg.reqSid, random, c.ecPub(x.eph.priv.value));
      x.transcript == start + req && Replied(far, start + req, req, KEY_EX_RX, buf)
    ensures ResponderProved(c, far, ExchangedCtx(c, x, buf, SharedWith(c, x, buf).value), start, random, buf)
  {
    hide Replied, KeyExchangeRequest, SigningHash, FinishedKey, Secret, TrafficKey, TrafficIv, Zeros, GetLE, far.Valid;
  }

  lemma SecuredSettles(e: Env, far: FarEnd, w: World, msg: bytes, sealCap: nat, rxCap: nat, cap: nat, refuse: bool)
    requires e.Valid() && far.Valid() && w.Valid()
    ensures
      var w' := SecuredStep(e, far, w, msg, sealCap, rxCap, cap, refuse).0;
      Settled(w.x, w'.x) && w'.x.transcript == w.x.transcript
  {
    hide SendReceive, Seal, Open, Unframe, far.Valid, e.Valid;
  }

  lemma GivePubSettles(e: Env, far: FarEnd, w: World)
    requires e.Valid() && far.Valid() && w.Valid()
    ensures Settled(w.x, GivePubStep(e, far, w).0.x)
  {
    hide SecuredStep, VendorRequest, far.Valid, e.Valid;
    SecuredSettles(e, far, w, VendorRequest(VendorVer(w.x), Codes.GivePubCode(), w.x.cfg.tpmt), RECORD_BUF, RECORD_BUF, VENDOR_BUF, false);
  }

  lemma AddGrows(x: Ctx, data: bytes)
    ensures Settled(x, Add(x, data).0) && (Add(x, data).1 == Success || Add(x, data) == (x, BufferSmall))
  {
  }

  lemma SettledChain(x: Ctx, y: Ctx, z: Ctx)
    requires Settled(x, y) && Settled(y, z)
    ensures Settled(x, z)
  {
  }

  lemma ConfirmSettles(e: Env, x: Ctx, msg: bytes)
    ensures Settled(x, Confirm(e, x, msg).0) && (Confirm(e, x, msg).1.Err? ==> Confirm(e, x, msg).1.rc != Success)
  {
  }

  lemma SignatureSettles(e: Env, x: Ctx)
    ensures Settled(x, AddSignature(e, x).0) && (AddSignature(e, x).1.Err? ==> AddSignature(e, x).1.rc != Success)
  {
    hide SignedMessage;
  }

  lemma HashedSettles(e: Env, x: Ctx)
    ensures Settled(x, x.(hashes := x.hashes.(th2 := e.c.hash(x.transcript))))
  {
  }

  lemma BuildSettles(e: Env, x: Ctx)
    ensures Settled(x, BuildFinish(e, x).0) && (BuildFinish(e, x).1.Err? ==> BuildFinish(e, x).1.rc != Success)
  {
    hide AddSignature, Confirm, FinishHeader, Settled, Add;
    SettledSelf(x);
    AddGrows(x, e.c.hash(x.cfg.tpmt));
    var x1 := AddCm(e, x).0;
    AddGrows(x1, FinishHeader(x));
    var x2 := Add(x1, FinishHeader(x)).0;
    SettledChain(x, x1, x2);
    var x2' := x2.(hashes := x2.hashes.(th2 := e.c.hash(x2.transcript)));
    HashedSettles(e, x2);
    SettledChain(x, x2, x2');
    SignatureSettles(e, x2');
    var (x3, sig) := AddSignature(e, x2');
    SettledChain(x, x2', x3);
    if sig.Ok? {
      ConfirmSettles(e, x3, FinishHeader(x) + sig.value);
      SettledChain(x, x3, Confirm(e, x3, FinishHeader(x) + sig.value).0);
    }
  }

  lemma PskBuildSettles(e: Env, x: Ctx)
    ensures Settled(x, BuildPskFinish(e, x).0) && (BuildPskFinish(e, x).1.Err? ==> BuildPskFinish(e, x).1.rc != Success)
  {
    hide Confirm, Settled, Add;
    var header := [x.ver, Codes.PSK_FINISH, 0, 0];
    SettledSelf(x);
    AddGrows(x, header);
    var x1 := Add(x, header).0;
    HashedSettles(e, x1);
    var x2 := x1.(hashes := x1.hashes.(th2 := e.c.hash(x1.transcript)));
    ConfirmSettles(e, x2, header);
    SettledChain(x, x1, x2);
    SettledChain(x, x2, Confirm(e, x2, header).0);
  }

  lemma AppKeysSettle(c: Crypto, x: Ctx)
    ensures
      var x' := x.(keys := AppKeys(c, x.ver, x.transcript, x.keys));
      Settled(x, x') && ApplicationKeyed(c, x')
  {
    hide AppKeys, Secret, TrafficKey, TrafficIv;
    ApplicationLineage(c, x.ver, x.transcript, x.keys);
  }

  lemma FinishSettles(e: Env, far: FarEnd, w: World)
    requires e.Valid() && far.Valid() && w.Valid()
    ensures var (w', rc) := FinishStep(e, far, w); Settled(w.x, w'.x) && (rc == Success ==> ApplicationKeyed(e.c, w'.x))
  {
    hide SecuredStep, BuildFinish, ParseFinishRsp, AppKeys, Settled, ApplicationKeyed, far.Valid, e.Valid;
    SettledSelf(w.x);
    if w.x.state == KeyEx {
      var (x1, msg) := BuildFinish(e, w.x);
      BuildFinishValid(e, w.x);
      BuildSettles(e, w.x);
      if msg.Ok? {
        var w1 := w.(x := x1);
        SecuredSettles(e, far, w1, msg.value, VENDOR_BUF, FINISH_RSP_LIMIT + 128, FINISH_RSP_LIMIT, true);
        var (w2, rsp) := SecuredStep(e, far, w1, msg.value, VENDOR_BUF, FINISH_RSP_LIMIT + 128, FINISH_RSP_LIMIT, true);
        SettledChain(w.x, x1, w2.x);
        if rsp.Ok? {
          FinishAccepted(w2.x, rsp.value);
          ParsedSettles(w2.x, rsp.value);
          var x3 := ParseFinishRsp(w2.x, rsp.value).0;
          SettledChain(w.x, w2.x, x3);
          AppKeysSettle(e.c, x3);
          SettledChain(w.x, x3, x3.(keys := AppKeys(e.c, x3.ver, x3.transcript, x3.keys)));
        }
      }
    }
  }

  lemma SettledSelf(x: Ctx)
    ensures Settled(x, x)
  {
  }

  lemma ParsedSettles(x: Ctx, buf: bytes)
    ensures Settled(x, ParseFinishRsp(x, buf).0) && Settled(x, ParsePskFinishRsp(x, buf).0)
  {
    hide GetLE;
  }

  lemma PskFinishSettles(e: Env, far: FarEnd, w: World)
    requires e.Valid() && far.Valid() && w.Valid()
    ensures var (w', rc) := PskFinishStep(e, far, w); Settled(w.x, w'.x) && (rc == Success ==> ApplicationKeyed(e.c, w'.x))
  {
    hide SecuredStep, BuildPskFinish, ParsePskFinishRsp, AppKeys, Settled, ApplicationKeyed, far.Valid, e.Valid;
    var (x1, msg) := BuildPskFinish(e, w.x);
    FinishMessagesValid(e, w.x, []);
    PskBuildSettles(e, w.x);
    if msg.Ok? {
      var w1 := w.(x := x1);
      SecuredSettles(e, far, w1, msg.value, RECORD_BUF, RECORD_BUF, 64, false);
      var (w2, rsp) := SecuredStep(e, far, w1, msg.value, RECORD_BUF, RECORD_BUF, 64, false);
      SettledChain(w.x, x1, w2.x);
      if rsp.Ok? {
        ParsedSettles(w2.x, rsp.value);
        var x3 := ParsePskFinishRsp(w2.x, rsp.value).0;
        SettledChain(w.x, w2.x, x3);
        AppKeysSettle(e.c, x3);
        SettledChain(w.x, x3, x3.(keys := AppKeys(e.c, x3.ver, x3.transcript, x3.keys)));
      }
    }
  }

  lemma CompleteSettles(e: Env, far: FarEnd, w: World)
    requires e.Valid() && far.Valid() && w.Valid()
    ensures var (w', rc) := Complete(e, far, w); Settled(w.x, w'.x) && (rc == Success ==> ApplicationKeyed(e.c, w'.x))
  {
    hide GivePubStep, FinishStep, Settled, ApplicationKeyed, far.Valid, e.Valid;
    GivePubSettles(e, far, w);
    FinishSettles(e, far, w);
    var w1 := GivePubStep(e, far, w).0;
    FinishSettles(e, far, w1);
    SettledChain(w.x, w1.x, FinishStep(e, far, w1).0.x);
  }

  /** Configuration and pre-shared key are the caller's: nothing that arrives before the key exchange changes them. */
  predicate SameCaller(x: Ctx, x': Ctx) {
    x'.cfg == x.cfg && x'.psk == x.psk
  }

  lemma VersionKeeps(far: FarEnd, w: World)
    requires far.Valid() && w.Valid()
    ensures SameCaller(w.x, GetVersionStep(far, w).0.x)
  {
    hide SendReceive, ParseVersion, far.Valid;
  }

  lemma CheckedKeeps(far: FarEnd, w: World, req: bytes, cap: nat, caps: Option<nat>)
    requires far.Valid() && w.Valid()
    ensures SameCaller(w.x, CheckedStep(far, w, req, cap, caps).0.x)
  {
    hide SendReceive, CheckCapabilities, CheckAlgorithms, far.Valid;
  }

  lemma NegotiateKeeps(far: FarEnd, w: World)
    requires far.Valid() && w.Valid()
    ensures SameCaller(w.x, Negotiate(far, w).0.x)
  {
    hide GetVersionStep, CheckedStep, CapabilitiesRequest, AlgorithmsRequest, far.Valid;
    VersionKeeps(far, w);
    var w1 := GetVersionStep(far, w).0;
    CheckedKeeps(far, w1, CapabilitiesRequest(w1.x.ver, CAPS_DEFAULT), 64, Some(CAPS_DEFAULT));
    var w2 := CapabilitiesStep(far, w1).0;
    CheckedKeeps(far, w2, AlgorithmsRequest(w2.x.ver), 128, None);
  }

  lemma PubKeyKeeps(e: Env, far: FarEnd, w: World)
    requires e.Valid() && far.Valid() && w.Valid()
    ensures SameCaller(w.x, PubKeyStep(e, far, w).0.x)
  {
    hide GetVersionStep, FetchPubKeyStep, far.Valid, e.Valid;
    FetchKeeps(e, far, w);
    var w0 := w.(x := ResetTranscript(w.x));
    VersionKeeps(far, w0);
    FetchKeeps(e, far, GetVersionStep(far, w0).0);
  }

  lemma FetchKeeps(e: Env, far: FarEnd, w: World)
    requires e.Valid() && far.Valid() && w.Valid()
    ensures SameCaller(w.x, FetchPubKeyStep(e, far, w).0.x)
  {
    hide SendReceive, VendorRequest, VendorPayload, CheckPubKey, far.Valid, e.Valid;
  }

  lemma FlowProves(e: Env, far: FarEnd, w: World)
    requires e.Valid() && far.Valid() && w.Valid()
    ensures
      var (w', rc) := TcgFlow(e, far, w);
      rc == Success ==>
        && w'.x.cfg == w.x.cfg && ApplicationKeyed(e.c, w'.x)
        && exists start, i: nat, buf :: ResponderProved(e.c, far, w'.x, start, e.rnd(i, 32), buf)
  {
    hide Negotiate, PubKeyStep, KeyExchangeStep, Complete, ResponderProved, Settled, ApplicationKeyed, far.Valid, e.Valid;
    NegotiateKeeps(far, w);
    var w1 := Negotiate(far, w).0;
    PubKeyKeeps(e, far, w1);
    var w2 := PubKeyStep(e, far, w1).0;
    ExchangeProves(e, far, w2);
    var (w3, rc3) := KeyExchangeStep(e, far, w2);
    CompleteSettles(e, far, w3);
    var w4 := Complete(e, far, w3).0;
    if rc3 == Success {
      var buf :| ResponderProved(e.c, far, w3.x, w2.x.transcript, e.rnd(w2.x.draws, 32), buf);
      ProofStays(e.c, far, w3.x, w4.x, w2.x.transcript, e.rnd(w2.x.draws, 32), buf);
      SettledKeeps(w3.x, w4.x);
    }
  }

  lemma SettledKeeps(x: Ctx, x': Ctx)
    requires Settled(x, x')
    ensures x'.cfg == x.cfg
  {
  }

  /**
   * Whatever is at the far end and whatever it answers: when Connect succeeds with a configured key, some reply to this
   * requester's own KEY_EXCHANGE carried a signature under that key over the requester's transcript and the HMAC over TH1
   * under the finished key of the agreed secret, and the session has the application keys over the whole transcript.
   */
  lemma TcgAuthenticated(e: Env, far: FarEnd, w: World)
    requires e.Valid() && far.Valid() && w.Valid() && w.x.cfg.mode != Auto && w.x.cfg.mode != NationsPsk
    ensures
      var (w', rc) := Connect(e, far, w);
      && (rc == Success <==> w'.x.state == Connected)
      && (rc == Success ==>
            && w'.x.cfg == w.x.cfg && ApplicationKeyed(e.c, w'.x)
            && exists start, i: nat, buf :: ResponderProved(e.c, far, w'.x, start, e.rnd(i, 32), buf))
  {
    hide TcgFlow, ResponderProved, ApplicationKeyed, far.Valid, e.Valid;
    var w0 := Started(w.(x := ResetSession(w.x)));
    FlowProves(e, far, w0);
    var (w1, rc) := TcgFlow(e, far, w0);
    if rc == Success && w.x.cfg.rspPub.Some? && |w.x.cfg.rspPub.value| == 96 {
      var start, i: nat, buf :| ResponderProved(e.c, far, w1.x, start, e.rnd(i, 32), buf);
      StateOnly(e.c, far, w1.x, start, e.rnd(i, 32), buf);
    }
  }

  lemma StateOnly(c: Crypto, far: FarEnd, x: Ctx, start: bytes, random: bytes, buf: bytes)
    requires far.Valid() && ResponderProved(c, far, x, start, random, buf)
    ensures ResponderProved(c, far, x.(state := Connected), start, random, buf)
    ensures ApplicationKeyed(c, x) ==> ApplicationKeyed(c, x.(state := Connected))
  {
    hide ResponderProved, far.Valid;
    ProofStays(c, far, x, x.(state := Connected), start, random, buf);
  }
  // ----- The same for a pre-shared key -----

  /** The HMAC under the finished key of the handshake secret that only the pre-shared key gives. */
  predicate PskProof(c: Crypto, x: Ctx, psk: bytes, pre: bytes, buf: bytes) {
    && |buf| >= 12 && |buf| >= PskOffset(buf) + 48
    && var off := PskOffset(buf);
       && pre + buf[..off + 48] <= x.transcript
       && x.keys.handshake == c.extract(Fill(0xFF, 48), psk)
       && x.hashes.th1 == c.hash(pre + buf[..off])
       && x.keys.rspFinished == FinishedKey(c, x.ver, Secret(c, HandshakeSecret(x.ver, "rsp hs data", x.keys.handshake, x.hashes.th1)))
       && buf[off..off + 48] == c.hmac(x.keys.rspFinished, x.hashes.th1)
       && x.sess.sid == x.cfg.reqSid + 0x1_0000 * Get16(buf, 4)
  }

  ghost predicate PskProved(c: Crypto, far: FarEnd, x: Ctx, psk: bytes, start: bytes, random: bytes, buf: bytes)
    requires far.Valid()
  {
    var req := PskExchangeRequest(x.ver, x.cfg.reqSid, x.cfg.pskHint, random);
    Replied(far, start + req, req, RECORD_BUF, buf) && PskProof(c, x, psk, start + req, buf)
  }

  lemma PskProofStays(c: Crypto, far: FarEnd, x: Ctx, x': Ctx, psk: bytes, start: bytes, random: bytes, buf: bytes)
    requires far.Valid() && PskProved(c, far, x, psk, start, random, buf) && Settled(x, x')
    ensures PskProved(c, far, x', psk, start, random, buf)
  {
    hide Replied, PskExchangeRequest, Secret, FinishedKey, Fill, GetLE, far.Valid;
  }

  lemma PskExchangeProves(e: Env, far: FarEnd, w: World)
    requires e.Valid() && far.Valid() && w.Valid()
    ensures
      var (w', rc) := PskExchangeStep(e, far, w);
      && w'.x.cfg == w.x.cfg
      && (rc == Success ==> exists buf :: PskProved(e.c, far, w'.x, w.x.psk, w.x.transcript, e.rnd(w.x.draws, 32), buf))
  {
    hide SendReceive, PskExchangeRequest, ParsePskExchangeRsp, AcceptablePskExchange, PskExchangedCtx, PskProved, Replied, far.Valid, e.Valid;
    var (x1, req) := BuildPskExchange(e, w.x);
    if req.Ok? {
      var (x2, rc2) := Add(x1, req.value);
      if rc2 == Success {
        var asked := w.(x := x2);
        var (w3, rx) := SendReceive(far, asked, req.value, RECORD_BUF);
        if rx.Ok? {
          PskExchangeAccepted(e, w3.x, rx.value);
          PskExchangeKeepsCfg(e, w3.x, rx.value);
          if ParsePskExchangeRsp(e, w3.x, rx.value).1 == Success {
            RepliedTo(far, asked, req.value, RECORD_BUF, rx.value);
            PskAcceptedProves(e.c, far, w3.x, w.x.transcript, e.rnd(w.x.draws, 32), rx.value);
          }
        }
      }
    }
  }

  lemma PskExchangeKeepsCfg(e: Env, x: Ctx, buf: bytes)
    ensures ParsePskExchangeRsp(e, x, buf).0.cfg == x.cfg
  {
    hide HandshakeKeys, GetLE, Fill;
  }

  lemma PskAcceptedProves(c: Crypto, far: FarEnd, x: Ctx, start: bytes, random: bytes, buf: bytes)
    requires far.Valid() && AcceptablePskExchange(c, x, buf)
    requires
      var req := PskExchangeRequest(x.ver, x.cfg.reqSid, x.cfg.pskHint, random);
      x.transcript == start + req && Replied(far, start + req, req, RECORD_BUF, buf)
    ensures PskProved(c, far, PskExchangedCtx(c, x, buf), x.psk, start, random, buf)
  {
    hide Replied, PskExchangeRequest, FinishedKey, Secret, TrafficKey, TrafficIv, Fill, GetLE, far.Valid;
  }

  /**
   * Whatever is at the far end: when the PSK connection succeeds, a reply to this requester's own PSK_EXCHANGE carried the
   * HMAC over TH1 under the finished key that follows from the configured key, which is no other key's.
   */
  lemma PskAuthenticated(e: Env, far: FarEnd, w: World)
    requires e.Valid() && far.Valid() && w.Valid() && w.x.cfg.mode == NationsPsk
    ensures
      var (w', rc) := Connect(e, far, w);
      && (rc == Success <==> w'.x.state == Connected)
      && (rc == Success ==>
            && w.x.psk != [] && w'.x.cfg == w.x.cfg && ApplicationKeyed(e.c, w'.x)
            && exists start, i: nat, buf :: PskProved(e.c, far, w'.x, w.x.psk, start, e.rnd(i, 32), buf))
  {
    hide PskFlow, PskProved, ApplicationKeyed, far.Valid, e.Valid;
    var w0 := Started(w.(x := ResetSession(w.x)));
    PskFlowProves(e, far, w0);
    var (w1, rc) := PskFlow(e, far, w0);
    if rc == Success && w.x.psk != [] {
      var start, i: nat, buf :| PskProved(e.c, far, w1.x, w.x.psk, start, e.rnd(i, 32), buf);
      PskStateOnly(e.c, far, w1.x, w.x.psk, start, e.rnd(i, 32), buf);
    }
  }

  lemma PskFlowProves(e: Env, far: FarEnd, w: World)
    requires e.Valid() && far.Valid() && w.Valid()
    ensures
      var (w', rc) := PskFlow(e, far, w);
      rc == Success ==>
        && w'.x.cfg == w.x.cfg && ApplicationKeyed(e.c, w'.x)
        && exists start, i: nat, buf :: PskProved(e.c, far, w'.x, w.x.psk, start, e.rnd(i, 32), buf)
  {
    hide GetVersionStep, PskExchangeStep, PskFinishStep, PskProved, Settled, ApplicationKeyed, far.Valid, e.Valid;
    VersionKeeps(far, w);
    var w1 := GetVersionStep(far, w).0;
    PskExchangeProves(e, far, w1);
    var (w2, rc2) := PskExchangeStep(e, far, w1);
    PskFinishSettles(e, far, w2);
    var w3 := PskFinishStep(e, far, w2).0;
    if rc2 == Success {
      var buf :| PskProved(e.c, far, w2.x, w.x.psk, w1.x.transcript, e.rnd(w1.x.draws, 32), buf);
      PskProofStays(e.c, far, w2.x, w3.x, w.x.psk, w1.x.transcript, e.rnd(w1.x.draws, 32), buf);
      SettledKeeps(w2.x, w3.x);
    }
  }

  lemma PskStateOnly(c: Crypto, far: FarEnd, x: Ctx, psk: bytes, start: bytes, random: bytes, buf: bytes)
    requires far.Valid() && PskProved(c, far, x, psk, start, random, buf)
    ensures PskProved(c, far, x.(state := Connected), psk, start, random, buf)
    ensures ApplicationKeyed(c, x) ==> ApplicationKeyed(c, x.(state := Connected))
  {
    hide PskProved, far.Valid;
    PskProofStays(c, far, x, x.(state := Connected), psk, start, random, buf);
  }

  // ----- Requests, frames and the version exchange -----

  /** KEY_EXCHANGE goes out with fresh randomness, the public part of a fresh key which the requester keeps, and its own id. */
  lemma ExchangeAsked(e: Env, x: Ctx)
    requires e.Valid() && x.cfg.reqSid < 0x1_0000
    ensures
      var (x', req) := BuildKeyExchange(e, x);
      && x' == x.(eph := x.eph.(priv := Some(e.rnd(x.draws + 1, 48))), draws := x.draws + 2)
      && |req| >= 138 && req[..4] == [x.ver, 0xE4, 0, 0xFF] && Get16(req, 4) == x.cfg.reqSid
      && req[8..40] == e.rnd(x.draws, 32) && req[40..136] == e.c.ecPub(e.rnd(x.draws + 1, 48))
      && Get16(req, 136) == |req| - 138
  {
    hide LE, GetLE, Opaque;
    Pow256Values();
    OpaqueLength(x.cfg.mode);
    var (random, pub, tail) := (e.rnd(x.draws, RANDOM_SIZE), e.c.ecPub(e.rnd(x.draws + 1, ECC_KEY_SIZE)), Opaque(x.cfg.mode));
    var head := [x.ver, 0xE4, 0, 0xFF];
    var req := BuildKeyExchange(e, x).1;
    AskedParts(head, LE(x.cfg.reqSid, 2), random, pub, tail);
    assert req == head + LE(x.cfg.reqSid, 2) + [0, 0] + random + pub + tail;
    SliceReads(req, 4, x.cfg.reqSid, 2);
    assert req[136..138] == tail[..2];
    SliceReads(req, 136, |tail| - 2, 2);
  }

  lemma AskedParts(head: bytes, sid: bytes, random: bytes, pub: bytes, tail: bytes)
    requires |head| == 4 && |sid| == 2 && |random| == 32 && |pub| == 96 && |tail| >= 2
    ensures
      var r := head + sid + [0, 0] + random + pub + tail;
      r[..4] == head && r[4..6] == sid && r[8..40] == random && r[40..136] == pub && r[136..138] == tail[..2] && |r| == 136 + |tail|
  {
  }

  lemma OpaqueLength(mode: Mode)
    ensures 2 <= |Opaque(mode)| <= 22 && Opaque(mode)[..2] == LE(|Opaque(mode)| - 2, 2)
  {
    assert LE(0, 1) == [0];
    assert LE(20, 2) == [20, 0] && LE(12, 2) == [12, 0] && LE(16, 2) == [16, 0] && LE(0, 2) == [0, 0];
  }

  /** FINISH: the header says whether a signature follows; TH2 is over the transcript with it, the HMAC over all before itself. */
  lemma FinishAsked(e: Env, x: Ctx)
    requires e.Valid()
    ensures
      var (x', msg) := BuildFinish(e, x);
      var mutual := x.sess.mutAuth % 2 == 1;
      var head := [x.ver, 0xE5] + (if mutual then [1, 0xFF] else [0, 0]) + (if x.ver >= 0x14 then [0, 0] else []);
      var th2 := e.c.hash(x.transcript + (if mutual && x.cfg.tpmt != [] then e.c.hash(x.cfg.tpmt) else []) + head);
      var before := x.transcript + (if mutual && x.cfg.tpmt != [] then e.c.hash(x.cfg.tpmt) else []) + head;
      && (mutual && x.cfg.keyPair.None? ==> msg == Err(BadState))
      && (msg.Ok? ==>
            var sig := if mutual then e.c.sign(x.cfg.keyPair.value, e.c.hash(SignedMessage(x.ver, "requester-finish signing", th2)), e.rnd(x.draws, 48))
                       else [];
            var mac := e.c.hmac(x.keys.reqFinished, e.c.hash(before + sig));
            && msg.value == head + sig + mac && x'.transcript == before + sig + mac && x'.hashes.th2 == th2
            && x'.draws == x.draws + (if mutual then 1 else 0))
  {
    hide SignedMessage, e.Valid;
    assert FinishHeader(x) + [] == FinishHeader(x);
    assert x.transcript + [] + FinishHeader(x) == x.transcript + FinishHeader(x);
    var before := x.transcript + (if MutualAuth(x) && x.cfg.tpmt != [] then e.c.hash(x.cfg.tpmt) else []) + FinishHeader(x);
    assert before + [] == before;
  }

  /** A frame is stripped exactly when it is whole: either tag, a length that covers the header and fits what came. */
  lemma FrameAccepted(x: Ctx, rx: bytes, cap: nat, body: bytes)
    ensures
      var (x', r) := UnwrapTcg(x, rx, cap);
      && (r == Ok(body) <==>
            && 16 <= |rx| <= TCG_BUF && (ResponderSpec.GetBE(rx, 0, 2) == 0x8101 || ResponderSpec.GetBE(rx, 0, 2) == 0x8201)
            && ResponderSpec.GetBE(rx, 2, 4) == 16 + |body| <= |rx| && |body| <= cap && rx[16..16 + |body|] == body)
      && (r.Ok? ==> x' == x.(binding := x.binding.(fips := if ResponderSpec.GetBE(rx, 10, 2) == 0 then x.binding.fips else ResponderSpec.GetBE(rx, 10, 2))))
  {
    hide ResponderSpec.GetBE;
  }

  /** An exchange of versions that fails leaves the transcript without half a message. */
  lemma VersionUndone(far: FarEnd, w: World)
    requires far.Valid() && w.Valid()
    ensures
      var (w', rc) := GetVersionStep(far, w);
      && (rc != Success ==> w'.x.transcript == w.x.transcript && w'.x.ver == w.x.ver && w'.x.state == w.x.state)
      && (rc == Success ==>
            exists rx: bytes :: |rx| >= 6 && rx[1] == 0x04 && w'.x.transcript == w.x.transcript + [0x10, 0x84, 0, 0] + rx)
  {
    hide SendReceive, Highest, far.Valid;
  }
  /** GET_PUBK that succeeds has fetched a key that matches the configured one, and its hash is Ct. */
  lemma PubKeyFetched(e: Env, far: FarEnd, w: World)
    requires e.Valid() && far.Valid() && w.Valid()
    ensures
      var (w', rc) := FetchPubKeyStep(e, far, w);
      && (rc == Success ==>
            exists key: bytes ::
              && KeyMatches(w.x.cfg.rspPub, key) && w'.x.hashes.cert == e.c.hash(key) && w'.x.state == Cert
              && w'.x.transcript == w.x.transcript + e.c.hash(key))
      && (rc != Success ==> w'.x.transcript == w.x.transcript)
  {
    hide SendReceive, VendorRequest, VendorPayload, CheckPubKey, KeyMatches, far.Valid, e.Valid;
    var (w1, rx) := SendReceive(far, w, VendorRequest(VendorVer(w.x), Codes.GetPubkCode(), []), VENDOR_RX);
    if rx.Ok? {
      var key := VendorPayload(Codes.GetPubkCode(), rx.value);
      if key.Ok? {
        PubKeyAccepted(w.x.cfg.rspPub, key.value);
      } else {
        VendorError(Codes.GetPubkCode(), rx.value);
      }
    }
  }

  lemma VendorError(code: bytes, rsp: bytes)
    ensures VendorPayload(code, rsp).Err? ==> VendorPayload(code, rsp).rc != Success
  {
    hide ResponderSpec.ParseVendor;
  }

  /** A checked request that succeeds has put itself and the reply that passed the check into the transcript, and nothing else. */
  lemma CheckedRecords(far: FarEnd, w: World, req: bytes, cap: nat, caps: Option<nat>)
    requires far.Valid() && w.Valid()
    ensures
      var (w', rc) := CheckedStep(far, w, req, cap, caps);
      && (rc == Success ==>
            exists rx: bytes ::
              && w'.x.transcript == w.x.transcript + req + rx
              && (if caps.Some? then CheckCapabilities(w.x.ver, rx, caps.value) else CheckAlgorithms(w.x.ver, rx)) == Success)
      && (rc != Success ==> w'.x.state == Failed && (w'.x.transcript == w.x.transcript || w'.x.transcript == w.x.transcript + req))
  {
    hide SendReceive, CheckCapabilities, CheckAlgorithms, far.Valid;
    var x1 := Add(w.x, req).0;
    if Add(w.x, req).1 == Success {
      var rx := SendReceive(far, w.(x := x1), req, cap).1;
      if rx.Ok? {
        assert x1.transcript + rx.value == w.x.transcript + req + rx.value;
      }
    }
  }
  /** VERSION: the number of entries is at byte 5, or byte 4 where that is 0; the highest one within the limits is taken. */
  lemma VersionAccepted(x: Ctx, buf: bytes)
    ensures
      var (x', rc) := ParseVersion(x, buf);
      var top := if x.cfg.maxVersion != 0 then x.cfg.maxVersion else 0x14;
      rc == Success <==>
        && |buf| >= 6 && buf[1] == 0x04
        && var n := (if buf[5] != 0 then buf[5] else buf[4]) as nat;
           && |buf| >= 6 + 2 * n && (exists i :: 0 <= i < n && 0x12 <= buf[7 + 2 * i] <= top)
           && x' == x.(ver := x'.ver, state := Version) && 0x12 <= x'.ver <= top
           && (exists i :: 0 <= i < n && buf[7 + 2 * i] == x'.ver)
           && (forall i :: 0 <= i < n && 0x12 <= buf[7 + 2 * i] <= top ==> buf[7 + 2 * i] <= x'.ver)
  {
    hide Highest;
    if |buf| >= 6 && |buf| >= 6 + 2 * EntryCount(buf) {
      HighestIsGreatest(buf, EntryCount(buf), MaxVer(x));
      EntriesSeen(buf, EntryCount(buf), MaxVer(x));
    }
  }

  lemma EntriesSeen(buf: bytes, n: nat, top: byte)
    requires 6 + 2 * n <= |buf|
    ensures forall i :: 0 <= i < n && MIN_VERSION <= buf[7 + 2 * i] <= top ==> buf[7 + 2 * i] <= Highest(buf, n, top)
    ensures Highest(buf, n, top) != 0 ==> exists i :: 0 <= i < n && buf[7 + 2 * i] == Highest(buf, n, top)
  {
    hide Highest;
    HighestIsGreatest(buf, n, top);
    forall i | 0 <= i < n && MIN_VERSION <= buf[7 + 2 * i] <= top
      ensures buf[7 + 2 * i] <= Highest(buf, n, top)
    {
      assert buf[6 + 2 * i + 1] == buf[7 + 2 * i];
    }
    if Highest(buf, n, top) != 0 {
      var i :| 0 <= i < n && buf[6 + 2 * i + 1] == Highest(buf, n, top);
      assert buf[7 + 2 * i] == Highest(buf, n, top);
    }
  }

  /** PSK_EXCHANGE carries the hint and fresh randomness; PSK_FINISH the HMAC over everything before it. */
  lemma PskAsked(e: Env, x: Ctx)
    requires e.Valid() && x.cfg.reqSid < 0x1_0000 && |x.cfg.pskHint| <= 32
    ensures
      var (x', req) := BuildPskExchange(e, x);
      && (req.Err? <==> x.psk == []) && x'.draws == x.draws + (if req.Ok? then 1 else 0)
      && (req.Ok? ==>
            var (r, n) := (req.value, |x.cfg.pskHint|);
            && |r| == 44 + n && r[..4] == [x.ver, 0xE6, 0, 0] && Get16(r, 4) == x.cfg.reqSid && Get16(r, 6) == n && Get16(r, 8) == 32
            && Get16(r, 10) == 0 && r[12..12 + n] == x.cfg.pskHint && r[12 + n..] == e.rnd(x.draws, 32))
    ensures
      var (x', msg) := BuildPskFinish(e, x);
      var head := [x.ver, 0xE7, 0, 0];
      var mac := e.c.hmac(x.keys.reqFinished, e.c.hash(x.transcript + head));
      && (msg.Ok? <==> |x.transcript| + 52 <= 16384)
      && (msg.Ok? ==>
            msg.value == head + mac && x'.transcript == x.transcript + head + mac && x'.hashes.th2 == e.c.hash(x.transcript + head))
  {
    hide LE, GetLE;
    if x.psk != [] {
      var random := e.rnd(x.draws, RANDOM_SIZE);
      var r := PskExchangeRequest(x.ver, x.cfg.reqSid, x.cfg.pskHint, random);
      Agreement.PskRequestFields(x.ver, x.cfg.reqSid, x.cfg.pskHint, random);
      PskAskedParts([x.ver, 0xE6, 0, 0] + LE(x.cfg.reqSid, 2) + LE(|x.cfg.pskHint|, 2) + LE(RANDOM_SIZE, 2) + LE(0, 2), x.cfg.pskHint, random);
    }
  }

  lemma PskAskedParts(head: bytes, hint: bytes, random: bytes)
    requires |head| == 12
    ensures
      var r := head + hint + random;
      r[..4] == head[..4] && r[12..12 + |hint|] == hint && r[12 + |hint|..] == random
  {
  }

  /** The fixed requests of the TCG binding, read back: capability flags and sizes, and algorithm set B alone. */
  lemma FixedAsked(ver: byte, caps: nat)
    requires caps < 0x1_0000_0000
    ensures
      var req := CapabilitiesRequest(ver, caps);
      && |req| == 20 && req[0] == ver && req[1] == 0xE1 && req[5] == 0x1F
      && Get32(req, 8) == caps && Get32(req, 12) == 1984 && Get32(req, 16) == 1984
    ensures
      var req := AlgorithmsRequest(ver);
      && |req| == 48 && req[0] == ver && req[1] == 0xE3 && Get16(req, 4) == 48 && Get32(req, 8) == 0x80 && Get32(req, 12) == 2
      && Negotiation.OfferOf(req)
         == Some([Negotiation.Choice(2, 0x10), Negotiation.Choice(3, 2), Negotiation.Choice(4, 0x80), Negotiation.Choice(5, 1)])
  {
    CapabilitiesAsked(ver, caps);
    AlgorithmsAsked(ver);
  }

  lemma CapabilitiesAsked(ver: byte, caps: nat)
    requires caps < 0x1_0000_0000
    ensures
      var req := CapabilitiesRequest(ver, caps);
      && |req| == 20 && req[0] == ver && req[1] == 0xE1 && req[5] == 0x1F
      && Get32(req, 8) == caps && Get32(req, 12) == 1984 && Get32(req, 16) == 1984
  {
    hide LE, GetLE;
    Pow256Values();
    var req := CapabilitiesRequest(ver, caps);
    var (head, tail) := ([ver, 0xE1, 0, 0, 0, 0x1F, 0, 0], [0xC0, 0x07, 0, 0, 0xC0, 0x07, 0, 0]);
    assert req == head + LE(caps, 4) + tail;
    FieldReadBack(head, caps, 4, tail);
    Agreement.FourBytes(req, 12);
    Agreement.FourBytes(req, 16);
  }

  lemma AlgorithmsAsked(ver: byte)
    ensures
      var req := AlgorithmsRequest(ver);
      && |req| == 48 && req[0] == ver && req[1] == 0xE3 && Get16(req, 4) == 48 && Get32(req, 8) == 0x80 && Get32(req, 12) == 2
      && Negotiation.OfferOf(req)
         == Some([Negotiation.Choice(2, 0x10), Negotiation.Choice(3, 2), Negotiation.Choice(4, 0x80), Negotiation.Choice(5, 1)])
  {
    hide GetLE, Zeros, AlgorithmsRequest, Negotiation.Choices;
    AlgorithmsBytes(ver);
    var req := AlgorithmsRequest(ver);
    Agreement.TwoBytes(req, 4);
    Agreement.FourBytes(req, 8);
    Agreement.FourBytes(req, 12);
    Agreement.TwoBytes(req, 34);
    Agreement.TwoBytes(req, 38);
    Agreement.TwoBytes(req, 42);
    Agreement.TwoBytes(req, 46);
    NoChoice(req);
    assert [Negotiation.Choice(5, 1)][1..] == [];
    OneChoice(req, 44, 1, [Negotiation.Choice(5, 1)]);
    OneChoice(req, 40, 2, [Negotiation.Choice(4, 0x80), Negotiation.Choice(5, 1)]);
    OneChoice(req, 36, 3, [Negotiation.Choice(3, 2), Negotiation.Choice(4, 0x80), Negotiation.Choice(5, 1)]);
    OneChoice(req, 32, 4, [Negotiation.Choice(2, 0x10), Negotiation.Choice(3, 2), Negotiation.Choice(4, 0x80), Negotiation.Choice(5, 1)]);
  }

  lemma NoChoice(buf: bytes)
    ensures Negotiation.Choices(buf, 48, 0) == Some([])
  {
  }

  lemma OneChoice(buf: bytes, off: nat, count: nat, cs: seq<Negotiation.Choice>)
    requires count > 0 && cs != [] && off + 4 <= |buf| && buf[off + 1] % 16 == 0
    requires Negotiation.Choices(buf, off + 4, count - 1) == Some(cs[1..]) && cs[0] == Negotiation.Choice(buf[off], Get16(buf, off + 2))
    ensures Negotiation.Choices(buf, off, count) == Some(cs)
  {
    hide Get16;
    assert cs == [cs[0]] + cs[1..];
  }

  lemma AlgorithmsBytes(ver: byte)
    ensures
      var r := AlgorithmsRequest(ver);
      && |r| == 48 && r[0] == ver && r[1] == 0xE3 && r[2] == 4 && r[4] == 48 && r[5] == 0
      && r[8] == 0x80 && r[9] == 0 && r[10] == 0 && r[11] == 0 && r[12] == 2 && r[13] == 0 && r[14] == 0 && r[15] == 0
      && r[32] == 2 && r[33] == 32 && r[34] == 16 && r[35] == 0 && r[36] == 3 && r[37] == 32 && r[38] == 2 && r[39] == 0
      && r[40] == 4 && r[41] == 32 && r[42] == 128 && r[43] == 0 && r[44] == 5 && r[45] == 32 && r[46] == 1 && r[47] == 0
  {
  }
  // ----- Guards of the secured steps -----

  /** The payload of a clear vendor command is that of a response under the command's own code; an ERROR is never one. */
  lemma VendorAccepted(code: bytes, rsp: bytes, p: bytes)
    ensures VendorPayload(code, rsp) == Ok(p) <==>
              !(|rsp| >= 4 && rsp[1] == 0x7F) && ResponderSpec.ParseVendor(rsp, 256) == Some(ResponderSpec.Vendor(code, p))
  {
    hide ResponderSpec.ParseVendor;
  }

  /** GIVE_PUB needs a session, and an ERROR in reply is not a success. */
  lemma GivePubConfirmed(e: Env, far: FarEnd, w: World)
    requires e.Valid() && far.Valid() && w.Valid() && w.x.cfg.mode != Auto
    ensures
      var req := VendorRequest(if w.x.ver != 0 then w.x.ver else 0x13, Codes.GivePubCode(), w.x.cfg.tpmt);
      var rsp := SecuredStep(e, far, w, req, RECORD_BUF, RECORD_BUF, 256, false).1;
      GivePubStep(e, far, w).1 == Success <==>
        && w.x.state in {KeyEx, State.Finish, Connected} && w.x.sess.sid != 0
        && rsp.Ok? && !(|rsp.value| >= 4 && rsp.value[1] == 0x7F)
  {
    hide SecuredStep, VendorRequest, far.Valid, e.Valid;
  }

  /** FINISH is sent only after a key exchange; a reply in the clear ends it with PEER_ERROR, and is not counted as a record. */
  lemma FinishGuarded(e: Env, far: FarEnd, w: World)
    requires e.Valid() && far.Valid() && w.Valid()
    ensures w.x.state != KeyEx ==> FinishStep(e, far, w) == (w, BadState)
    ensures
      var (x1, msg) := BuildFinish(e, w.x);
      w.x.state == KeyEx && msg.Ok? && x1.Valid() ==>
        var (x2, rec) := Encrypt(e, x1, msg.value, 256);
        rec.Ok? && x2.Valid() ==>
          var (w3, rx) := SendReceive(far, w.(x := x2), rec.value, 262 + 128);
          rx.Ok? && |rx.value| >= 2 && 0x10 <= rx.value[0] <= 0x1F ==> FinishStep(e, far, w) == (w3, PeerError)
  {
    hide SendReceive, BuildFinish, ParseFinishRsp, Encrypt, AppKeys, far.Valid, e.Valid;
  }

  /** A fresh context asks for the version before it asks for the key. */
  lemma PubKeyStarts(e: Env, far: FarEnd, w: World)
    requires e.Valid() && far.Valid() && w.Valid() && w.x.state == Init
    ensures
      var (w', rc) := PubKeyStep(e, far, w);
      rc == Success ==>
        exists rx: bytes, key: bytes ::
          |rx| >= 6 && rx[1] == 0x04 && KeyMatches(w.x.cfg.rspPub, key) && w'.x.transcript == [0x10, 0x84, 0, 0] + rx + e.c.hash(key)
  {
    hide GetVersionStep, FetchPubKeyStep, KeyMatches, far.Valid, e.Valid;
    var w0 := w.(x := ResetTranscript(w.x));
    VersionUndone(far, w0);
    VersionKeeps(far, w0);
    var (w1, rc1) := GetVersionStep(far, w0);
    PubKeyFetched(e, far, w1);
    if rc1 == Success && FetchPubKeyStep(e, far, w1).1 == Success {
      var rx: bytes :| |rx| >= 6 && rx[1] == 0x04 && w1.x.transcript == w0.x.transcript + [0x10, 0x84, 0, 0] + rx;
      assert w0.x.transcript + [0x10, 0x84, 0, 0] + rx == [0x10, 0x84, 0, 0] + rx;
    }
  }
}
