/**
 * The requester's side of the TCG and PSK handshakes (spdm_msg.c, spdm_tcg.c, spdm_psk.c): what it sends and
 * what it makes of any reply, as functions of its context.
 */
module RequesterSpec {
  import opened Bytes
  import opened Codes
  import opened Crypto
  import opened Records
  import opened Context
  import opened ResponderSpec

  const GET_VERSION_MESSAGE: bytes := [0x10, GET_VERSION, 0, 0]
  const VENDOR_BUF: nat := 256
  const VENDOR_RX: nat := 512
  const KEY_EX_RX: nat := 192 + 1568 + 4627
  const FINISH_RSP_LIMIT: nat := 262
  const FINISH_OPAQUE_LIMIT: nat := 256
  const RECORD_BUF: nat := MAX_MSG_SIZE + 80
  const TCG_BUF: nat := RECORD_BUF + TCG_HEADER_SIZE

  // ----- VERSION -----

  /** The highest version among the first n entries that lies within the limits; 0 if there is none. */
  function Highest(buf: bytes, n: nat, maxVer: byte): (h: byte)
    requires 6 + 2 * n <= |buf|
    ensures h == 0 || MIN_VERSION <= h <= maxVer
  {
    if n == 0 then 0
    else
      var h := Highest(buf, n - 1, maxVer);
      var ver := buf[6 + 2 * (n - 1) + 1];
      if MIN_VERSION <= ver <= maxVer && ver > h then ver else h
  }

  function MaxVer(x: Ctx): byte {
    if x.cfg.maxVersion != 0 then x.cfg.maxVersion else MAX_VERSION
  }

  /** A reply too short to be the expected response; a 4-byte ERROR passes so that its code can be reported. */
  predicate TooShort(buf: bytes, n: nat) {
    |buf| < 4 || (|buf| < n && buf[1] != SPDM_ERROR)
  }

  function Unexpected(buf: bytes, fallback: Rc): Rc
    requires |buf| >= 4
  {
    if buf[1] == SPDM_ERROR then PeerError else fallback
  }

  function EntryCount(buf: bytes): nat
    requires |buf| >= 6
  {
    (if buf[5] == 0 then buf[4] else buf[5]) as nat
  }

  function ParseVersion(x: Ctx, buf: bytes): (r: (Ctx, Rc))
    ensures r.1 != Success ==> r.0 == x
    ensures r.1 == Success ==> r.0 == x.(ver := r.0.ver, state := Version) && MIN_VERSION <= r.0.ver <= MaxVer(x)
  {
    if TooShort(buf, 6) then (x, InvalidArg)
    else if buf[1] != VERSION_RSP then (x, Unexpected(buf, VersionMismatch))
    else if 6 + 2 * EntryCount(buf) > |buf| then (x, VersionMismatch)
    else
      var h := Highest(buf, EntryCount(buf), MaxVer(x));
      if h == 0 then (x, VersionMismatch) else (x.(ver := h, state := Version), Success)
  }

  /** The negotiated version is the greatest that both sides support, and there is one unless none is shared. */
  lemma {:induction false} HighestIsGreatest(buf: bytes, n: nat, maxVer: byte)
    requires 6 + 2 * n <= |buf|
    ensures forall i :: 0 <= i < n && MIN_VERSION <= buf[6 + 2 * i + 1] <= maxVer ==> buf[6 + 2 * i + 1] <= Highest(buf, n, maxVer)
    ensures Highest(buf, n, maxVer) != 0 ==> exists i :: 0 <= i < n && buf[6 + 2 * i + 1] == Highest(buf, n, maxVer)
  {
    if n > 0 {
      HighestIsGreatest(buf, n - 1, maxVer);
      assert buf[6 + 2 * (n - 1) + 1] == buf[6 + 2 * (n - 1) + 1];
    }
  }

  // ----- CAPABILITIES and ALGORITHMS -----

  const CAPS_DEFAULT: nat := 0x193C0

  function CapabilitiesRequest(ver: byte, caps: nat): bytes {
    [ver, GET_CAPABILITIES, 0, 0, 0, 0x1F, 0, 0] + LE(caps, 4) + [0xC0, 0x07, 0, 0, 0xC0, 0x07, 0, 0]
  }

  function AlgorithmsRequest(ver: byte): bytes {
    [ver, NEGOTIATE_ALGORITHMS, 0x04, 0, 0x30, 0, 0, 0x02] + [0x80, 0, 0, 0] + [0x02, 0, 0, 0] + Zeros(16) + ALG_STRUCTS
  }

  function CheckResponse(ver: byte, rsp: bytes, min: nat, code: byte): (rc: Rc)
    requires min >= 4
    ensures rc == Success ==> |rsp| >= min && rsp[0] == ver && rsp[1] == code
  {
    if |rsp| < 4 then BufferSmall
    else if rsp[1] == SPDM_ERROR then PeerError
    else if |rsp| < min then BufferSmall
    else if rsp[0] != ver then VersionMismatch
    else if rsp[1] != code then PeerError
    else Success
  }

  /** ENCRYPT, MAC and PUB_KEY_ID always; KEY_EX, or for a PSK requester exactly one kind of PSK_CAP. */
  function CheckCapabilities(ver: byte, rsp: bytes, caps: nat): Rc {
    var rc := CheckResponse(ver, rsp, 20, CAPABILITIES_RSP);
    if rc != Success then rc
    else if |rsp| != 20 then PeerError
    else
      var flags, dts, max := Get32(rsp, 8), Get32(rsp, 12), Get32(rsp, 16);
      if !Bit(flags, 6) || !Bit(flags, 7) || !Bit(flags, 16) || (!Bit(caps, 10) && !Bit(flags, 9)) then PeerError
      else if Bit(caps, 10) && Bit(flags, 10) == Bit(flags, 11) then PeerError
      else if dts < 42 || max < dts then PeerError
      else Success
  }

  function CheckAlgorithms(ver: byte, rsp: bytes): Rc {
    var rc := CheckResponse(ver, rsp, 52, ALGORITHMS_RSP);
    if rc != Success then rc
    else if |rsp| != 52 || Get16(rsp, 4) != |rsp| || rsp[2] != 4 || rsp[3] != 0 || rsp[6] != 0 || rsp[7] != 2
         || Get32(rsp, 8) != 0 || Get32(rsp, 12) != 0x80 || Get32(rsp, 16) != 2
         || rsp[20..36] != Zeros(16) || rsp[36..52] != ALG_STRUCTS then PeerError
    else Success
  }

  // ----- Vendor-defined commands -----

  function VendorRequest(ver: byte, code: bytes, payload: bytes): bytes {
    [ver, VENDOR_DEFINED_REQUEST, 0, 0] + LE(1, 2) + [0] + LE(8 + |payload|, 2) + code + payload
  }

  function VendorVer(x: Ctx): byte {
    if x.ver != 0 then x.ver else 0x13
  }

  /** What a clear vendor command makes of the reply: the payload of a response with the command's own code. */
  function VendorPayload(code: bytes, rsp: bytes): Result<bytes> {
    if |rsp| >= 4 && rsp[1] == SPDM_ERROR then Err(PeerError)
    else match ParseVendor(rsp, VENDOR_BUF)
      case None => Err(BufferSmall)
      case Some(v) => if v.code != code then Err(PeerError) else Ok(v.payload)
  }

  /** The point inside a raw key (X || Y) or at the end of a TPMT_PUBLIC. */
  function EccPoint(key: bytes): Option<bytes> {
    if |key| == ECC_POINT_SIZE then Some(key)
    else if |key| < ECC_POINT_SIZE + 4 then None
    else
      var off := |key| - (ECC_POINT_SIZE + 4);
      if GetBE(key, off, 2) != ECC_KEY_SIZE || GetBE(key, off + 2 + ECC_KEY_SIZE, 2) != ECC_KEY_SIZE then None
      else Some(key[off + 2..off + 2 + ECC_KEY_SIZE] + key[off + 4 + ECC_KEY_SIZE..])
  }

  /** The fetched key against the configured one, if there is one. */
  function CheckPubKey(configured: Option<bytes>, key: bytes): Rc {
    if configured.None? then Success
    else if |configured.value| != ECC_POINT_SIZE then BadState
    else if EccPoint(key) != configured then PeerError
    else Success
  }

  // ----- KEY_EXCHANGE -----

  const OPAQUE_STANDARD: bytes :=
    [0x14, 0, 1, 0, 0, 0, 0, 0, 9, 0, 1, 1, 3, 0, 0x10, 0, 0x11, 0, 0x12, 0, 0, 0]
  const OPAQUE_NUVOTON: bytes := [0x0C, 0, 0, 0, 5, 0, 1, 1, 1, 0, 0x10, 0, 0, 0]
  const OPAQUE_NATIONS: bytes := [0, 0]
  const OPAQUE_TCG: bytes := [0x10, 0, 1, 0, 0, 0, 0, 0, 5, 0, 1, 1, 1, 0, 0x10, 0, 0, 0]

  function Opaque(mode: Mode): bytes {
    match mode
    case TcgBinding => OPAQUE_TCG
    case Nuvoton => OPAQUE_NUVOTON
    case Nations => OPAQUE_NATIONS
    case _ => OPAQUE_STANDARD
  }

  /** The ECDHE request of the TCG binding: slot 0xFF, a provisioned key. */
  function KeyExchangeRequest(ver: byte, mode: Mode, reqSid: nat, random: bytes, pub: bytes): bytes {
    [ver, KEY_EXCHANGE, 0, 0xFF] + LE(reqSid, 2) + [0, 0] + random + pub + Opaque(mode)
  }

  function BuildKeyExchange(e: Env, x: Ctx): (Ctx, bytes) {
    var priv := e.rnd(x.draws + 1, ECC_KEY_SIZE);
    (x.(eph := x.eph.(priv := Some(priv)), draws := x.draws + 2),
     KeyExchangeRequest(x.ver, x.cfg.mode, x.cfg.reqSid, e.rnd(x.draws, RANDOM_SIZE), e.c.ecPub(priv)))
  }

  /** The session exists only once ResponderVerifyData has checked out. */
  function OpenSession(x: Ctx, verify: bytes, rspSid: nat, mutAuth: byte, c: Crypto): (Ctx, Rc) {
    if c.hmac(x.keys.rspFinished, x.hashes.th1) != verify then (x, BadHmac)
    else
      var (x1, rc) := Add(x, verify);
      if rc != Success then (x1, rc)
      else (x1.(sess := Session(rspSid, SessionId(x.cfg.reqSid, rspSid), mutAuth), state := KeyEx), Success)
  }

  /** Once the signature has verified: it joins the transcript, then shared secret, TH1 and handshake keys. */
  function AgreeKeys(e: Env, x: Ctx, sig: bytes, peer: bytes): (Ctx, Rc) {
    var (x1, rc) := Add(x, sig);
    if rc != Success then (x1, rc)
    else if x1.eph.priv.None? then (x1, BadState)
    else match e.c.ecShared(x1.eph.priv.value, peer)
      case None => (x1.(eph := x1.eph.(shared := [])), CryptoFail)
      case Some(shared) => (EcdheHandshake(e, x1, shared), Success)
  }

  function ParseKeyExchangeRsp(e: Env, x: Ctx, buf: bytes): (Ctx, Rc) {
    if TooShort(buf, 140) then (x, InvalidArg)
    else if buf[1] != KEY_EXCHANGE_RSP then (x, Unexpected(buf, KeyExchangeErr))
    else if x.cfg.mode == Auto && buf[6] != 0 then (x, KeyExchangeErr)
    else
      var sigOff := 138 + Get16(buf, 136);
      if |buf| < sigOff + ECC_SIG_SIZE + HASH_SIZE then (x, BufferSmall)
      else
        var sig := buf[sigOff..sigOff + ECC_SIG_SIZE];
        var (x1, rc1) := Add(x, buf[..sigOff]);
        if rc1 != Success then (x1, rc1)
        else if x.cfg.rspPub.None? then (x1, BadState)
        else if !e.c.verify(x.cfg.rspPub.value, SignedHash(e.c, x.ver, x1.transcript), sig) then (x1, BadSignature)
        else
          var (x2, rc2) := AgreeKeys(e, x1, sig, buf[40..136]);
          if rc2 != Success then (x2, rc2)
          else OpenSession(x2, buf[sigOff + ECC_SIG_SIZE..sigOff + ECC_SIG_SIZE + HASH_SIZE], Get16(buf, 4), buf[6], e.c)
  }

  // ----- FINISH -----

  predicate MutualAuth(x: Ctx) {
    x.sess.mutAuth % 2 == 1
  }

  const SIGN_FINISH: string := "requester-finish signing"

  function FinishHeader(x: Ctx): bytes {
    [x.ver, FINISH] + (if MutualAuth(x) then [1, 0xFF] else [0, 0]) + if x.ver >= 0x14 then [0, 0] else []
  }

  /** The requester's own signature over TH2, when the responder asked for one. */
  function AddSignature(e: Env, x: Ctx): (Ctx, Result<bytes>) {
    if !MutualAuth(x) then (x, Ok([]))
    else if x.cfg.keyPair.None? then (x, Err(BadState))
    else
      var sig := e.c.sign(x.cfg.keyPair.value, e.c.hash(SignedMessage(x.ver, SIGN_FINISH, x.hashes.th2)), e.rnd(x.draws, ECC_KEY_SIZE));
      var (x1, rc) := Add(x.(draws := x.draws + 1), sig);
      (x1, if rc != Success then Err(rc) else Ok(sig))
  }

  /** RequesterVerifyData under the finished key, over the transcript so far. */
  function Confirm(e: Env, x: Ctx, msg: bytes): (Ctx, Result<bytes>) {
    var mac := e.c.hmac(x.keys.reqFinished, e.c.hash(x.transcript));
    var (x1, rc) := Add(x, mac);
    (x1, if rc != Success then Err(rc) else Ok(msg + mac))
  }

  /** Hash of the requester's TPMT_PUBLIC ahead of the FINISH header, with mutual authentication only. */
  function AddCm(e: Env, x: Ctx): (Ctx, Rc) {
    if MutualAuth(x) && x.cfg.tpmt != [] then Add(x, e.c.hash(x.cfg.tpmt)) else (x, Success)
  }

  function BuildFinish(e: Env, x: Ctx): (Ctx, Result<bytes>) {
    if MutualAuth(x) && x.cfg.keyPair.None? then (x, Err(BadState))
    else
      var (x1, rc1) := AddCm(e, x);
      if rc1 != Success then (x1, Err(rc1))
      else
        var (x2, rc2) := Add(x1, FinishHeader(x));
        if rc2 != Success then (x2, Err(rc2))
        else
          var (x3, sig) := AddSignature(e, x2.(hashes := x2.hashes.(th2 := e.c.hash(x2.transcript))));
          if sig.Err? then (x3, sig) else Confirm(e, x3, FinishHeader(x) + sig.value)
  }

  /** The length of FINISH_RSP with the opaque data that 1.4 adds. */
  function FinishRspLength(ver: byte, buf: bytes): (n: Result<nat>)
    requires |buf| >= 4
    ensures n.Ok? ==> n.value <= |buf|
  {
    if ver < 0x14 then Ok(4)
    else if |buf| < 6 then Err(BufferSmall)
    else if Get16(buf, 4) > FINISH_OPAQUE_LIMIT then Err(InvalidArg)
    else if |buf| < 6 + Get16(buf, 4) then Err(BufferSmall)
    else Ok(6 + Get16(buf, 4))
  }

  function ParseFinishRsp(x: Ctx, buf: bytes): (Ctx, Rc) {
    if |buf| < 4 then (x, InvalidArg)
    else if buf[1] != FINISH_RSP then (x, Unexpected(buf, BadState))
    else
      var n := FinishRspLength(x.ver, buf);
      if n.Err? then (x, n.rc)
      else
        var (x1, rc) := Add(x, buf[..n.value]);
        if rc != Success then (x1, rc) else (x1.(state := Finish), Success)
  }

  // ----- PSK -----

  function PskExchangeRequest(ver: byte, reqSid: nat, hint: bytes, random: bytes): bytes {
    [ver, PSK_EXCHANGE, 0, 0] + LE(reqSid, 2) + LE(|hint|, 2) + LE(RANDOM_SIZE, 2) + LE(0, 2) + hint + random
  }

  function BuildPskExchange(e: Env, x: Ctx): (Ctx, Result<bytes>) {
    if x.psk == [] then (x, Err(BadState))
    else (x.(draws := x.draws + 1), Ok(PskExchangeRequest(x.ver, x.cfg.reqSid, x.cfg.pskHint, e.rnd(x.draws, RANDOM_SIZE))))
  }

  function ParsePskExchangeRsp(e: Env, x: Ctx, buf: bytes): (Ctx, Rc) {
    if TooShort(buf, 59) then (x, InvalidArg)
    else if buf[1] != PSK_EXCHANGE_RSP then (x, Unexpected(buf, KeyExchangeErr))
    else
      var off := 12 + Get16(buf, 8) + Get16(buf, 10);
      if |buf| < off + HASH_SIZE then (x, BufferSmall)
      else
        var (x1, rc) := Add(x, buf[..off]);
        if rc != Success then (x1, rc)
        else
          var x2 := x1.(hashes := x1.hashes.(th1 := e.c.hash(x1.transcript)));
          if x2.psk == [] then (x2, BadState)
          else OpenSession(PskHandshake(e, x2), buf[off..off + HASH_SIZE], Get16(buf, 4), x.sess.mutAuth, e.c)
  }

  function BuildPskFinish(e: Env, x: Ctx): (Ctx, Result<bytes>) {
    var header := [x.ver, PSK_FINISH, 0, 0];
    var (x1, rc) := Add(x, header);
    if rc != Success then (x1, Err(rc))
    else Confirm(e, x1.(hashes := x1.hashes.(th2 := e.c.hash(x1.transcript))), header)
  }

  function ParsePskFinishRsp(x: Ctx, buf: bytes): (Ctx, Rc) {
    if |buf| < 4 then (x, InvalidArg)
    else if buf[1] != PSK_FINISH_RSP then (x, Unexpected(buf, BadState))
    else
      var (x1, rc) := Add(x, buf[..4]);
      if rc != Success then (x1, rc) else (x1.(state := Finish), Success)
  }

  // ----- The TCG binding frame -----

  predicate ClearFirst(tx: bytes) {
    tx != [] && 0x10 <= tx[0] <= 0x1F
  }

  /** A clear header for a message that starts like one, a secured header for anything else. */
  function WrapTcg(x: Ctx, tx: bytes): Result<bytes> {
    if |tx| > RECORD_BUF then Err(BufferSmall)
    else Ok(TcgHeader(if ClearFirst(tx) then TAG_CLEAR else TAG_SECURED, TCG_HEADER_SIZE + |tx|, x.binding) + tx)
  }

  /** Strips the reply's header; a FIPS indicator that is not zero is remembered. */
  function UnwrapTcg(x: Ctx, rx: bytes, cap: nat): (Ctx, Result<bytes>) {
    if |rx| > TCG_BUF then (x, Err(IoFail))
    else if |rx| < TCG_HEADER_SIZE then (x, Err(BufferSmall))
    else if GetBE(rx, 0, 2) != TAG_CLEAR && GetBE(rx, 0, 2) != TAG_SECURED then (x, Err(PeerError))
    else
      var fips, size := GetBE(rx, 10, 2), GetBE(rx, 2, 4);
      var x1 := if fips != 0 then x.(binding := x.binding.(fips := fips)) else x;
      if size < TCG_HEADER_SIZE || size > |rx| || size - TCG_HEADER_SIZE > cap then (x1, Err(BufferSmall))
      else (x1, Ok(rx[TCG_HEADER_SIZE..size]))
  }

  // ----- Well-formedness -----

  lemma ParseVersionValid(x: Ctx, buf: bytes)
    requires x.Valid()
    ensures ParseVersion(x, buf).0.Valid()
  {
  }

  lemma OpenSessionValid(x: Ctx, verify: bytes, rspSid: nat, mutAuth: byte, c: Crypto)
    requires x.Valid() && rspSid < 0x1_0000
    ensures OpenSession(x, verify, rspSid, mutAuth, c).0.Valid()
  {
  }

  lemma AgreeKeysValid(e: Env, x: Ctx, sig: bytes, peer: bytes)
    requires e.Valid() && x.Valid()
    ensures AgreeKeys(e, x, sig, peer).0.Valid()
  {
    hide HandshakeKeys, Zeros;
    var x1 := Add(x, sig).0;
    if x1.eph.priv.Some? && e.c.ecShared(x1.eph.priv.value, peer).Some? {
      var shared := e.c.ecShared(x1.eph.priv.value, peer).value;
      HandshakeKeysKeep(e.c, x1.ver, e.c.extract(Zeros(HASH_SIZE), shared), e.c.hash(x1.transcript), x1.keys);
    }
  }

  lemma KeyExchangeRspValid(e: Env, x: Ctx, buf: bytes)
    requires e.Valid() && x.Valid()
    ensures ParseKeyExchangeRsp(e, x, buf).0.Valid()
  {
    hide AgreeKeys, OpenSession, SignedHash, GetLE;
    if |buf| >= 140 && |buf| >= 138 + Get16(buf, 136) + ECC_SIG_SIZE + HASH_SIZE {
      var sigOff := 138 + Get16(buf, 136);
      var sig := buf[sigOff..sigOff + ECC_SIG_SIZE];
      var x1 := Add(x, buf[..sigOff]).0;
      AgreeKeysValid(e, x1, sig, buf[40..136]);
      OpenSessionValid(AgreeKeys(e, x1, sig, buf[40..136]).0, buf[sigOff + ECC_SIG_SIZE..sigOff + ECC_SIG_SIZE + HASH_SIZE],
                       Get16(buf, 4), buf[6], e.c);
    }
  }

  lemma PskExchangeRspValid(e: Env, x: Ctx, buf: bytes)
    requires e.Valid() && x.Valid()
    ensures ParsePskExchangeRsp(e, x, buf).0.Valid()
  {
    hide HandshakeKeys, OpenSession, Fill, GetLE;
    if |buf| >= 59 && |buf| >= 12 + Get16(buf, 8) + Get16(buf, 10) + HASH_SIZE {
      var off := 12 + Get16(buf, 8) + Get16(buf, 10);
      var x1 := Add(x, buf[..off]).0;
      var x2 := x1.(hashes := x1.hashes.(th1 := e.c.hash(x1.transcript)));
      HandshakeKeysKeep(e.c, x2.ver, e.c.extract(Fill(0xFF, HASH_SIZE), x2.psk), e.c.hash(x2.transcript), x2.keys);
      OpenSessionValid(PskHandshake(e, x2), buf[off..off + HASH_SIZE], Get16(buf, 4), x.sess.mutAuth, e.c);
    }
  }

  lemma BuildFinishValid(e: Env, x: Ctx)
    requires e.Valid() && x.Valid()
    ensures BuildFinish(e, x).0.Valid()
  {
    hide SignedMessage, FinishHeader;
    if !MutualAuth(x) || x.cfg.keyPair.Some? {
      var x2 := Add(AddCm(e, x).0, FinishHeader(x)).0;
      SignatureValid(e, x2.(hashes := x2.hashes.(th2 := e.c.hash(x2.transcript))));
    }
  }

  lemma SignatureValid(e: Env, x: Ctx)
    requires e.Valid() && x.Valid()
    ensures AddSignature(e, x).0.Valid()
  {
    hide SignedMessage;
  }

  lemma FinishMessagesValid(e: Env, x: Ctx, buf: bytes)
    requires e.Valid() && x.Valid()
    ensures BuildPskFinish(e, x).0.Valid() && ParsePskFinishRsp(x, buf).0.Valid() && ParseFinishRsp(x, buf).0.Valid()
  {
  }

  lemma RecordsValid(e: Env, x: Ctx, p: bytes, rec: bytes, cap: nat)
    requires e.Valid() && x.Valid()
    ensures Encrypt(e, x, p, cap).0.Valid() && Decrypt(e, x, rec, cap).0.Valid()
    ensures Encrypt(e, x, p, cap).1.Err? ==> Encrypt(e, x, p, cap).1.rc != Success
    ensures Decrypt(e, x, rec, cap).1.Err? ==> Decrypt(e, x, rec, cap).1.rc != Success
  {
    hide Seal, Open;
  }
}
