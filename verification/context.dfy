/**
 * The mutable SPDM context: transcript (spdm_transcript.c), key schedule (spdm_kdf.c, spdm_psk.c) and
 * secured records (spdm_secured.c), each method proved against a function on an immutable snapshot.
 */
module Context {
  import opened Bytes
  import opened Crypto
  import opened Records

  const MAX_TRANSCRIPT: nat := 16384
  const MIN_VERSION: byte := 0x12
  const MAX_VERSION: byte := 0x14

  datatype State = Init | Version | Cert | KeyEx | Finish | Connected | Failed
  {
    function Rank(): nat {
      match this
      case Init => 0 case Version => 1 case Cert => 2 case KeyEx => 3
      case Finish => 4 case Connected => 5 case Failed => 6
    }
  }

  /** Auto is the standard requester; the other modes use the TCG binding. */
  datatype Mode = Auto | TcgBinding | Nuvoton | Nations | NationsPsk
  {
    function Format(): Format {
      if this == Auto then Mctp else Tcg
    }
  }

  datatype Env = Env(c: Crypto, rnd: Entropy)
  {
    ghost predicate Valid() {
      c.Sizes() && Sized(rnd)
    }
  }

  datatype Keys = Keys(handshake: bytes, reqFinished: bytes, rspFinished: bytes,
                       reqApp: bytes, rspApp: bytes, req: Dir, rsp: Dir)
  {
    predicate Valid() {
      req.Valid() && rsp.Valid()
    }
  }

  /** Configured by the caller, or for a responder taken from the peer's request. */
  datatype Config = Config(mode: Mode, maxVersion: byte, reqSid: nat, rspPub: Option<bytes>,
                           keyPair: Option<bytes>, tpmt: bytes, pskHint: bytes)

  datatype Binding = Binding(handle: nat, fips: nat)

  datatype Ephemeral = Ephemeral(priv: Option<bytes>, shared: bytes)

  datatype Hashes = Hashes(cert: bytes, th1: bytes, th2: bytes)

  datatype Session = Session(rspSid: nat, sid: nat, mutAuth: byte)

  /** A snapshot of the context. */
  datatype Ctx = Ctx(state: State, ver: byte, cfg: Config, binding: Binding, psk: bytes, eph: Ephemeral,
                     transcript: bytes, hashes: Hashes, keys: Keys, sess: Session, draws: nat)
  {
    predicate Valid() {
      && keys.Valid()
      && binding.handle < 0x1_0000_0000 && binding.fips < 0x1_0000
      && cfg.reqSid < 0x1_0000 && sess.rspSid < 0x1_0000 && sess.sid < 0x1_0000_0000
      && |transcript| <= MAX_TRANSCRIPT && |cfg.pskHint| <= 32 && |cfg.tpmt| <= 128
    }

    function Format(): Format {
      cfg.mode.Format()
    }
  }

  /** The combined session id: the requester's half below, the responder's above. */
  function SessionId(reqSid: nat, rspSid: nat): nat {
    reqSid + rspSid * 0x1_0000
  }

  /** wolfSPDM_SecuredExchange is refused before a session exists; only the TCG binding sends under handshake keys. */
  predicate SecuredReady(state: State, sid: nat, f: Format) {
    state.Rank() >= KeyEx.Rank() && state != Failed && sid != 0 && (state == KeyEx ==> f.Tcg?)
  }

  const NO_DIR := Dir(Zeros(KEY_SIZE), Zeros(IV_SIZE), 0)

  // ----- Specification functions -----

  function Add(x: Ctx, data: bytes): (r: (Ctx, Rc)) {
    if |data| > MAX_TRANSCRIPT - |x.transcript| then (x, BufferSmall)
    else (x.(transcript := x.transcript + data), Success)
  }

  function TrafficDir(c: Crypto, ver: byte, secret: bytes, num: nat): Dir {
    Dir(TrafficKey(c, ver, secret), TrafficIv(c, ver, secret), num)
  }

  /** How the traffic secret of one direction came about; purpose is the label of DSP0277 for the direction. */
  datatype Derivation =
    | HandshakeSecret(ver: byte, purpose: string, handshake: bytes, th1: bytes)
    | ApplicationSecret(ver: byte, purpose: string, handshake: bytes, transcript: bytes)
    | NextGeneration(ver: byte, previous: Derivation)

  function Secret(c: Crypto, d: Derivation): bytes {
    match d
    case HandshakeSecret(ver, purpose, hs, th1) => ExpandLabel(c, ver, hs, purpose, th1, HASH_SIZE)
    case ApplicationSecret(ver, purpose, hs, transcript) =>
      ExpandLabel(c, ver, MasterSecret(c, ver, hs), purpose, c.hash(transcript), HASH_SIZE)
    case NextGeneration(ver, previous) => NextSecret(c, ver, Secret(c, previous))
  }

  /** How many "traffic upd" steps after the handshake. */
  function Depth(d: Derivation): nat {
    if d.NextGeneration? then 1 + Depth(d.previous) else 0
  }

  /** The key and base IV of a derivation, at record number num. */
  function Generated(c: Crypto, d: Derivation, num: nat): Dir {
    TrafficDir(c, d.ver, Secret(c, d), num)
  }

  /** Handshake traffic and finished keys; the sequence numbers are left alone. */
  function HandshakeKeys(c: Crypto, ver: byte, hs: bytes, th1: bytes, k: Keys): Keys {
    var req := ExpandLabel(c, ver, hs, "req hs data", th1, HASH_SIZE);
    var rsp := ExpandLabel(c, ver, hs, "rsp hs data", th1, HASH_SIZE);
    k.(handshake := hs,
       reqFinished := FinishedKey(c, ver, req), rspFinished := FinishedKey(c, ver, rsp),
       req := TrafficDir(c, ver, req, k.req.num), rsp := TrafficDir(c, ver, rsp, k.rsp.num))
  }

  lemma HandshakeKeysKeep(c: Crypto, ver: byte, hs: bytes, th1: bytes, k: Keys)
    requires c.Sizes() && k.Valid()
    ensures HandshakeKeys(c, ver, hs, th1, k).Valid()
    ensures HandshakeKeys(c, ver, hs, th1, k).req.num == k.req.num
    ensures HandshakeKeys(c, ver, hs, th1, k).rsp.num == k.rsp.num
  {
  }

  /** Application keys over the whole transcript; both sequence numbers restart. */
  function AppKeys(c: Crypto, ver: byte, transcript: bytes, k: Keys): Keys {
    var master := MasterSecret(c, ver, k.handshake);
    var req := ExpandLabel(c, ver, master, "req app data", c.hash(transcript), HASH_SIZE);
    var rsp := ExpandLabel(c, ver, master, "rsp app data", c.hash(transcript), HASH_SIZE);
    k.(reqApp := req, rspApp := rsp, req := TrafficDir(c, ver, req, 0), rsp := TrafficDir(c, ver, rsp, 0))
  }

  /** One direction one "traffic upd" generation later; its sequence number is left alone. */
  function UpdatedReq(c: Crypto, ver: byte, k: Keys): Keys {
    var next := NextSecret(c, ver, k.reqApp);
    k.(reqApp := next, req := TrafficDir(c, ver, next, k.req.num))
  }

  function UpdatedRsp(c: Crypto, ver: byte, k: Keys): Keys {
    var next := NextSecret(c, ver, k.rspApp);
    k.(rspApp := next, rsp := TrafficDir(c, ver, next, k.rsp.num))
  }

  function UpdatedKeys(c: Crypto, ver: byte, k: Keys, all: bool): Keys {
    if all then UpdatedRsp(c, ver, UpdatedReq(c, ver, k)) else UpdatedReq(c, ver, k)
  }

  /** What a derivation in each direction gives: every key, IV and finished key comes from its own direction's secret. */
  lemma HandshakeLineage(c: Crypto, ver: byte, hs: bytes, th1: bytes, k: Keys)
    ensures
      var req, rsp := HandshakeSecret(ver, "req hs data", hs, th1), HandshakeSecret(ver, "rsp hs data", hs, th1);
      HandshakeKeys(c, ver, hs, th1, k)
      == Keys(hs, FinishedKey(c, ver, Secret(c, req)), FinishedKey(c, ver, Secret(c, rsp)), k.reqApp, k.rspApp,
              Generated(c, req, k.req.num), Generated(c, rsp, k.rsp.num))
  {
    hide ExpandLabel, TrafficKey, TrafficIv, FinishedKey;
  }

  lemma ApplicationLineage(c: Crypto, ver: byte, transcript: bytes, k: Keys)
    ensures
      var req := ApplicationSecret(ver, "req app data", k.handshake, transcript);
      var rsp := ApplicationSecret(ver, "rsp app data", k.handshake, transcript);
      AppKeys(c, ver, transcript, k)
      == Keys(k.handshake, k.reqFinished, k.rspFinished, Secret(c, req), Secret(c, rsp), Generated(c, req, 0), Generated(c, rsp, 0))
  {
    hide ExpandLabel, TrafficKey, TrafficIv, MasterSecret;
  }

  /**
   * The request direction is one generation further along its own lineage, the response direction along its own if all
   * are moved and where it was otherwise; nothing else of the schedule moves. Counters are left open.
   */
  ghost predicate OneAhead(c: Crypto, ver: byte, k: Keys, k': Keys, all: bool, req: Derivation, rsp: Derivation) {
    var (nextReq, nextRsp) := (NextGeneration(ver, req), NextGeneration(ver, rsp));
    && k'.reqApp == Secret(c, nextReq) && k'.req == Generated(c, nextReq, k'.req.num)
    && (if all then k'.rspApp == Secret(c, nextRsp) && k'.rsp == Generated(c, nextRsp, k'.rsp.num)
        else k'.rspApp == k.rspApp && k'.rsp.key == k.rsp.key && k'.rsp.iv == k.rsp.iv)
    && k'.handshake == k.handshake && k'.reqFinished == k.reqFinished && k'.rspFinished == k.rspFinished
  }

  /** An update moves each direction along its own lineage and leaves both counters alone. */
  lemma UpdateLineage(c: Crypto, ver: byte, k: Keys, all: bool, req: Derivation, rsp: Derivation)
    requires k.reqApp == Secret(c, req) && k.rspApp == Secret(c, rsp)
    ensures
      var k' := UpdatedKeys(c, ver, k, all);
      OneAhead(c, ver, k, k', all, req, rsp) && k'.req.num == k.req.num && k'.rsp.num == k.rsp.num
  {
    hide NextSecret, TrafficKey, TrafficIv;
  }

  /** Random padding for a message of n bytes; drawn only when there is some. */
  function Padding(e: Env, f: Format, draws: nat, n: nat): bytes {
    if PadSize(f, n) == 0 then [] else e.rnd(draws, PadSize(f, n))
  }

  function DrawsAfter(f: Format, draws: nat, n: nat): nat {
    if PadSize(f, n) == 0 then draws else draws + 1
  }

  ghost function SealWith(e: Env, x: Ctx, d: Dir, p: bytes, cap: nat): Result<bytes>
    requires d.Valid()
  {
    Seal(e.c, x.Format(), false, x.sess.sid, d, p, Padding(e, x.Format(), x.draws, |p|), cap)
  }

  /** wolfSPDM_EncryptInternal on the requester: seals with the req direction. */
  ghost function Encrypt(e: Env, x: Ctx, p: bytes, cap: nat): (r: (Ctx, Result<bytes>))
    requires x.Valid()
  {
    var s := SealWith(e, x, x.keys.req, p, cap);
    if s.Err? then (x, s)
    else (x.(draws := DrawsAfter(x.Format(), x.draws, |p|), keys := x.keys.(req := x.keys.req.Next())), s)
  }

  /** wolfSPDM_DecryptInternal on the requester: opens with the rsp direction. */
  ghost function Decrypt(e: Env, x: Ctx, enc: bytes, cap: nat): (r: (Ctx, Result<bytes>))
    requires x.Valid()
  {
    match Open(e.c, x.Format(), x.sess.sid, x.keys.rsp, enc)
    case Rejected(rc) => (x, Err(rc))
    case Verified(framed) =>
      (x.(keys := x.keys.(rsp := x.keys.rsp.Next())), Unframe(x.Format(), false, framed, cap))
  }

  /** The same two operations as the responder performs them: with the directions exchanged. */
  ghost function RespEncrypt(e: Env, x: Ctx, p: bytes, cap: nat): (r: (Ctx, Result<bytes>))
    requires x.Valid()
  {
    var s := SealWith(e, x, x.keys.rsp, p, cap);
    if s.Err? then (x, s)
    else (x.(draws := DrawsAfter(x.Format(), x.draws, |p|), keys := x.keys.(rsp := x.keys.rsp.Next())), s)
  }

  ghost function RespDecrypt(e: Env, x: Ctx, enc: bytes, cap: nat): (r: (Ctx, Result<bytes>))
    requires x.Valid()
  {
    match Open(e.c, x.Format(), x.sess.sid, x.keys.req, enc)
    case Rejected(rc) => (x, Err(rc))
    case Verified(framed) =>
      (x.(keys := x.keys.(req := x.keys.req.Next())), Unframe(x.Format(), false, framed, cap))
  }

  const NO_HASH := Zeros(HASH_SIZE)
  const NO_HASHES := Hashes(NO_HASH, NO_HASH, NO_HASH)
  const NO_KEYS := Keys(NO_HASH, NO_HASH, NO_HASH, NO_HASH, NO_HASH, NO_DIR, NO_DIR)
  const NO_SESSION := Session(0, 0, 0)
  const NO_EPHEMERAL := Ephemeral(None, [])

  /** The state wolfSPDM_Init leaves. */
  const NEW_CTX := Ctx(Init, 0, Config(Auto, 0, 1, None, None, [], []), Binding(0, 0), [], NO_EPHEMERAL, [],
                       NO_HASHES, NO_KEYS, NO_SESSION, 0)

  /** wolfSPDM_ResetSession: configured keys, PSK and session id stay, session material goes. */
  function ResetSession(x: Ctx): Ctx {
    x.(state := Init, sess := NO_SESSION, keys := NO_KEYS, eph := NO_EPHEMERAL,
       hashes := x.hashes.(th1 := NO_HASH, th2 := NO_HASH))
  }

  function ResetTranscript(x: Ctx): Ctx {
    x.(transcript := [], hashes := NO_HASHES)
  }

  lemma FrameLength(f: Format, p: bytes, pad: bytes)
    ensures |Frame(f, false, p, pad)| == |p| + if f.Tcg? then 2 + |pad| else 3
  {
  }

  // ----- The context object -----

  class SpdmContext {
    const env: Env
    var state: State
    var spdmVersion: byte
    var cfg: Config
    var binding: Binding
    var psk: bytes
    var eph: Ephemeral
    var transcript: bytes
    var hashes: Hashes
    var keys: Keys
    var sess: Session
    var draws: nat

    ghost function Snap(): Ctx
      reads this
    {
      Ctx(state, spdmVersion, cfg, binding, psk, eph, transcript, hashes, keys, sess, draws)
    }

    ghost predicate Valid()
      reads this
    {
      env.Valid() && Snap().Valid()
    }

    constructor (env: Env)
      requires env.Valid()
      ensures Valid() && this.env == env && Snap() == NEW_CTX
    {
      this.env := env;
      state, spdmVersion := Init, 0;
      cfg := Config(Auto, 0, 1, None, None, [], []);
      binding, psk, eph := Binding(0, 0), [], NO_EPHEMERAL;
      transcript, hashes, keys, sess, draws := [], NO_HASHES, NO_KEYS, NO_SESSION, 0;
    }

    method TranscriptReset()
      requires Valid()
      modifies this`transcript, this`hashes
      ensures Valid() && Snap() == ResetTranscript(old(Snap()))
    {
      transcript := [];
      hashes := NO_HASHES;
    }

    method TranscriptAdd(data: bytes) returns (rc: Rc)
      requires Valid()
      modifies this`transcript
      ensures Valid() && (Snap(), rc) == Add(old(Snap()), data)
    {
      if |data| > MAX_TRANSCRIPT - |transcript| {
        return BufferSmall;
      }
      transcript := transcript + data;
      rc := Success;
    }

    method GetRandom(n: nat) returns (out: bytes)
      requires Valid()
      modifies this`draws
      ensures Valid() && draws == old(draws) + 1
      ensures out == env.rnd(old(draws), n) && |out| == n
    {
      out := env.rnd(draws, n);
      draws := draws + 1;
    }

    /** TCG plaintext: application length, message, random padding to a multiple of 16. */
    method PlainTcg(plain: bytes, cap: nat) returns (r: Result<bytes>)
      requires Valid() && cfg.mode != Auto
      modifies this`draws
      ensures Valid() && (r.Ok? <==> cap >= 14 + 2 + |plain| + PadSize(Tcg, |plain|) + TAG_SIZE)
      ensures r.Err? ==> r.rc == BufferSmall && draws == old(draws)
      ensures r.Ok? ==> draws == DrawsAfter(Tcg, old(draws), |plain|)
      ensures r.Ok? ==> r.value == Frame(Tcg, false, plain, Padding(env, Tcg, old(draws), |plain|))
    {
      var unpadded := 2 + |plain|;
      var padLen := (16 - unpadded % 16) % 16;
      if cap < 14 + unpadded + padLen + TAG_SIZE {
        return Err(BufferSmall);
      }
      var pad: bytes := [];
      if padLen > 0 {
        pad := GetRandom(padLen);
      }
      r := Ok(LE(|plain|, 2) + plain + pad);
    }

    /** MCTP plaintext: application length, message type, message; the record number must fit 16 bits. */
    method PlainMctp(plain: bytes, cap: nat) returns (r: Result<bytes>)
      requires Valid() && cfg.mode == Auto
      ensures r == if keys.req.num > 0xFFFF then Err(SequenceErr)
                   else if cap < 8 + 3 + |plain| + TAG_SIZE then Err(BufferSmall)
                   else Ok(Frame(Mctp, false, plain, []))
    {
      if keys.req.num > 0xFFFF {
        return Err(SequenceErr);
      }
      if cap < 8 + 3 + |plain| + TAG_SIZE {
        return Err(BufferSmall);
      }
      r := Ok(LE(1 + |plain|, 2) + [MCTP_TYPE_SPDM] + plain);
    }

    /** Header and AEAD over a framed plaintext, with the req direction. */
    method SealRecord(framed: bytes) returns (rec: bytes)
      requires Valid()
      ensures rec == Record(env.c, cfg.mode.Format(), sess.sid, keys.req, framed)
    {
      hide RecordIV, LE;
      var header := LE(sess.sid, 4) + LE(keys.req.num, if cfg.mode != Auto then 8 else 2) + LE(|framed| + TAG_SIZE, 2);
      var iv := BuildIV(keys.req.iv, keys.req.num);
      rec := header + env.c.seal(keys.req.key, iv[..], header, framed);
    }

    /** One record with the req direction: plaintext, header, AEAD over both, and the counter. */
    method EncryptInternal(plain: bytes, cap: nat) returns (r: Result<bytes>)
      requires Valid()
      modifies this`keys, this`draws
      ensures Valid() && (Snap(), r) == Encrypt(env, old(Snap()), plain, cap)
    {
      hide Record, Frame, LE;
      FrameLength(cfg.mode.Format(), plain, Padding(env, cfg.mode.Format(), draws, |plain|));
      if |plain| > XFER_MSG_SIZE {
        return Err(BufferSmall);
      }
      if cfg.mode != Auto {
        r := PlainTcg(plain, cap);
      } else {
        r := PlainMctp(plain, cap);
      }
      if r.Err? {
        return;
      }
      var rec := SealRecord(r.value);
      keys := keys.(req := keys.req.(num := (keys.req.num + 1) % TWO64));
      r := Ok(rec);
    }

    /** Header checks in order, then the AEAD. */
    method OpenRecord(enc: bytes) returns (o: Opened)
      requires Valid()
      ensures o == Open(env.c, cfg.mode.Format(), sess.sid, keys.rsp, enc)
    {
      hide RecordIV, GetLE;
      var tcg := cfg.mode != Auto;
      var hdr := if tcg then 14 else 8;
      if |enc| < hdr + TAG_SIZE {
        return Rejected(BufferSmall);
      }
      var num := if tcg then Get64(enc, 4) else Get16(enc, 4);
      var len := Get16(enc, hdr - 2);
      if Get32(enc, 0) != sess.sid {
        return Rejected(SessionInvalid);
      }
      if num != keys.rsp.num {
        return Rejected(SequenceErr);
      }
      if len < TAG_SIZE || |enc| < hdr + len || (!tcg && |enc| != hdr + len) {
        return Rejected(BufferSmall);
      }
      if len - TAG_SIZE > XFER_MSG_SIZE + SECURED_PAD {
        return Rejected(BufferSmall);
      }
      var iv := BuildIV(keys.rsp.iv, num);
      var plaintext := env.c.open(keys.rsp.key, iv[..], enc[..hdr], enc[hdr..hdr + len]);
      o := if plaintext == None then Rejected(DecryptFail) else Verified(plaintext.value);
    }

    /** The application length and type, and the message itself. */
    method UnframeMessage(framed: bytes, cap: nat) returns (r: Result<bytes>)
      ensures r == Unframe(cfg.mode.Format(), false, framed, cap)
    {
      hide GetLE;
      if |framed| < 2 {
        return Err(BufferSmall);
      }
      var appLen := Get16(framed, 0);
      if cfg.mode != Auto {
        if |framed| < 2 + appLen || cap < appLen {
          return Err(BufferSmall);
        }
        r := Ok(framed[2..2 + appLen]);
      } else if appLen < 1 || |framed| < 2 + appLen || cap < appLen - 1 {
        r := Err(BufferSmall);
      } else if framed[2] != MCTP_TYPE_SPDM {
        r := Err(DecryptFail);
      } else {
        r := Ok(framed[3..2 + appLen]);
      }
    }

    /** The record, the counter, then the message inside. */
    method DecryptInternal(enc: bytes, cap: nat) returns (r: Result<bytes>)
      requires Valid()
      modifies this`keys
      ensures Valid() && (Snap(), r) == Decrypt(env, old(Snap()), enc, cap)
    {
      hide Open, Unframe;
      var o := OpenRecord(enc);
      match o
      case Rejected(rc) =>
        return Err(rc);
      case Verified(framed) =>
        // the tag verified, so the peer has advanced: so do we, whatever the payload
        keys := keys.(rsp := keys.rsp.(num := (keys.rsp.num + 1) % TWO64));
        r := UnframeMessage(framed, cap);
    }

    /** Exchanges the two directions: keys, base IVs and counters. */
    method SwapDataDir()
      requires Valid()
      modifies this`keys
      ensures Valid()
      ensures keys == old(keys).(req := old(keys).rsp, rsp := old(keys).req)
    {
      var tmp := keys.req;
      keys := keys.(req := keys.rsp);
      keys := keys.(rsp := tmp);
    }

    /** Swap, encrypt, swap back: only the rsp direction's counter moves. */
    method RespEncryptRecord(plain: bytes, cap: nat) returns (r: Result<bytes>)
      requires Valid()
      modifies this`keys, this`draws
      ensures Valid() && (Snap(), r) == RespEncrypt(env, old(Snap()), plain, cap)
    {
      SwapDataDir();
      r := EncryptInternal(plain, cap);
      SwapDataDir();
    }

    method RespDecryptRecord(enc: bytes, cap: nat) returns (r: Result<bytes>)
      requires Valid()
      modifies this`keys
      ensures Valid() && (Snap(), r) == RespDecrypt(env, old(Snap()), enc, cap)
    {
      SwapDataDir();
      r := DecryptInternal(enc, cap);
      SwapDataDir();
    }

    method DeriveFromHandshakeSecret(th: bytes)
      requires Valid()
      modifies this`keys
      ensures Valid()
      ensures keys == HandshakeKeys(env.c, spdmVersion, old(keys).handshake, th, old(keys))
    {
      var c, v := env.c, spdmVersion;
      var reqHs := ExpandLabel(c, v, keys.handshake, "req hs data", th, HASH_SIZE);
      var rspHs := ExpandLabel(c, v, keys.handshake, "rsp hs data", th, HASH_SIZE);
      keys := keys.(reqFinished := FinishedKey(c, v, reqHs));
      keys := keys.(rspFinished := FinishedKey(c, v, rspHs));
      keys := keys.(req := keys.req.(key := TrafficKey(c, v, reqHs), iv := TrafficIv(c, v, reqHs)));
      keys := keys.(rsp := keys.rsp.(key := TrafficKey(c, v, rspHs), iv := TrafficIv(c, v, rspHs)));
    }

    method DeriveAppDataKeys()
      requires Valid()
      modifies this`keys
      ensures Valid()
      ensures keys == AppKeys(env.c, spdmVersion, transcript, old(keys))
    {
      var c, v := env.c, spdmVersion;
      var th := c.hash(transcript);
      var salt := ExpandLabel(c, v, keys.handshake, "derived", [], HASH_SIZE);
      var master := c.extract(salt, Zeros(HASH_SIZE));
      var reqApp := ExpandLabel(c, v, master, "req app data", th, HASH_SIZE);
      var rspApp := ExpandLabel(c, v, master, "rsp app data", th, HASH_SIZE);
      keys := keys.(req := keys.req.(key := TrafficKey(c, v, reqApp), iv := TrafficIv(c, v, reqApp)));
      keys := keys.(rsp := keys.rsp.(key := TrafficKey(c, v, rspApp), iv := TrafficIv(c, v, rspApp)));
      keys := keys.(reqApp := reqApp, rspApp := rspApp);
      keys := keys.(req := keys.req.(num := 0), rsp := keys.rsp.(num := 0));
    }

    method DeriveUpdatedKeys(updateAll: bool)
      requires Valid()
      modifies this`keys
      ensures Valid()
      ensures keys == UpdatedKeys(env.c, spdmVersion, old(keys), updateAll)
      ensures forall req, rsp :: old(keys).reqApp == Secret(env.c, req) && old(keys).rspApp == Secret(env.c, rsp) ==>
                OneAhead(env.c, spdmVersion, old(keys), keys, updateAll, req, rsp)
    {
      var c, v := env.c, spdmVersion;
      var next := NextSecret(c, v, keys.reqApp);
      keys := keys.(req := keys.req.(key := TrafficKey(c, v, next), iv := TrafficIv(c, v, next)));
      keys := keys.(reqApp := next);
      if updateAll {
        next := NextSecret(c, v, keys.rspApp);
        keys := keys.(rsp := keys.rsp.(key := TrafficKey(c, v, next), iv := TrafficIv(c, v, next)));
        keys := keys.(rspApp := next);
      }
      forall req, rsp | old(keys).reqApp == Secret(c, req) && old(keys).rspApp == Secret(c, rsp)
        ensures OneAhead(c, v, old(keys), keys, updateAll, req, rsp)
      {
        UpdateLineage(c, v, old(keys), updateAll, req, rsp);
      }
    }

    method SessionReset()
      requires Valid()
      modifies this
      ensures Valid() && Snap() == ResetSession(old(Snap()))
    {
      state := Init;
      sess := NO_SESSION;
      keys := NO_KEYS;
      hashes := hashes.(th1 := NO_HASH, th2 := NO_HASH);
      eph := NO_EPHEMERAL;
    }
  }
  /** What a reset keeps and what it takes. */
  lemma ResetKeeps(x: Ctx)
    ensures
      var y := ResetSession(x);
      && y.state == Init && y.sess.sid == 0 && y.sess.mutAuth == 0 && y.eph == Ephemeral(None, []) && y.hashes.cert == x.hashes.cert
      && y.keys.handshake == y.keys.reqFinished == y.keys.rspFinished == y.keys.reqApp == y.keys.rspApp == Zeros(48)
      && y.keys.req == y.keys.rsp == Dir(Zeros(32), Zeros(12), 0)
      && y.cfg == x.cfg && y.psk == x.psk && y.binding == x.binding && y.ver == x.ver && y.transcript == x.transcript && y.draws == x.draws
  {
  }
}
