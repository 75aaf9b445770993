/** The responder (spdm_responder.c): its message handling as a function of its state, and its entities. */
module ResponderSpec {
  import opened Bytes
  import opened Codes
  import opened Crypto
  import opened Records
  import opened Context

  /** The responder's FINISH path has no 1.4 form. */
  const RESP_MAX_VERSION: byte := 0x13

  const TAG_CLEAR: nat := 0x8101
  const TAG_SECURED: nat := 0x8201
  const TCG_HEADER_SIZE: nat := 16
  const RSP_SESSION_ID: nat := 0xFFFE
  const PSK_MAX_SIZE: nat := 64
  const VENDOR_OVERHEAD: nat := 17

  datatype IdentityKey = IdentityKey(priv: bytes, pub: bytes)

  datatype Flags = Flags(useTcg: bool, usePsk: bool, lock: bool, provisioned: bool, clearAuthSet: bool,
                         sessionAsym: bool, pendingAsym: bool)

  /** The dispatcher for tunneled TPM commands: the answer to the i-th command, or a failure. */
  type TpmCallback = (nat, bytes) -> Option<bytes>

  /** A snapshot of the responder. */
  datatype Resp = Resp(ctx: Ctx, flags: Flags, id: Option<IdentityKey>, clearAuthDigest: bytes,
                       pskStore: bytes, hintStore: bytes, tpmCalls: nat)
  {
    predicate Valid() {
      && ctx.Valid()
      && |pskStore| <= PSK_MAX_SIZE && |hintStore| <= 32
      && (id.Some? ==> |id.value.pub| == ECC_POINT_SIZE)
    }
  }

  /** The state wolfSPDM_RespInit leaves. */
  const NEW_RESP := Resp(NEW_CTX, Flags(false, false, false, false, false, false, false), None, NO_HASH, [], [], 0)

  datatype RespEnv = RespEnv(e: Env, tpm: Option<TpmCallback>)

  /** What an observer of the responder's internals would record. */
  datatype Event =
    | ResetEvent
    | ExchangeEvent(asym: bool, finishedKey: bytes, how: Derivation)  // handshake keys are in force
    | OpenedEvent(connected: bool)
    | SealedEvent(d: Dir)                                             // a reply was sealed
    | KeysEvent(how: Derivation)                                      // application keys are in force
    | FinishEvent(asym: bool, finishedKey: bytes, th2: bytes, mac: bytes)
    | TpmEvent(command: bytes)
    | LockEvent(locked: bool)

  datatype Out = Out(r: Resp, rc: Rc, out: bytes, evs: seq<Event>)

  function Fail(r: Resp, rc: Rc): Out {
    Out(r, rc, [], [])
  }

  // ----- Reset, errors, version selection -----

  function Dropped(x: Ctx): Ctx {
    x.(state := Init, keys := NO_KEYS, eph := NO_EPHEMERAL, transcript := [], hashes := NO_HASHES, sess := x.sess.(sid := 0))
  }

  /** wolfSPDM_RespReset: identity key, PSK store, mode and the pinned version survive. */
  function Reset(r: Resp): Resp {
    r.(ctx := Dropped(r.ctx), flags := r.flags.(sessionAsym := false, pendingAsym := false))
  }

  function ErrorReply(r: Resp, code: byte, data: byte, cap: nat): Out {
    if cap < 4 then Fail(r, BufferSmall)
    else Out(r, Success, [if r.ctx.ver != 0 then r.ctx.ver else 0x10, SPDM_ERROR, code, data], [])
  }

  function SelectVersion(x: Ctx, ver: byte, vendor: bool): (Ctx, Rc) {
    if x.ver != 0 then (x, if ver == x.ver then Success else VersionMismatch)
    else if x.state != Version then (x, if vendor then Success else BadState)
    else if ver < MIN_VERSION || ver > RESP_MAX_VERSION then (x, VersionMismatch)
    else (x.(ver := ver), Success)
  }

  // ----- Clear responses -----

  const VERSION_MESSAGE: bytes := [0x10, VERSION_RSP, 0, 0, 0, 2, 0, 0x12, 0, 0x13]

  function BuildVersion(r: Resp, cap: nat): Out {
    if cap < 10 then Fail(r, BufferSmall)
    else Out(r.(ctx := r.ctx.(ver := 0, state := Version)), Success, VERSION_MESSAGE, [])
  }

  function CapabilitiesMessage(ver: byte, psk: bool): bytes {
    [ver, CAPABILITIES_RSP, 0, 0, 0, 0x1F, 0, 0] + LE(if psk then 0x197C0 else 0x193C0, 4) +
    [0xC0, 0x07, 0, 0, 0xC0, 0x07, 0, 0]
  }

  const ALG_STRUCTS: bytes := [0x02, 0x20, 0x10, 0, 0x03, 0x20, 0x02, 0, 0x04, 0x20, 0x80, 0, 0x05, 0x20, 0x01, 0]

  /** Algorithm set B alone: no MeasurementHashAlgo, ECDSA P-384, SHA-384, then the reserved fields. */
  function AlgorithmsMessage(ver: byte): bytes {
    [ver, ALGORITHMS_RSP, 0x04, 0, 0x34, 0, 0, 0x02] + [0, 0, 0, 0] + [0x80, 0, 0, 0] + [0x02, 0, 0, 0] + Zeros(16) + ALG_STRUCTS
  }

  function BuildMessage(r: Resp, msg: bytes, cap: nat): Out {
    if cap < |msg| then Fail(r, BufferSmall) else Out(r, Success, msg, [])
  }

  function CombinedId(reqSid: nat): nat {
    SessionId(reqSid, RSP_SESSION_ID)
  }

  function PskPartial(ver: byte, random: bytes): bytes {
    [ver, PSK_EXCHANGE_RSP, 0, 0] + LE(RSP_SESSION_ID, 2) + [0, 0] + LE(RANDOM_SIZE, 2) + LE(0, 2) + random
  }

  /** Adds data to the transcript of r; the continuation runs only if it fits. */
  function AddTo(r: Resp, data: bytes): (Resp, Rc) {
    var (x, rc) := Add(r.ctx, data);
    (r.(ctx := x), rc)
  }

  function PskHandshake(e: Env, x: Ctx): Ctx {
    var th := e.c.hash(x.transcript);
    x.(hashes := x.hashes.(th1 := th),
       keys := HandshakeKeys(e.c, x.ver, e.c.extract(Fill(0xFF, HASH_SIZE), x.psk), th, x.keys), psk := [])
  }

  /** How the response direction's secrets came about: from the handshake secret and TH1, then from the whole transcript. */
  function HandshakeOf(x: Ctx): Derivation {
    HandshakeSecret(x.ver, "rsp hs data", x.keys.handshake, x.hashes.th1)
  }

  function ApplicationOf(x: Ctx): Derivation {
    ApplicationSecret(x.ver, "rsp app data", x.keys.handshake, x.transcript)
  }

  /** ResponderVerifyData ends both kinds of exchange: the session is negotiating from here on. */
  function ExchangeTail(e: Env, r: Resp, body: bytes, asym: bool): Out {
    var verifyData := e.c.hmac(r.ctx.keys.rspFinished, r.ctx.hashes.th1);
    var (r1, rc) := AddTo(r, verifyData);
    if rc != Success then Fail(r1, rc)
    else Out(r1.(ctx := r1.ctx.(state := KeyEx), flags := r1.flags.(pendingAsym := asym)), Success,
             body + verifyData, [ExchangeEvent(asym, r1.ctx.keys.reqFinished, HandshakeOf(r1.ctx))])
  }

  /** The PSK and hint come from the store, the session id from the request and the responder's constant. */
  function PskOpen(r: Resp, reqSid: nat): Ctx {
    r.ctx.(psk := r.pskStore,
           cfg := r.ctx.cfg.(pskHint := if r.hintStore != [] then r.hintStore else r.ctx.cfg.pskHint, reqSid := reqSid),
           sess := r.ctx.sess.(rspSid := RSP_SESSION_ID, sid := CombinedId(reqSid)), draws := r.ctx.draws + 1)
  }

  function BuildPskExchangeRsp(e: Env, r: Resp, req: bytes, cap: nat): Out {
    if |req| < 12 || r.pskStore == [] then Fail(r, BadState)
    else if cap < 12 + 32 + HASH_SIZE then Fail(r, BufferSmall)
    else if 12 + Get16(req, 6) + Get16(req, 8) + Get16(req, 10) > |req| then Fail(r, Framing)
    else
      var partial := PskPartial(r.ctx.ver, e.rnd(r.ctx.draws, RANDOM_SIZE));
      var (r1, rc) := AddTo(r.(ctx := PskOpen(r, Get16(req, 4))), partial);
      if rc != Success then Fail(r1, rc)
      else ExchangeTail(e, r1.(ctx := PskHandshake(e, r1.ctx)), partial, false)
  }

  function KeyExchangePartial(ver: byte, random: bytes, pub: bytes): bytes {
    [ver, KEY_EXCHANGE_RSP, 0, 0] + LE(RSP_SESSION_ID, 2) + [0, 0] + random + pub + LE(0, 2)
  }

  const SIGN_KEY_EXCHANGE: string := "responder-key_exchange_rsp signing"

  function SignedHash(c: Crypto, ver: byte, transcript: bytes): bytes {
    c.hash(SignedMessage(ver, SIGN_KEY_EXCHANGE, c.hash(transcript)))
  }

  function EcdheHandshake(e: Env, x: Ctx, shared: bytes): Ctx {
    var th := e.c.hash(x.transcript);
    x.(eph := x.eph.(shared := shared), hashes := x.hashes.(th1 := th),
       keys := HandshakeKeys(e.c, x.ver, e.c.extract(Zeros(HASH_SIZE), shared), th, x.keys))
  }

  /** A fresh ephemeral key; the session id from the request and the responder's constant. */
  function EcdheOpen(e: Env, x: Ctx, reqSid: nat): Ctx {
    x.(cfg := x.cfg.(reqSid := reqSid), eph := Ephemeral(Some(e.rnd(x.draws + 1, ECC_KEY_SIZE)), x.eph.shared),
       sess := x.sess.(rspSid := RSP_SESSION_ID, sid := CombinedId(reqSid)), draws := x.draws + 2)
  }

  /** After the signature: shared secret, TH1, handshake keys, ResponderVerifyData. */
  function EcdheFinishRsp(e: Env, r: Resp, priv: bytes, peer: bytes, body: bytes): Out {
    match e.c.ecShared(priv, peer)
    case None => Fail(r.(ctx := r.ctx.(eph := r.ctx.eph.(shared := []))), CryptoFail)
    case Some(shared) => ExchangeTail(e, r.(ctx := EcdheHandshake(e, r.ctx, shared)), body, true)
  }

  /** The signature under the identity key joins the transcript before the shared secret is computed. */
  function SignAndFinish(e: Env, r: Resp, idKey: bytes, priv: bytes, peer: bytes, partial: bytes): Out {
    var sig := e.c.sign(idKey, SignedHash(e.c, r.ctx.ver, r.ctx.transcript), e.rnd(r.ctx.draws, ECC_KEY_SIZE));
    var (r1, rc) := AddTo(r.(ctx := r.ctx.(draws := r.ctx.draws + 1)), sig);
    if rc != Success then Fail(r1, rc) else EcdheFinishRsp(e, r1, priv, peer, partial + sig)
  }

  function BuildKeyExchangeRsp(e: Env, r: Resp, req: bytes, cap: nat): Out {
    if |req| < 136 || r.id.None? then Fail(r, BadState)
    else if cap < 138 + ECC_SIG_SIZE + HASH_SIZE then Fail(r, BufferSmall)
    else
      var priv := e.rnd(r.ctx.draws + 1, ECC_KEY_SIZE);
      var partial := KeyExchangePartial(r.ctx.ver, e.rnd(r.ctx.draws, RANDOM_SIZE), e.c.ecPub(priv));
      var (r1, rc1) := AddTo(r.(ctx := EcdheOpen(e, r.ctx, Get16(req, 4))), partial);
      if rc1 != Success then Fail(r1, rc1)
      else SignAndFinish(e, r1, r.id.value.priv, priv, req[40..136], partial)
  }

  // ----- Finish -----

  /** The HMAC matched: it and the response enter the transcript and the session is connected. */
  function FinishTail(r: Resp, asym: bool, th2: bytes, mac: bytes): Out {
    var (r1, rc1) := AddTo(r, mac);
    if rc1 != Success then Fail(r1, rc1)
    else
      var rsp := [r.ctx.ver, if asym then FINISH_RSP else PSK_FINISH_RSP, 0, 0];
      var (r2, rc2) := AddTo(r1, rsp);
      if rc2 != Success then Fail(r2, rc2)
      else Out(r2.(ctx := r2.ctx.(state := Connected), flags := r2.flags.(sessionAsym := asym)), Success, rsp,
               [FinishEvent(asym, r.ctx.keys.reqFinished, th2, mac)])
  }

  /** FINISH (asym) and PSK_FINISH: the requester's HMAC over TH2 under the exchange's finished key. */
  function HandleFinish(e: Env, r: Resp, asym: bool, req: bytes, cap: nat): Out {
    if |req| < 4 + HASH_SIZE then Fail(r, Framing)
    else if cap < 4 then Fail(r, BufferSmall)
    else
      var (r1, rc) := AddTo(r, req[..4]);
      if rc != Success then Fail(r1, rc)
      else
        var th2 := e.c.hash(r1.ctx.transcript);
        var mac := req[4..4 + HASH_SIZE];
        var r2 := r1.(ctx := r1.ctx.(hashes := r1.ctx.hashes.(th2 := th2)));
        if e.c.hmac(r2.ctx.keys.reqFinished, th2) != mac then Fail(r2, BadHmac)
        else FinishTail(r2, asym, th2, mac)
  }

  // ----- Vendor-defined commands -----

  datatype Vendor = Vendor(code: bytes, payload: bytes)

  function ParseVendor(buf: bytes, cap: nat): Option<Vendor> {
    if |buf| < 17 then None
    else
      var off := 7 + buf[6] as nat;
      if off + 2 > |buf| then None
      else
        var len := Get16(buf, off);
        if len < 8 || off + 2 + len > |buf| || cap < len - 8 then None
        else Some(Vendor(buf[off + 2..off + 10], buf[off + 10..off + 2 + len]))
  }

  function VendorReply(ver: byte, code: bytes, payload: bytes): bytes {
    [ver, VENDOR_DEFINED_RSP, 0, 0] + LE(1, 2) + [0] + LE(8 + |payload|, 2) + code + payload
  }

  /** The effect of a command and its response payload. */
  datatype Effect = Effect(r: Resp, rc: Rc, payload: bytes, evs: seq<Event>)

  function PskSet(r: Resp, p: bytes): Effect {
    if |p| != PSK_MAX_SIZE + HASH_SIZE then Effect(r, InvalidArg, [], [])
    else if r.flags.clearAuthSet then Effect(r, BadState, [], [])
    else if r.pskStore != [] && r.pskStore != p[..PSK_MAX_SIZE] then Effect(r, BadState, [], [])
    else Effect(r.(pskStore := p[..PSK_MAX_SIZE], clearAuthDigest := p[PSK_MAX_SIZE..],
                   flags := r.flags.(provisioned := true, clearAuthSet := true),
                   ctx := r.ctx.(psk := p[..PSK_MAX_SIZE])), Success, [], [])
  }

  function PskClear(e: Env, r: Resp, p: bytes): Effect {
    if |p| != 32 || !r.flags.provisioned then Effect(r, InvalidArg, [], [])
    else if e.c.hash(p) != r.clearAuthDigest then Effect(r, BadHmac, [], [])
    else Effect(r.(pskStore := [], clearAuthDigest := NO_HASH,
                   flags := r.flags.(provisioned := false, clearAuthSet := false), ctx := r.ctx.(psk := [])),
                Success, [], [])
  }

  function TpmCommand(re: RespEnv, r: Resp, p: bytes): Effect {
    if re.tpm.None? then Effect(r, BadState, [], [])
    else
      var r1 := r.(tpmCalls := r.tpmCalls + 1);
      match re.tpm.value(r.tpmCalls, p)
      case None => Effect(r1, IoFail, [], [TpmEvent(p)])
      case Some(a) => Effect(r1, if |a| > MAX_MSG_SIZE - VENDOR_OVERHEAD then BufferSmall else Success, a, [TpmEvent(p)])
  }

  /** GIVE_PUB stores the requester's TPMT public area. */
  function GivePub(r: Resp, p: bytes): Effect {
    if |p| > 128 then Effect(r, BufferSmall, [], [])
    else Effect(r.(ctx := r.ctx.(cfg := r.ctx.cfg.(tpmt := p))), Success, [], [])
  }

  function SetLock(r: Resp, p: bytes): Effect {
    if |p| != 1 || p[0] > 1 then Effect(r, InvalidArg, [], [])
    else Effect(r.(flags := r.flags.(lock := p[0] == 1)), Success, [], [LockEvent(p[0] == 1)])
  }

  function Status(r: Resp): bytes {
    [0, 4, if r.flags.provisioned then 1 else 0, if r.flags.lock then 1 else 0]
  }

  /** Which commands are admitted: some only in a secured message, and before the finish only GIVE_PUB. */
  predicate Admitted(r: Resp, code: bytes, secured: bool) {
    if secured then r.ctx.state == Connected || code == GivePubCode()
    else code != Tpm2CmdCode() && code != GivePubCode() && code != SpdmOnlyCode()
  }

  function VendorEffect(re: RespEnv, r: Resp, v: Vendor, secured: bool): Effect {
    if !Admitted(r, v.code, secured) then Effect(r, BadState, [], [])
    else if v.code == Tpm2CmdCode() then TpmCommand(re, r, v.payload)
    else if v.code == GetPubkCode() then Effect(r, if r.id.None? then BadState else Success, if r.id.None? then [] else r.id.value.pub, [])
    else if v.code == GivePubCode() then GivePub(r, v.payload)
    else if v.code == GetStsCode() then Effect(r, Success, Status(r), [])
    else if v.code == SpdmOnlyCode() then SetLock(r, v.payload)
    else if v.code == PskSetCode() then PskSet(r, v.payload)
    else if v.code == PskClrCode() then PskClear(re.e, r, v.payload)
    else Effect(r, NotAvailable, [], [])
  }

  /** The command's effect stands even when its response does not fit. */
  function HandleVendor(re: RespEnv, r: Resp, req: bytes, cap: nat, secured: bool): Out {
    match ParseVendor(req, MAX_MSG_SIZE)
    case None => Fail(r, BufferSmall)
    case Some(v) =>
      var f := VendorEffect(re, r, v, secured);
      if f.rc != Success then Out(f.r, f.rc, [], f.evs)
      else if cap < VENDOR_OVERHEAD + |f.payload| then Out(f.r, BufferSmall, [], f.evs)
      else Out(f.r, Success, VendorReply(f.r.ctx.ver, v.code, f.payload), f.evs)
  }

  /** GET_PUBK in the clear contributes Ct = Hash(identity key) to the transcript. */
  function ClearVendor(re: RespEnv, r: Resp, req: bytes, cap: nat): Out {
    var o := HandleVendor(re, r, req, cap, false);
    if o.rc == Success && ParseVendor(req, MAX_MSG_SIZE).Some? && ParseVendor(req, MAX_MSG_SIZE).value.code == GetPubkCode()
       && o.r.id.Some? then
      var (r1, rc) := AddTo(o.r, re.e.c.hash(o.r.id.value.pub));
      Out(r1, rc, o.out, o.evs)
    else o
  }

  // ----- Dispatch -----

  function AddResponse(o: Out): Out {
    if o.rc != Success then o
    else
      var (r, rc) := AddTo(o.r, o.out);
      Out(r, rc, o.out, o.evs)
  }

  /** The handler for a clear request whose version has been accepted. */
  function ClearBody(re: RespEnv, r: Resp, req: bytes, cap: nat): Out
    requires |req| >= 2
  {
    var code := req[1];
    if code == VENDOR_DEFINED_REQUEST then ClearVendor(re, r, req, cap)
    else
      var (r1, rc) := AddTo(r, req);
      if rc != Success then Fail(r1, rc)
      else if code == GET_VERSION then AddResponse(BuildVersion(r1, cap))
      else if code == GET_CAPABILITIES then AddResponse(BuildMessage(r1, CapabilitiesMessage(r1.ctx.ver, r1.flags.usePsk), cap))
      else if code == NEGOTIATE_ALGORITHMS then AddResponse(BuildMessage(r1, AlgorithmsMessage(r1.ctx.ver), cap))
      else if code == PSK_EXCHANGE then BuildPskExchangeRsp(re.e, r1, req, cap)
      else if code == KEY_EXCHANGE then BuildKeyExchangeRsp(re.e, r1, req, cap)
      else ErrorReply(r1, ERROR_UNSUPPORTED_REQUEST, code, cap)
  }

  function DispatchClear(re: RespEnv, r: Resp, req: bytes, cap: nat): Out {
    if |req| < 2 then Fail(r, Framing)
    else if req[1] == GET_VERSION then
      var o := ClearBody(re, Reset(r), req, cap);
      o.(evs := [ResetEvent] + o.evs)
    else
      var code := req[1];
      var (x, rc) := SelectVersion(r.ctx, req[0], code == VENDOR_DEFINED_REQUEST);
      var r1 := r.(ctx := x);
      if rc == BadState then ErrorReply(r1, ERROR_UNEXPECTED_REQUEST, 0, cap)
      else if rc != Success then ErrorReply(r1, ERROR_MAJOR_VERSION_MISMATCH, 0, cap)
      else if (code == KEY_EXCHANGE && !r.flags.useTcg) || (code == PSK_EXCHANGE && !r.flags.usePsk) then
        ErrorReply(r1, ERROR_UNSUPPORTED_REQUEST, code, cap)
      else if (code == KEY_EXCHANGE || code == PSK_EXCHANGE) && (x.state == KeyEx || x.state == Connected) then
        ErrorReply(r1, ERROR_UNEXPECTED_REQUEST, 0, cap)
      else ClearBody(re, r1, req, cap)
  }

  /** The handler for a decrypted request; derived says that application keys follow the reply. */
  function SecuredBody(re: RespEnv, r: Resp, plain: bytes): (o: (Out, bool))
    requires |plain| >= 2
  {
    var code := plain[1];
    if code == FINISH || code == PSK_FINISH then
      if r.ctx.state != KeyEx || r.flags.pendingAsym != (code == FINISH) then (Fail(r, BadState), false)
      else
        var o := HandleFinish(re.e, r, code == FINISH, plain, MAX_MSG_SIZE);
        (o, o.rc == Success)
    else if code == END_SESSION then (BuildMessage(r, [r.ctx.ver, END_SESSION_ACK, 0, 0], MAX_MSG_SIZE), false)
    else if code == VENDOR_DEFINED_REQUEST then (HandleVendor(re, r, plain, MAX_MSG_SIZE, true), false)
    else (ErrorReply(r, ERROR_UNSUPPORTED_REQUEST, code, MAX_MSG_SIZE), false)
  }

  /** The record's tag verifies under the current receive key. */
  ghost predicate Opens(re: RespEnv, r: Resp, rec: bytes)
    requires r.Valid()
  {
    Open(re.e.c, r.ctx.Format(), r.ctx.sess.sid, r.ctx.keys.req, rec).Verified?
  }

  ghost function DispatchSecured(re: RespEnv, r: Resp, rec: bytes, cap: nat): Out
    requires re.e.Valid() && r.Valid()
  {
    if (r.ctx.state != KeyEx && r.ctx.state != Connected) || r.ctx.sess.sid == 0 then Fail(r, BadState)
    else
      var (x1, plain) := RespDecrypt(re.e, r.ctx, rec, MAX_MSG_SIZE);
      var r1 := r.(ctx := x1);
      var heard := if Opens(re, r, rec) then [OpenedEvent(r.ctx.state == Connected)] else [];
      if plain.Err? then Out(r1, plain.rc, [], heard)
      else if |plain.value| < 2 then Out(r1, Framing, [], heard)
      else Respond(re, r1, plain.value, cap, heard)
  }

  /** Handle a decrypted request, encrypt the reply, then derive application keys or end the session. */
  ghost function Respond(re: RespEnv, r: Resp, plain: bytes, cap: nat, evs: seq<Event>): Out
    requires re.e.Valid() && r.Valid() && |plain| >= 2
  {
    var (o, derived) := SecuredBody(re, r, plain);
    SecuredBodyValid(re, r, plain);
    if o.rc != Success then Out(o.r, o.rc, [], evs + o.evs)
    else
      var (x, rec) := RespEncrypt(re.e, o.r.ctx, o.out, cap);
      var r1 := o.r.(ctx := x);
      var sealed := evs + o.evs + [SealedEvent(o.r.ctx.keys.rsp)];
      if rec.Err? then Out(r1, rec.rc, [], evs + o.evs)
      else if derived then
        Out(r1.(ctx := x.(keys := AppKeys(re.e.c, x.ver, x.transcript, x.keys))), Success, rec.value, sealed + [KeysEvent(ApplicationOf(x))])
      else if plain[1] == END_SESSION then Out(Reset(r1), Success, rec.value, sealed + [ResetEvent])
      else Out(r1, Success, rec.value, sealed)
  }

  lemma FinishTailValid(r: Resp, asym: bool, th2: bytes, mac: bytes)
    requires r.Valid()
    ensures FinishTail(r, asym, th2, mac).r.Valid()
  {
  }

  lemma FinishValid(e: Env, r: Resp, asym: bool, req: bytes, cap: nat)
    requires e.Valid() && r.Valid()
    ensures HandleFinish(e, r, asym, req, cap).r.Valid()
  {
    hide FinishTail;
    if |req| >= 4 + HASH_SIZE {
      var r1 := AddTo(r, req[..4]).0;
      var th2 := e.c.hash(r1.ctx.transcript);
      FinishTailValid(r1.(ctx := r1.ctx.(hashes := r1.ctx.hashes.(th2 := th2))), asym, th2, req[4..4 + HASH_SIZE]);
    }
  }

  lemma EffectValid(re: RespEnv, r: Resp, v: Vendor, secured: bool)
    requires r.Valid()
    ensures VendorEffect(re, r, v, secured).r.Valid()
  {
    hide Tpm2CmdCode, GetPubkCode, GivePubCode, GetStsCode, SpdmOnlyCode, PskSetCode, PskClrCode;
  }

  lemma SecuredBodyValid(re: RespEnv, r: Resp, plain: bytes)
    requires re.e.Valid() && r.Valid() && |plain| >= 2
    ensures SecuredBody(re, r, plain).0.r.Valid()
  {
    hide HandleFinish, VendorEffect, ParseVendor;
    FinishValid(re.e, r, plain[1] == FINISH, plain, MAX_MSG_SIZE);
    if ParseVendor(plain, MAX_MSG_SIZE).Some? {
      EffectValid(re, r, ParseVendor(plain, MAX_MSG_SIZE).value, true);
    }
  }

  // ----- The TCG binding frame -----

  function TcgHeader(tag: nat, total: nat, b: Binding): (h: bytes)
    ensures |h| == TCG_HEADER_SIZE
  {
    BE(tag, 2) + BE(total, 4) + BE(b.handle, 4) + BE(b.fips, 2) + [0, 0, 0, 0]
  }

  function GetBE(buf: bytes, off: nat, n: nat): nat
    requires off + n <= |buf|
  {
    FromBE(buf[off..off + n])
  }

  /** wolfSPDM_RespHandleMessage. */
  ghost function HandleMessage(re: RespEnv, r: Resp, msg: bytes, cap: nat): Out
    requires re.e.Valid() && r.Valid()
  {
    if !r.flags.useTcg && !r.flags.usePsk then Fail(r, BadState)
    else if |msg| < TCG_HEADER_SIZE then Fail(r, Framing)
    else
      var tag, size := GetBE(msg, 0, 2), GetBE(msg, 2, 4);
      if tag != TAG_CLEAR && tag != TAG_SECURED then Fail(r, Framing)
      else if size < TCG_HEADER_SIZE || size > |msg| then Fail(r, Framing)
      else
        var b := Binding(GetBE(msg, 6, 4), GetBE(msg, 10, 2));
        BindingValid(msg);
        var r1 := r.(ctx := r.ctx.(binding := b));
        if cap < TCG_HEADER_SIZE then Fail(r1, BufferSmall)
        else
          var body := msg[TCG_HEADER_SIZE..size];
          var o := if tag == TAG_CLEAR then DispatchClear(re, r1, body, cap - TCG_HEADER_SIZE)
                   else DispatchSecured(re, r1, body, cap - TCG_HEADER_SIZE);
          if o.rc != Success then o
          else o.(out := TcgHeader(tag, TCG_HEADER_SIZE + |o.out|, o.r.ctx.binding) + o.out)
  }

  lemma BindingValid(msg: bytes)
    requires |msg| >= TCG_HEADER_SIZE
    ensures GetBE(msg, 6, 4) < 0x1_0000_0000 && GetBE(msg, 10, 2) < 0x1_0000
  {
    Pow256Values();
    FromBEBound(msg[6..10]);
    FromBEBound(msg[10..12]);
  }

  // ----- Configuration calls -----

  /** wolfSPDM_RespSetPSK. */
  function SetPsk(r: Resp, psk: bytes, hint: bytes): (Resp, Rc) {
    if psk == [] || |psk| > PSK_MAX_SIZE || |hint| > 32 then (r, InvalidArg)
    else (r.(ctx := r.ctx.(psk := psk, cfg := r.ctx.cfg.(pskHint := hint)), pskStore := psk, hintStore := hint,
             flags := r.flags.(provisioned := true, clearAuthSet := false), clearAuthDigest := NO_HASH), Success)
  }

  /** wolfSPDM_RespSetIdentityKey: refused while a session is negotiating or connected. */
  function SetIdentityKey(r: Resp, priv: bytes, pub: bytes): (Resp, Rc) {
    if |priv| != ECC_KEY_SIZE || |pub| != ECC_POINT_SIZE then (r, InvalidArg)
    else if r.ctx.state != Init then (r, BadState)
    else (r.(id := Some(IdentityKey(priv, pub))), Success)
  }

  /** wolfSPDM_RespSetMode. */
  function SetMode(r: Resp, useTcg: bool, usePsk: bool): (Resp, Rc) {
    if !useTcg && !usePsk then (r, InvalidArg)
    else (r.(flags := r.flags.(useTcg := useTcg, usePsk := usePsk),
             ctx := r.ctx.(cfg := r.ctx.cfg.(mode := if usePsk then NationsPsk else Nuvoton))), Success)
  }
}
