/**
 * The two ends of the TCG and PSK handshakes, each running its own code, joined by the TCG binding frame: the
 * requester's flows with the responder as the transport, and the agreement that they end in.
 */
module Handshake {
  import opened Bytes
  import opened Codes
  import opened Crypto
  import opened Records
  import opened Context
  import opened ResponderSpec
  import opened RequesterSpec
  import ResponderSafety

  datatype World = World(x: Ctx, r: Resp)
  {
    predicate Valid() {
      x.Valid() && r.Valid()
    }
  }

  /**
   * What answers the requester's frames: this library's responder, or anything else, with any memory and any behaviour.
   * An answer is None where the I/O callback fails.
   */
  datatype FarEnd = Ours(re: RespEnv) | Other(step: (Resp, bytes) -> (Resp, Option<bytes>))
  {
    ghost predicate Valid() {
      match this
      case Ours(re) => re.e.Valid()
      case Other(step) => forall r: Resp, frame: bytes :: r.Valid() ==> step(r, frame).0.Valid()
    }
  }

  /** One frame through the I/O callback; the responder answers into a buffer of the requester's size. */
  ghost function Carried(far: FarEnd, r: Resp, frame: bytes): (a: (Resp, Option<bytes>))
    requires far.Valid() && r.Valid()
    ensures a.0.Valid()
  {
    match far
    case Ours(re) =>
      ResponderSafety.MessageValid(re, r, frame, TCG_BUF);
      var o := HandleMessage(re, r, frame, TCG_BUF);
      (o.r, if o.rc == Success then Some(o.out) else None)
    case Other(step) => step(r, frame)
  }

  /** wolfSPDM_TcgSendReceive with the far end behind the I/O callback. */
  ghost function SendReceive(far: FarEnd, w: World, tx: bytes, cap: nat): (s: (World, Result<bytes>))
    requires far.Valid() && w.Valid()
    ensures s.0.Valid() && (s.1.Err? ==> s.1.rc != Success)
    ensures s.0.x == w.x.(binding := s.0.x.binding)
  {
    var frame := WrapTcg(w.x, tx);
    if frame.Err? then (w, frame)
    else
      var (r, reply) := Carried(far, w.r, frame.value);
      if reply.None? then (w.(r := r), Err(IoFail))
      else
        UnwrapValid(w.x, reply.value, cap);
        var (x, rx) := UnwrapTcg(w.x, reply.value, cap);
        (World(x, r), rx)
  }

  lemma UnwrapValid(x: Ctx, rx: bytes, cap: nat)
    requires x.Valid()
    ensures var (x1, r) := UnwrapTcg(x, rx, cap);
      x1.Valid() && x1 == x.(binding := x1.binding) && (r.Err? ==> r.rc != Success) && (r.Ok? ==> |r.value| <= cap)
  {
    if |rx| >= TCG_HEADER_SIZE {
      BindingValid(rx);
    }
  }

  // ----- Clear steps -----

  /** wolfSPDM_GetVersion: a failed exchange leaves the transcript as it was. */
  ghost function GetVersionStep(far: FarEnd, w: World): (s: (World, Rc))
    requires far.Valid() && w.Valid()
    ensures s.0.Valid()
  {
    var (x1, rc1) := Add(w.x, GET_VERSION_MESSAGE);
    if rc1 != Success then (w, rc1)
    else
      var (w2, rx) := SendReceive(far, w.(x := x1), GET_VERSION_MESSAGE, 32);
      var undone := w2.(x := w2.x.(transcript := w.x.transcript));
      if rx.Err? then (undone, rx.rc)
      else
        var (x3, rc3) := Add(w2.x, rx.value);
        if rc3 != Success then (undone, rc3)
        else
          var (x4, rc4) := ParseVersion(x3, rx.value);
          ParseVersionValid(x3, rx.value);
          if rc4 != Success then (undone, rc4) else (w2.(x := x4), Success)
  }

  /** A request whose transcript entry, reply check and reply entry follow one another; a failure is final. */
  ghost function CheckedStep(far: FarEnd, w: World, req: bytes, cap: nat, caps: Option<nat>): (s: (World, Rc))
    requires far.Valid() && w.Valid()
    ensures s.0.Valid()
  {
    var (w1, rc) := CheckedExchange(far, w, req, cap, caps);
    (if rc == Success then w1 else w1.(x := w1.x.(state := Failed)), rc)
  }

  ghost function CheckedExchange(far: FarEnd, w: World, req: bytes, cap: nat, caps: Option<nat>): (s: (World, Rc))
    requires far.Valid() && w.Valid()
    ensures s.0.Valid()
  {
    var (x1, rc1) := Add(w.x, req);
    if rc1 != Success then (w, rc1)
    else
      var (w2, rx) := SendReceive(far, w.(x := x1), req, cap);
      if rx.Err? then (w2, rx.rc)
      else
        var rc := if caps.Some? then CheckCapabilities(w.x.ver, rx.value, caps.value) else CheckAlgorithms(w.x.ver, rx.value);
        if rc != Success then (w2, rc)
        else
          var (x3, rc3) := Add(w2.x, rx.value);
          (w2.(x := x3), rc3)
  }

  ghost function CapabilitiesStep(far: FarEnd, w: World): (s: (World, Rc))
    requires far.Valid() && w.Valid()
    ensures s.0.Valid()
  {
    CheckedStep(far, w, CapabilitiesRequest(w.x.ver, CAPS_DEFAULT), 64, Some(CAPS_DEFAULT))
  }

  ghost function AlgorithmsStep(far: FarEnd, w: World): (s: (World, Rc))
    requires far.Valid() && w.Valid()
    ensures s.0.Valid()
  {
    CheckedStep(far, w, AlgorithmsRequest(w.x.ver), 128, None)
  }

  /** GET_PUBK, the comparison with the configured key, and Ct; a fresh context starts with GET_VERSION. */
  ghost function PubKeyStep(e: Env, far: FarEnd, w: World): (s: (World, Rc))
    requires e.Valid() && far.Valid() && w.Valid()
    ensures s.0.Valid()
  {
    if w.x.state == Init then
      var (w0, rc0) := GetVersionStep(far, w.(x := ResetTranscript(w.x)));
      if rc0 != Success then (w0, rc0) else FetchPubKeyStep(e, far, w0)
    else FetchPubKeyStep(e, far, w)
  }

  ghost function FetchPubKeyStep(e: Env, far: FarEnd, w: World): (s: (World, Rc))
    requires e.Valid() && far.Valid() && w.Valid()
    ensures s.0.Valid()
  {
    var (w1, rx) := SendReceive(far, w, VendorRequest(VendorVer(w.x), GetPubkCode(), []), VENDOR_RX);
    if rx.Err? then (w1, rx.rc)
    else
      var key := VendorPayload(GetPubkCode(), rx.value);
      if key.Err? then (w1, key.rc)
      else if CheckPubKey(w1.x.cfg.rspPub, key.value) != Success then (w1, CheckPubKey(w1.x.cfg.rspPub, key.value))
      else
        var ct := e.c.hash(key.value);
        var (x2, rc2) := Add(w1.x.(state := Cert, hashes := w1.x.hashes.(cert := ct)), ct);
        (w1.(x := x2), rc2)
  }

  ghost function KeyExchangeStep(e: Env, far: FarEnd, w: World): (s: (World, Rc))
    requires e.Valid() && far.Valid() && w.Valid()
    ensures s.0.Valid()
  {
    if w.x.cfg.rspPub.None? then (w, BadState)
    else
      var (x1, req) := BuildKeyExchange(e, w.x);
      var (x2, rc2) := Add(x1, req);
      if rc2 != Success then (w.(x := x2), rc2)
      else
        var (w3, rx) := SendReceive(far, w.(x := x2), req, KEY_EX_RX);
        if rx.Err? then (w3, rx.rc)
        else
          var (x4, rc4) := ParseKeyExchangeRsp(e, w3.x, rx.value);
          KeyExchangeRspValid(e, w3.x, rx.value);
          (w3.(x := x4), rc4)
  }

  ghost function PskExchangeStep(e: Env, far: FarEnd, w: World): (s: (World, Rc))
    requires e.Valid() && far.Valid() && w.Valid()
    ensures s.0.Valid()
  {
    var (x1, req) := BuildPskExchange(e, w.x);
    if req.Err? then (w, req.rc)
    else
      var (x2, rc2) := Add(x1, req.value);
      if rc2 != Success then (w.(x := x2), rc2)
      else
        var (w3, rx) := SendReceive(far, w.(x := x2), req.value, RECORD_BUF);
        if rx.Err? then (w3, rx.rc)
        else
          var (x4, rc4) := ParsePskExchangeRsp(e, w3.x, rx.value);
          PskExchangeRspValid(e, w3.x, rx.value);
          (w3.(x := x4), rc4)
  }

  // ----- Secured steps -----

  /** Seal, send, receive, open; a reply that looks like a clear message may be refused before it is opened. */
  ghost function SecuredStep(e: Env, far: FarEnd, w: World, msg: bytes, sealCap: nat, rxCap: nat, cap: nat, refuseClear: bool)
    : (s: (World, Result<bytes>))
    requires e.Valid() && far.Valid() && w.Valid()
    ensures s.0.Valid() && (s.1.Err? ==> s.1.rc != Success)
  {
    var (x1, rec) := Encrypt(e, w.x, msg, sealCap);
    RecordsValid(e, w.x, msg, [], sealCap);
    if rec.Err? then (w.(x := x1), rec)
    else
      var (w2, rx) := SendReceive(far, w.(x := x1), rec.value, rxCap);
      if rx.Err? then (w2, rx)
      else if refuseClear && |rx.value| >= 2 && ClearFirst(rx.value) then (w2, Err(PeerError))
      else
        var (x3, plain) := Decrypt(e, w2.x, rx.value, cap);
        RecordsValid(e, w2.x, [], rx.value, cap);
        (w2.(x := x3), plain)
  }

  ghost function GivePubStep(e: Env, far: FarEnd, w: World): (s: (World, Rc))
    requires e.Valid() && far.Valid() && w.Valid()
    ensures s.0.Valid()
  {
    if !SecuredReady(w.x.state, w.x.sess.sid, w.x.Format()) then (w, if w.x.state.Rank() < KeyEx.Rank() then BadState else NotConnected)
    else
      var req := VendorRequest(VendorVer(w.x), GivePubCode(), w.x.cfg.tpmt);
      var (w1, rsp) := SecuredStep(e, far, w, req, RECORD_BUF, RECORD_BUF, VENDOR_BUF, false);
      (w1, if rsp.Err? then rsp.rc else if |rsp.value| >= 4 && rsp.value[1] == SPDM_ERROR then PeerError else Success)
  }

  ghost function FinishStep(e: Env, far: FarEnd, w: World): (s: (World, Rc))
    requires e.Valid() && far.Valid() && w.Valid()
    ensures s.0.Valid()
  {
    if w.x.state != KeyEx then (w, BadState)
    else
      var (x1, msg) := BuildFinish(e, w.x);
      BuildFinishValid(e, w.x);
      if msg.Err? then (w.(x := x1), msg.rc)
      else
        var (w2, rsp) := SecuredStep(e, far, w.(x := x1), msg.value, VENDOR_BUF, FINISH_RSP_LIMIT + 128, FINISH_RSP_LIMIT, true);
        if rsp.Err? then (w2, rsp.rc)
        else
          var (x3, rc3) := ParseFinishRsp(w2.x, rsp.value);
          FinishMessagesValid(e, w2.x, rsp.value);
          if rc3 != Success then (w2.(x := x3), rc3)
          else
            AppKeysValid(e, x3);
            (w2.(x := x3.(keys := AppKeys(e.c, x3.ver, x3.transcript, x3.keys))), Success)
  }

  ghost function PskFinishStep(e: Env, far: FarEnd, w: World): (s: (World, Rc))
    requires e.Valid() && far.Valid() && w.Valid()
    ensures s.0.Valid()
  {
    var (x1, msg) := BuildPskFinish(e, w.x);
    FinishMessagesValid(e, w.x, []);
    if msg.Err? then (w.(x := x1), msg.rc)
    else
      var (w2, rsp) := SecuredStep(e, far, w.(x := x1), msg.value, RECORD_BUF, RECORD_BUF, 64, false);
      if rsp.Err? then (w2, rsp.rc)
      else
        var (x3, rc3) := ParsePskFinishRsp(w2.x, rsp.value);
        FinishMessagesValid(e, w2.x, rsp.value);
        if rc3 != Success then (w2.(x := x3), rc3)
        else
          AppKeysValid(e, x3);
          (w2.(x := x3.(keys := AppKeys(e.c, x3.ver, x3.transcript, x3.keys))), Success)
  }

  lemma AppKeysValid(e: Env, x: Ctx)
    requires e.Valid() && x.Valid()
    ensures x.(keys := AppKeys(e.c, x.ver, x.transcript, x.keys)).Valid()
  {
  }

  // ----- The flows -----

  /** GET_VERSION, and unless the mode is Nuvoton's, GET_CAPABILITIES and NEGOTIATE_ALGORITHMS. */
  ghost function Negotiate(far: FarEnd, w: World): (s: (World, Rc))
    requires far.Valid() && w.Valid()
    ensures s.0.Valid()
  {
    var (w1, rc1) := GetVersionStep(far, w);
    if rc1 != Success || w1.x.cfg.mode == Nuvoton then (w1, rc1)
    else
      var (w2, rc2) := CapabilitiesStep(far, w1);
      if rc2 != Success then (w2, rc2) else AlgorithmsStep(far, w2)
  }

  /** GET_PUBK and KEY_EXCHANGE. */
  ghost function Authenticate(e: Env, far: FarEnd, w: World): (s: (World, Rc))
    requires e.Valid() && far.Valid() && w.Valid()
    ensures s.0.Valid()
  {
    var (w1, rc1) := PubKeyStep(e, far, w);
    if rc1 != Success then (w1, rc1) else KeyExchangeStep(e, far, w1)
  }

  /** GIVE_PUB if the requester has a key of its own, then FINISH. */
  ghost function Complete(e: Env, far: FarEnd, w: World): (s: (World, Rc))
    requires e.Valid() && far.Valid() && w.Valid()
    ensures s.0.Valid()
  {
    if w.x.cfg.keyPair.None? || w.x.cfg.tpmt == [] then FinishStep(e, far, w)
    else
      var (w1, rc1) := GivePubStep(e, far, w);
      if rc1 != Success then (w1, rc1) else FinishStep(e, far, w1)
  }

  function Settle(w: World, rc: Rc): (World, Rc) {
    (w.(x := w.x.(state := if rc == Success then Connected else Failed)), rc)
  }

  function Started(w: World): World {
    w.(x := ResetTranscript(w.x.(state := Init)))
  }

  ghost function TcgFlow(e: Env, far: FarEnd, w: World): (s: (World, Rc))
    requires e.Valid() && far.Valid() && w.Valid()
    ensures s.0.Valid()
  {
    var (w1, rc1) := Negotiate(far, w);
    if rc1 != Success then (w1, rc1)
    else
      var (w2, rc2) := Authenticate(e, far, w1);
      if rc2 != Success then (w2, rc2) else Complete(e, far, w2)
  }

  ghost function ConnectTcg(e: Env, far: FarEnd, w: World): (s: (World, Rc))
    requires e.Valid() && far.Valid() && w.Valid()
    ensures s.0.Valid()
  {
    if w.x.cfg.rspPub.None? || |w.x.cfg.rspPub.value| != ECC_POINT_SIZE then (w, BadState)
    else
      var (w1, rc) := TcgFlow(e, far, Started(w));
      Settle(w1, rc)
  }

  /** The PSK flow goes straight from GET_VERSION to PSK_EXCHANGE. */
  ghost function PskFlow(e: Env, far: FarEnd, w: World): (s: (World, Rc))
    requires e.Valid() && far.Valid() && w.Valid()
    ensures s.0.Valid()
  {
    var (w1, rc1) := GetVersionStep(far, w);
    if rc1 != Success then (w1, rc1)
    else
      var (w2, rc2) := PskExchangeStep(e, far, w1);
      if rc2 != Success then (w2, rc2) else PskFinishStep(e, far, w2)
  }

  ghost function ConnectPsk(e: Env, far: FarEnd, w: World): (s: (World, Rc))
    requires e.Valid() && far.Valid() && w.Valid()
    ensures s.0.Valid()
  {
    if w.x.psk == [] then (w, BadState)
    else
      var (w1, rc) := PskFlow(e, far, Started(w));
      Settle(w1, rc)
  }

  /** wolfSPDM_Connect in the modes of the TCG binding: always from sequence number 0 and fresh keys. */
  ghost function Connect(e: Env, far: FarEnd, w: World): (s: (World, Rc))
    requires e.Valid() && far.Valid() && w.Valid() && w.x.cfg.mode != Auto
    ensures s.0.Valid()
  {
    var w0 := w.(x := ResetSession(w.x));
    if w.x.cfg.mode == NationsPsk then ConnectPsk(e, far, w0) else ConnectTcg(e, far, w0)
  }
}
