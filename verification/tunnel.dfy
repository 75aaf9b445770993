/**
 * What a session is for: vendor commands through the secured channel, from the requester's call to the dispatcher behind
 * the responder and back, one by one and over any sequence of TPM commands after Connect.
 */
module Tunnel {
  import opened Bytes
  import opened Codes
  import opened Crypto
  import opened Records
  import opened Context
  import opened ResponderSpec
  import opened RequesterSpec
  import opened Handshake
  import opened Agreement
  import Replies

  const MAX_PAYLOAD: nat := MAX_MSG_SIZE - VENDOR_OVERHEAD

  /** wolfSPDM_SecuredExchange with the TCG binding, into a buffer of the largest message. */
  ghost function SecuredExchange(e: Env, far: FarEnd, w: World, msg: bytes): (s: (World, Result<bytes>))
    requires e.Valid() && far.Valid() && w.Valid()
    ensures s.0.Valid()
  {
    if !SecuredReady(w.x.state, w.x.sess.sid, w.x.Format()) then (w, Err(NotConnected))
    else SecuredStep(e, far, w, msg, RECORD_BUF, RECORD_BUF, MAX_MSG_SIZE, false)
  }

  ghost function Command(e: Env, far: FarEnd, w: World, code: bytes, p: bytes): (s: (World, Result<bytes>))
    requires e.Valid() && far.Valid() && w.Valid()
    ensures s.0.Valid()
  {
    SecuredExchange(e, far, w, VendorRequest(VendorVer(w.x), code, p))
  }

  /** Both ends are connected in one session. */
  predicate Linked(w: World) {
    && Paired(w, w.x.keys) && w.x.state == Connected && w.r.ctx.state == Connected
    && w.x.ver == w.r.ctx.ver && w.x.ver != 0 && (w.r.flags.useTcg || w.r.flags.usePsk)
  }

  /** A vendor command touches neither keys nor session, binding, mode or version. */
  lemma CommandLeaves(re: RespEnv, r: Resp, v: Vendor)
    ensures
      var f := VendorEffect(re, r, v, true);
      && f.r.ctx.keys == r.ctx.keys && f.r.ctx.sess == r.ctx.sess && f.r.ctx.binding == r.ctx.binding && f.r.ctx.state == r.ctx.state
      && f.r.ctx.cfg.mode == r.ctx.cfg.mode && f.r.ctx.ver == r.ctx.ver && f.r.ctx.draws == r.ctx.draws
      && f.r.flags.useTcg == r.flags.useTcg && f.r.flags.usePsk == r.flags.usePsk
  {
    hide Tpm2CmdCode, GetPubkCode, GivePubCode, GetStsCode, SpdmOnlyCode, PskSetCode, PskClrCode;
  }

  /** The effect of the command at the responder once it has opened the record. */
  function EffectOf(re: RespEnv, w: World, code: bytes, p: bytes): Effect {
    VendorEffect(re, Heard(w), Vendor(code, p), true)
  }

  lemma CommandAnswers(re: RespEnv, w: World, code: bytes, p: bytes)
    requires re.e.Valid() && w.Valid() && w.r.ctx.state == Connected && |code| == 8 && |p| <= MAX_PAYLOAD
    requires EffectOf(re, w, code, p).rc == Success && |EffectOf(re, w, code, p).payload| <= MAX_PAYLOAD
    ensures
      var f := EffectOf(re, w, code, p);
      Answers(re, w, VendorRequest(w.r.ctx.ver, code, p), f.r, VendorReply(w.r.ctx.ver, code, f.payload), false)
  {
    hide VendorEffect, ParseVendor, VendorReply, LE;
    var f := EffectOf(re, w, code, p);
    VendorRoundTrip([w.r.ctx.ver, VENDOR_DEFINED_REQUEST, 0, 0], code, p, MAX_MSG_SIZE);
    Replies.VendorReadBack(w.r.ctx.ver, code, f.payload, MAX_MSG_SIZE);
    CommandLeaves(re, Heard(w), Vendor(code, p));
  }

  /** The world after a command: both counters have moved by one, the responder has had the effect. */
  predicate After(re: RespEnv, w: World, w': World, code: bytes, p: bytes) {
    var f := EffectOf(re, w, code, p);
    && w'.x.keys == BothNext(w.x.keys) && w'.r.ctx.keys == w'.x.keys
    && w'.r == f.r.(ctx := f.r.ctx.(keys := w'.r.ctx.keys, draws := w'.r.ctx.draws))
    && w'.x == w.x.(keys := w'.x.keys, draws := w'.x.draws)
  }

  /**
   * Any vendor command that the responder carries out, with any payload that a message can hold: the requester receives
   * exactly the payload of its effect under the command's own code, the ends stay in one session, and the responder has
   * had exactly that effect.
   */
  lemma CommandTunneled(e: Env, re: RespEnv, w: World, code: bytes, p: bytes)
    requires Both(e, re) && Linked(w) && |code| == 8 && |p| <= MAX_PAYLOAD
    requires EffectOf(re, w, code, p).rc == Success && |EffectOf(re, w, code, p).payload| <= MAX_PAYLOAD
    ensures
      var (w', answer) := Command(e, Ours(re), w, code, p);
      && answer.Ok? && ParseVendor(answer.value, MAX_MSG_SIZE) == Some(Vendor(code, EffectOf(re, w, code, p).payload))
      && After(re, w, w', code, p) && Linked(w')
  {
    hide EffectOf, SecuredStep, VendorRequest, VendorReply, ParseVendor, Paired, Answers, Replied, e.Valid, e.c.Sound;
    var f := EffectOf(re, w, code, p);
    LinkedReady(w);
    CommandAnswers(re, w, code, p);
    Replies.VendorReadBack(w.r.ctx.ver, code, f.payload, MAX_MSG_SIZE);
    RequestLength(w.r.ctx.ver, code, p);
    var (req, rsp) := (VendorRequest(w.r.ctx.ver, code, p), VendorReply(w.r.ctx.ver, code, f.payload));
    SecuredAgreed(e, re, w, w.x.keys, req, f.r, rsp, false, RECORD_BUF, RECORD_BUF, MAX_MSG_SIZE, false);
    StaysLinked(re, w, code, p, DrawsAfter(Tcg, w.x.draws, |req|), |rsp|);
  }

  lemma LinkedReady(w: World)
    requires Linked(w)
    ensures w.Valid() && Paired(w, w.x.keys) && SecuredReady(w.x.state, w.x.sess.sid, w.x.Format()) && VendorVer(w.x) == w.r.ctx.ver
  {
  }

  lemma RequestLength(ver: byte, code: bytes, p: bytes)
    requires |code| == 8
    ensures |VendorRequest(ver, code, p)| == 17 + |p|
  {
  }

  lemma StaysLinked(re: RespEnv, w: World, code: bytes, p: bytes, draws: nat, n: nat)
    requires Linked(w)
    ensures
      var w' := World(w.x.(keys := BothNext(w.x.keys), draws := draws), Replied(re, EffectOf(re, w, code, p).r, w.x.keys, n, false));
      After(re, w, w', code, p) && Linked(w')
  {
    hide VendorEffect, DrawsAfter;
    CommandLeaves(re, Heard(w), Vendor(code, p));
    EffectValid(re, Heard(w), Vendor(code, p), true);
  }

  // ----- TPM commands -----

  /** The command fits a request, and the dispatcher's answer to it, as its call number calls, fits a response. */
  predicate Fits(re: RespEnv, calls: nat, p: bytes) {
    && re.tpm.Some? && |p| <= MAX_PAYLOAD
    && re.tpm.value(calls, p).Some? && |re.tpm.value(calls, p).value| <= MAX_PAYLOAD
  }

  predicate Answerable(re: RespEnv, calls: nat, ps: seq<bytes>) {
    re.tpm.Some? && forall i :: 0 <= i < |ps| ==> Fits(re, calls + i, ps[i])
  }

  lemma TpmEffect(re: RespEnv, w: World, p: bytes)
    requires Linked(w) && Fits(re, w.r.tpmCalls, p)
    ensures
      var f := EffectOf(re, w, Tpm2CmdCode(), p);
      && f.rc == Success && Some(f.payload) == re.tpm.value(w.r.tpmCalls, p) && |f.payload| <= MAX_PAYLOAD
      && f.r == Heard(w).(tpmCalls := w.r.tpmCalls + 1) && f.evs == [TpmEvent(p)]
  {
    hide Tpm2CmdCode, GetPubkCode, GivePubCode, GetStsCode, SpdmOnlyCode, PskSetCode, PskClrCode, Paired;
  }

  /** One tunneled TPM command: the dispatcher's answer to exactly the payload given is what the requester receives. */
  lemma TpmTunneled(e: Env, re: RespEnv, w: World, p: bytes)
    requires Both(e, re) && Linked(w) && Fits(re, w.r.tpmCalls, p)
    ensures
      var (w', answer) := Command(e, Ours(re), w, Tpm2CmdCode(), p);
      && answer.Ok? && ParseVendor(answer.value, MAX_MSG_SIZE) == Some(Vendor(Tpm2CmdCode(), re.tpm.value(w.r.tpmCalls, p).value))
      && Linked(w') && w'.r.tpmCalls == w.r.tpmCalls + 1 && w'.r.flags == w.r.flags && w'.r.pskStore == w.r.pskStore
  {
    hide EffectOf, Tpm2CmdCode, Command, ParseVendor, Linked;
    Replies.EightBytes();
    TpmEffect(re, w, p);
    CommandTunneled(e, re, w, Tpm2CmdCode(), p);
  }

  /** A sequence of TPM commands, each sent when the one before has been answered. */
  ghost function Commands(e: Env, far: FarEnd, w: World, ps: seq<bytes>): (s: (World, seq<Result<bytes>>))
    requires e.Valid() && far.Valid() && w.Valid()
    ensures |s.1| == |ps|
    decreases |ps|
  {
    if ps == [] then (w, [])
    else
      var (w1, answer) := Command(e, far, w, Tpm2CmdCode(), ps[0]);
      var (w2, answers) := Commands(e, far, w1, ps[1..]);
      (w2, [answer] + answers)
  }

  /** The i-th answer carries the dispatcher's answer to the i-th command. */
  predicate Relayed(re: RespEnv, calls: nat, ps: seq<bytes>, answers: seq<Result<bytes>>) {
    && re.tpm.Some? && |answers| == |ps|
    && forall i :: 0 <= i < |ps| ==>
         && answers[i].Ok? && re.tpm.value(calls + i, ps[i]).Some?
         && ParseVendor(answers[i].value, MAX_MSG_SIZE) == Some(Vendor(Tpm2CmdCode(), re.tpm.value(calls + i, ps[i]).value))
  }

  lemma RestAnswerable(re: RespEnv, calls: nat, ps: seq<bytes>)
    requires Answerable(re, calls, ps) && ps != []
    ensures Fits(re, calls, ps[0]) && Answerable(re, calls + 1, ps[1..])
  {
    hide Fits;
    forall i | 0 <= i < |ps| - 1
      ensures Fits(re, calls + 1 + i, ps[1..][i])
    {
      assert ps[1..][i] == ps[i + 1] && calls + 1 + i == calls + (i + 1);
    }
    assert Fits(re, calls + 0, ps[0]);
  }

  lemma OneMoreRelayed(re: RespEnv, calls: nat, ps: seq<bytes>, answer: Result<bytes>, answers: seq<Result<bytes>>)
    requires ps != [] && re.tpm.Some? && re.tpm.value(calls, ps[0]).Some? && Relayed(re, calls + 1, ps[1..], answers)
    requires answer.Ok? && ParseVendor(answer.value, MAX_MSG_SIZE) == Some(Vendor(Tpm2CmdCode(), re.tpm.value(calls, ps[0]).value))
    ensures Relayed(re, calls, ps, [answer] + answers)
  {
    hide ParseVendor, Tpm2CmdCode;
    var all := [answer] + answers;
    forall i | 0 <= i < |ps|
      ensures all[i].Ok? && re.tpm.value(calls + i, ps[i]).Some?
           && ParseVendor(all[i].value, MAX_MSG_SIZE) == Some(Vendor(Tpm2CmdCode(), re.tpm.value(calls + i, ps[i]).value))
    {
      if i > 0 {
        assert all[i] == answers[i - 1] && ps[1..][i - 1] == ps[i] && calls + 1 + (i - 1) == calls + i;
      }
    }
  }

  /** Over any sequence of TPM commands each answer is the dispatcher's to its own command, and the session stays. */
  lemma {:induction false} CommandsRelayed(e: Env, re: RespEnv, w: World, ps: seq<bytes>)
    requires Both(e, re) && Linked(w) && Answerable(re, w.r.tpmCalls, ps)
    ensures
      var (w', answers) := Commands(e, Ours(re), w, ps);
      Relayed(re, w.r.tpmCalls, ps, answers) && Linked(w') && w'.r.tpmCalls == w.r.tpmCalls + |ps|
    decreases |ps|
  {
    hide Answerable, Relayed, Command, Linked, ParseVendor, Tpm2CmdCode, e.c.Sound;
    LinkedReady(w);
    if ps == [] {
      NothingRelayed(re, w.r.tpmCalls);
    } else {
      RestAnswerable(re, w.r.tpmCalls, ps);
      TpmTunneled(e, re, w, ps[0]);
      var (w1, answer) := Command(e, Ours(re), w, Tpm2CmdCode(), ps[0]);
      CommandsRelayed(e, re, w1, ps[1..]);
      OneMoreRelayed(re, w.r.tpmCalls, ps, answer, Commands(e, Ours(re), w1, ps[1..]).1);
    }
  }

  lemma NothingRelayed(re: RespEnv, calls: nat)
    requires Answerable(re, calls, [])
    ensures Relayed(re, calls, [], [])
  {
  }

  /**
   * End to end: from any state of two ends that share an identity or a key, Connect and then any TPM commands. Each
   * command reaches the dispatcher once, in order and unchanged, and the requester receives its answer unchanged.
   */
  lemma TpmThroughSession(e: Env, re: RespEnv, w: World, ps: seq<bytes>)
    requires Both(e, re) && w.Valid() && (Configured(e.c, w) || Shared(w))
    ensures
      var (w1, rc) := Connect(e, Ours(re), w);
      && rc == Success && Linked(w1)
      && (Answerable(re, w1.r.tpmCalls, ps) ==>
            var (w2, answers) := Commands(e, Ours(re), w1, ps);
            Relayed(re, w1.r.tpmCalls, ps, answers) && Linked(w2) && w2.r.tpmCalls == w1.r.tpmCalls + |ps|)
  {
    hide Connect, Answerable, Relayed, Commands, Established, e.c.Sound;
    var asym := Configured(e.c, w);
    if asym {
      TcgHandshakeAgrees(e, re, w);
    } else {
      PskHandshakeAgrees(e, re, w);
    }
    var w1 := Connect(e, Ours(re), w).0;
    EstablishedLinks(e.c, w1, Common(w.x), asym);
    if Answerable(re, w1.r.tpmCalls, ps) {
      CommandsRelayed(e, re, w1, ps);
    }
  }

  lemma EstablishedLinks(c: Crypto, w: World, v: byte, asym: bool)
    requires Established(c, w, v, asym) && w.Valid() && w.x.state == Connected && v != 0 && PermittedSid(w.x.cfg.reqSid)
    ensures Linked(w)
  {
    hide AppKeys;
  }

  // ----- Status and lock -----

  /** The status that a connected requester reads is whether a PSK is provisioned, and the lock. */
  lemma StatusTunneled(e: Env, re: RespEnv, w: World, p: bytes)
    requires Both(e, re) && Linked(w) && |p| <= MAX_PAYLOAD
    ensures
      var (w', answer) := Command(e, Ours(re), w, GetStsCode(), p);
      && answer.Ok? && Linked(w') && w'.r.flags == w.r.flags
      && ParseVendor(answer.value, MAX_MSG_SIZE)
         == Some(Vendor(GetStsCode(), [0, 4, if w.r.flags.provisioned then 1 else 0, if w.r.flags.lock then 1 else 0]))
  {
    hide Command, ParseVendor, Linked, Paired, Tpm2CmdCode, GetPubkCode, GivePubCode, GetStsCode, SpdmOnlyCode, PskSetCode, PskClrCode, e.c.Sound;
    Replies.EightBytes();
    Replies.CodesApart();
    LinkedState(w);
    CommandTunneled(e, re, w, GetStsCode(), p);
  }

  /** SPDMONLY with 1 sets the lock that the next status shows, with 0 it clears it. */
  lemma LockTunneled(e: Env, re: RespEnv, w: World, locked: bool)
    requires Both(e, re) && Linked(w)
    ensures
      var (w', answer) := Command(e, Ours(re), w, SpdmOnlyCode(), [if locked then 1 else 0]);
      && answer.Ok? && Linked(w') && w'.r.flags == w.r.flags.(lock := locked)
      && ParseVendor(answer.value, MAX_MSG_SIZE) == Some(Vendor(SpdmOnlyCode(), []))
  {
    hide Command, ParseVendor, Linked, Paired, Tpm2CmdCode, GetPubkCode, GivePubCode, GetStsCode, SpdmOnlyCode, PskSetCode, PskClrCode, e.c.Sound;
    Replies.EightBytes();
    Replies.CodesApart();
    LinkedState(w);
    CommandTunneled(e, re, w, SpdmOnlyCode(), [if locked then 1 else 0]);
  }

  lemma LinkedState(w: World)
    requires Linked(w)
    ensures w.r.ctx.state == Connected && Heard(w).flags == w.r.flags && Heard(w).ctx.state == Connected
  {
  }
}
