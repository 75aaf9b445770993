/** The responder object (spdm_responder.c): each method changes it in place as ResponderSpec says. */
module ResponderObject {
  import opened Bytes
  import opened Codes
  import opened Crypto
  import opened Records
  import opened Context
  import opened ResponderSpec

  class SpdmResponder {
    const ctx: SpdmContext
    const tpm: Option<TpmCallback>
    var flags: Flags
    var id: Option<IdentityKey>
    var clearAuthDigest: bytes
    var pskStore: bytes
    var hintStore: bytes
    var tpmCalls: nat
    ghost var trace: seq<Event>

    ghost function Snap(): Resp
      reads this, ctx
    {
      Resp(ctx.Snap(), flags, id, clearAuthDigest, pskStore, hintStore, tpmCalls)
    }

    ghost predicate Valid()
      reads this, ctx
    {
      ctx.Valid() && Snap().Valid()
    }

    ghost function Env(): RespEnv
      reads this
    {
      RespEnv(ctx.env, tpm)
    }

    constructor (env: Env, tpm: Option<TpmCallback>)
      requires env.Valid()
      ensures Valid() && fresh(ctx) && ctx.env == env && this.tpm == tpm
      ensures Snap() == NEW_RESP && trace == []
    {
      ctx := new SpdmContext(env);
      this.tpm := tpm;
      flags := Flags(false, false, false, false, false, false, false);
      id, clearAuthDigest, pskStore, hintStore, tpmCalls, trace := None, NO_HASH, [], [], 0, [];
    }

    // ----- Configuration -----

    method RespSetMode(useTcg: bool, usePsk: bool) returns (rc: Rc)
      requires Valid()
      modifies this`flags, ctx`cfg
      ensures Valid() && (Snap(), rc) == SetMode(old(Snap()), useTcg, usePsk)
    {
      hide ctx.env.Valid;
      if !useTcg && !usePsk {
        return InvalidArg;
      }
      flags := flags.(useTcg := useTcg);
      flags := flags.(usePsk := usePsk);
      ctx.cfg := ctx.cfg.(mode := if usePsk then NationsPsk else Nuvoton);
      rc := Success;
    }

    method RespSetPSK(psk: bytes, hint: bytes) returns (rc: Rc)
      requires Valid()
      modifies this, ctx`psk, ctx`cfg
      ensures Valid() && (Snap(), rc) == SetPsk(old(Snap()), psk, hint) && trace == old(trace)
    {
      if psk == [] || |psk| > PSK_MAX_SIZE || |hint| > 32 {
        return InvalidArg;
      }
      ctx.psk := psk;
      ctx.cfg := ctx.cfg.(pskHint := hint);
      pskStore := psk;
      hintStore := hint;
      flags := flags.(provisioned := true);
      flags := flags.(clearAuthSet := false);
      clearAuthDigest := NO_HASH;
      rc := Success;
    }

    method RespSetIdentityKey(priv: bytes, pub: bytes) returns (rc: Rc)
      requires Valid()
      modifies this`id
      ensures Valid() && (Snap(), rc) == SetIdentityKey(old(Snap()), priv, pub)
    {
      if |priv| != ECC_KEY_SIZE || |pub| != ECC_POINT_SIZE {
        return InvalidArg;
      }
      if ctx.state != Init {
        return BadState;
      }
      id := Some(IdentityKey(priv, pub));
      rc := Success;
    }

    method DropSession()
      requires Valid()
      modifies ctx
      ensures Valid() && Snap() == old(Snap()).(ctx := Dropped(old(ctx.Snap())))
    {
      hide ctx.env.Valid;
      ctx.keys := NO_KEYS;
      ctx.eph := NO_EPHEMERAL;
      ctx.TranscriptReset();
      ctx.sess := ctx.sess.(sid := 0);
      ctx.state := Init;
    }

    /** Session keys, secrets and the transcript go; the identity key, PSK store and pinned version stay. */
    method RespReset()
      requires Valid()
      modifies this`flags, this`trace, ctx
      ensures Valid() && Snap() == Reset(old(Snap())) && trace == old(trace) + [ResetEvent]
    {
      hide Dropped, ctx.env.Valid;
      DropSession();
      flags := flags.(sessionAsym := false);
      flags := flags.(pendingAsym := false);
      trace := trace + [ResetEvent];
    }

    // ----- Clear responses -----

    method BuildErrorClear(code: byte, data: byte, cap: nat) returns (rc: Rc, out: bytes)
      requires Valid()
      ensures Out(Snap(), rc, out, []) == ErrorReply(Snap(), code, data, cap)
    {
      if cap < 4 {
        return BufferSmall, [];
      }
      out := [if ctx.spdmVersion != 0 then ctx.spdmVersion else 0x10, SPDM_ERROR, code, data];
      rc := Success;
    }

    method RespSelectVersion(ver: byte, vendor: bool) returns (rc: Rc)
      requires Valid()
      modifies ctx`spdmVersion
      ensures Valid() && (ctx.Snap(), rc) == SelectVersion(old(ctx.Snap()), ver, vendor)
      ensures Snap() == old(Snap()).(ctx := ctx.Snap())
    {
      if ctx.spdmVersion != 0 {
        return if ver == ctx.spdmVersion then Success else VersionMismatch;
      }
      if ctx.state != Version {
        return if vendor then Success else BadState;
      }
      if ver < MIN_VERSION || ver > RESP_MAX_VERSION {
        return VersionMismatch;
      }
      ctx.spdmVersion := ver;
      rc := Success;
    }

    /** VERSION with one two-byte entry for each version from the lowest to the highest supported. */
    method RespBuildVersion(cap: nat) returns (rc: Rc, out: bytes)
      requires Valid()
      modifies ctx`spdmVersion, ctx`state
      ensures Valid() && Out(Snap(), rc, out, []) == BuildVersion(old(Snap()), cap)
    {
      var count := (RESP_MAX_VERSION - MIN_VERSION + 1) as nat;
      if cap < 6 + 2 * count {
        return BufferSmall, [];
      }
      out := [0x10, VERSION_RSP, 0, 0, 0, count as byte];
      var ver := MIN_VERSION;
      while ver <= RESP_MAX_VERSION
        invariant MIN_VERSION <= ver <= RESP_MAX_VERSION + 1
        invariant out == VERSION_MESSAGE[..6 + 2 * ((ver - MIN_VERSION) as nat)]
      {
        out := out + [0, ver];
        ver := ver + 1;
      }
      ctx.spdmVersion := 0;
      ctx.state := Version;
      rc := Success;
    }

    method RespBuildCapabilities(cap: nat) returns (rc: Rc, out: bytes)
      requires Valid()
      ensures Out(Snap(), rc, out, []) == BuildMessage(Snap(), CapabilitiesMessage(ctx.spdmVersion, flags.usePsk), cap)
    {
      if cap < 20 {
        return BufferSmall, [];
      }
      var caps := 0x193C0;
      if flags.usePsk {
        caps := caps + 0x400;
      }
      out := [ctx.spdmVersion, CAPABILITIES_RSP, 0, 0, 0, 0x1F, 0, 0] + LE(caps, 4) + [0xC0, 0x07, 0, 0, 0xC0, 0x07, 0, 0];
      rc := Success;
    }

    method RespBuildAlgorithms(cap: nat) returns (rc: Rc, out: bytes)
      requires Valid()
      ensures Out(Snap(), rc, out, []) == BuildMessage(Snap(), AlgorithmsMessage(ctx.spdmVersion), cap)
    {
      if cap < 52 {
        return BufferSmall, [];
      }
      out := [ctx.spdmVersion, ALGORITHMS_RSP, 0x04, 0, 0x34, 0, 0, 0x02];
      out := out + [0, 0, 0, 0];
      out := out + [0x80, 0, 0, 0];
      out := out + [0x02, 0, 0, 0];
      out := out + Zeros(16);
      out := out + ALG_STRUCTS;
      rc := Success;
    }

    // ----- Exchanges -----

    /** The end of both exchanges: ResponderVerifyData, then the state and the pending kind. */
    method FinishExchange(body: bytes, asym: bool) returns (rc: Rc, out: bytes)
      requires Valid()
      modifies this`flags, this`trace, ctx`transcript, ctx`state
      ensures Valid()
      ensures
        var o := ExchangeTail(ctx.env, old(Snap()), body, asym);
        Snap() == o.r && rc == o.rc && out == o.out && trace == old(trace) + o.evs
    {
      hide Add, ctx.env.Valid;
      var verifyData := ctx.env.c.hmac(ctx.keys.rspFinished, ctx.hashes.th1);
      rc := ctx.TranscriptAdd(verifyData);
      if rc != Success {
        return rc, [];
      }
      ctx.state := KeyEx;
      flags := flags.(pendingAsym := asym);
      trace := trace + [ExchangeEvent(asym, ctx.keys.reqFinished, HandshakeOf(ctx.Snap()))];
      out := body + verifyData;
    }

    /** wolfSPDM_DeriveHandshakeKeysPsk: HKDF-Extract under a salt of 0xFF bytes; the PSK is wiped. */
    method DeriveHandshakeKeysPsk()
      requires Valid()
      modifies ctx`keys, ctx`psk, ctx`hashes
      ensures Valid() && Snap() == old(Snap()).(ctx := PskHandshake(ctx.env, old(ctx.Snap())))
    {
      hide ExpandLabel, TrafficKey, TrafficIv, FinishedKey;
      ctx.hashes := ctx.hashes.(th1 := ctx.env.c.hash(ctx.transcript));
      ctx.keys := ctx.keys.(handshake := ctx.env.c.extract(Fill(0xFF, HASH_SIZE), ctx.psk));
      ctx.psk := [];
      ctx.DeriveFromHandshakeSecret(ctx.hashes.th1);
    }

    /** The PSK and hint from the store, the session id, and the response's random. */
    method OpenPsk(reqSid: nat) returns (random: bytes)
      requires Valid() && reqSid < 0x1_0000
      modifies ctx`psk, ctx`cfg, ctx`sess, ctx`draws
      ensures Valid() && Snap() == old(Snap()).(ctx := PskOpen(old(Snap()), reqSid))
      ensures random == ctx.env.rnd(old(ctx.draws), RANDOM_SIZE)
    {
      hide ctx.env.Valid;
      ctx.psk := pskStore;
      if hintStore != [] {
        ctx.cfg := ctx.cfg.(pskHint := hintStore);
      }
      TakeSession(reqSid);
      random := ctx.GetRandom(RANDOM_SIZE);
    }

    method RespBuildPskExchangeRsp(req: bytes, cap: nat) returns (rc: Rc, out: bytes)
      requires Valid()
      modifies this`flags, this`trace, ctx
      ensures Valid()
      ensures
        var o := BuildPskExchangeRsp(ctx.env, old(Snap()), req, cap);
        Snap() == o.r && rc == o.rc && out == o.out && trace == old(trace) + o.evs
    {
      hide HandshakeKeys, ExchangeTail, PskPartial, GetLE, PskHandshake, PskOpen;
      if |req| < 12 || pskStore == [] {
        return BadState, [];
      }
      if cap < 12 + 32 + HASH_SIZE {
        return BufferSmall, [];
      }
      if 12 + Get16(req, 6) + Get16(req, 8) + Get16(req, 10) > |req| {
        return Framing, [];
      }
      var random := OpenPsk(Get16(req, 4));
      out := PskPartial(ctx.spdmVersion, random);
      rc := ctx.TranscriptAdd(out);
      if rc != Success {
        return rc, [];
      }
      DeriveHandshakeKeysPsk();
      rc, out := FinishExchange(out, false);
    }

    method DeriveHandshakeKeys(shared: bytes)
      requires Valid()
      modifies ctx`keys, ctx`eph, ctx`hashes
      ensures Valid() && Snap() == old(Snap()).(ctx := EcdheHandshake(ctx.env, old(ctx.Snap()), shared))
    {
      hide ExpandLabel, TrafficKey, TrafficIv, FinishedKey;
      ctx.eph := ctx.eph.(shared := shared);
      ctx.hashes := ctx.hashes.(th1 := ctx.env.c.hash(ctx.transcript));
      ctx.keys := ctx.keys.(handshake := ctx.env.c.extract(Zeros(HASH_SIZE), shared));
      ctx.DeriveFromHandshakeSecret(ctx.hashes.th1);
    }

    /** Shared secret, TH1 and handshake keys, then the end of the exchange. */
    method AgreeAndFinish(priv: bytes, peer: bytes, body: bytes) returns (rc: Rc, out: bytes)
      requires Valid()
      modifies this`flags, this`trace, ctx
      ensures Valid()
      ensures
        var o := EcdheFinishRsp(ctx.env, old(Snap()), priv, peer, body);
        Snap() == o.r && rc == o.rc && out == o.out && trace == old(trace) + o.evs
    {
      hide EcdheHandshake, ExchangeTail;
      var shared := ctx.env.c.ecShared(priv, peer);
      if shared == None {
        ctx.eph := ctx.eph.(shared := []);
        return CryptoFail, [];
      }
      DeriveHandshakeKeys(shared.value);
      rc, out := FinishExchange(body, true);
    }

    method SignAndAgree(priv: bytes, peer: bytes, partial: bytes) returns (rc: Rc, out: bytes)
      requires Valid() && id.Some?
      modifies this`flags, this`trace, ctx
      ensures Valid()
      ensures
        var o := SignAndFinish(ctx.env, old(Snap()), old(id).value.priv, priv, peer, partial);
        Snap() == o.r && rc == o.rc && out == o.out && trace == old(trace) + o.evs
    {
      hide EcdheFinishRsp, SignedHash;
      var signed := SignedHash(ctx.env.c, ctx.spdmVersion, ctx.transcript);
      var nonce := ctx.GetRandom(ECC_KEY_SIZE);
      var sig := ctx.env.c.sign(id.value.priv, signed, nonce);
      rc := ctx.TranscriptAdd(sig);
      if rc != Success {
        return rc, [];
      }
      rc, out := AgreeAndFinish(priv, peer, partial + sig);
    }

    method TakeSession(reqSid: nat)
      requires Valid() && reqSid < 0x1_0000
      modifies ctx`cfg, ctx`sess
      ensures Valid() && ctx.cfg == old(ctx.cfg).(reqSid := reqSid)
      ensures ctx.sess == old(ctx.sess).(rspSid := RSP_SESSION_ID, sid := CombinedId(reqSid))
    {
      hide ctx.env.Valid;
      ctx.cfg := ctx.cfg.(reqSid := reqSid);
      ctx.sess := ctx.sess.(rspSid := RSP_SESSION_ID, sid := CombinedId(reqSid));
    }

    /** The session id, the response's random and a fresh ephemeral key. */
    method OpenEcdhe(reqSid: nat) returns (random: bytes, priv: bytes)
      requires Valid() && reqSid < 0x1_0000
      modifies ctx`cfg, ctx`sess, ctx`eph, ctx`draws
      ensures Valid() && Snap() == old(Snap()).(ctx := EcdheOpen(ctx.env, old(ctx.Snap()), reqSid))
      ensures random == ctx.env.rnd(old(ctx.draws), RANDOM_SIZE)
      ensures priv == ctx.env.rnd(old(ctx.draws) + 1, ECC_KEY_SIZE)
    {
      hide CombinedId, ctx.env.Valid;
      TakeSession(reqSid);
      random := ctx.GetRandom(RANDOM_SIZE);
      priv := ctx.GetRandom(ECC_KEY_SIZE);
      ctx.eph := ctx.eph.(priv := Some(priv));
    }

    method RespBuildKeyExchangeRsp(req: bytes, cap: nat) returns (rc: Rc, out: bytes)
      requires Valid()
      modifies this`flags, this`trace, ctx
      ensures Valid()
      ensures
        var o := BuildKeyExchangeRsp(ctx.env, old(Snap()), req, cap);
        Snap() == o.r && rc == o.rc && out == o.out && trace == old(trace) + o.evs
    {
      hide SignAndFinish, GetLE, KeyExchangePartial, EcdheOpen;
      if |req| < 136 || id == None {
        return BadState, [];
      }
      if cap < 138 + ECC_SIG_SIZE + HASH_SIZE {
        return BufferSmall, [];
      }
      var random, priv := OpenEcdhe(Get16(req, 4));
      var partial := KeyExchangePartial(ctx.spdmVersion, random, ctx.env.c.ecPub(priv));
      rc := ctx.TranscriptAdd(partial);
      if rc != Success {
        return rc, [];
      }
      rc, out := SignAndAgree(priv, req[40..136], partial);
    }

    /** RespHandleFinish and RespHandlePskFinish, which differ in the response code and the recorded kind. */
    method RespHandleFinish(asym: bool, req: bytes, cap: nat) returns (rc: Rc, out: bytes)
      requires Valid()
      modifies this`flags, this`trace, ctx
      ensures Valid()
      ensures
        var o := HandleFinish(ctx.env, old(Snap()), asym, req, cap);
        Snap() == o.r && rc == o.rc && out == o.out && trace == old(trace) + o.evs
    {
      if |req| < 4 + HASH_SIZE {
        return Framing, [];
      }
      if cap < 4 {
        return BufferSmall, [];
      }
      rc := ctx.TranscriptAdd(req[..4]);
      if rc != Success {
        return rc, [];
      }
      var th2 := ctx.env.c.hash(ctx.transcript);
      ctx.hashes := ctx.hashes.(th2 := th2);
      if ctx.env.c.hmac(ctx.keys.reqFinished, th2) != req[4..4 + HASH_SIZE] {
        return BadHmac, [];
      }
      rc, out := AcceptFinish(asym, th2, req[4..4 + HASH_SIZE]);
    }

    method AcceptFinish(asym: bool, ghost th2: bytes, mac: bytes) returns (rc: Rc, out: bytes)
      requires Valid()
      modifies this`flags, this`trace, ctx`transcript, ctx`state
      ensures Valid()
      ensures
        var o := FinishTail(old(Snap()), asym, th2, mac);
        Snap() == o.r && rc == o.rc && out == o.out && trace == old(trace) + o.evs
    {
      hide ctx.env.Valid, Add;
      rc := ctx.TranscriptAdd(mac);
      if rc != Success {
        return rc, [];
      }
      out := [ctx.spdmVersion, if asym then FINISH_RSP else PSK_FINISH_RSP, 0, 0];
      rc := ctx.TranscriptAdd(out);
      if rc != Success {
        return rc, [];
      }
      ctx.state := Connected;
      flags := flags.(sessionAsym := asym);
      trace := trace + [FinishEvent(asym, ctx.keys.reqFinished, th2, mac)];
    }

    // ----- Vendor-defined commands -----

    method RunTpmCommand(payload: bytes) returns (rc: Rc, out: bytes)
      requires Valid()
      modifies this`tpmCalls, this`trace
      ensures Valid()
      ensures
        var f := TpmCommand(Env(), old(Snap()), payload);
        Snap() == f.r && rc == f.rc && (rc == Success ==> out == f.payload) && trace == old(trace) + f.evs
      ensures rc == Success <==>
                tpm.Some? && tpm.value(old(tpmCalls), payload) == Some(out) && |out| <= MAX_MSG_SIZE - VENDOR_OVERHEAD
      ensures tpmCalls == (if tpm.Some? then old(tpmCalls) + 1 else old(tpmCalls))
    {
      if tpm == None {
        return BadState, [];
      }
      trace := trace + [TpmEvent(payload)];
      var answer := tpm.value(tpmCalls, payload);
      tpmCalls := tpmCalls + 1;
      if answer == None {
        return IoFail, [];
      }
      if |answer.value| > MAX_MSG_SIZE - VENDOR_OVERHEAD {
        return BufferSmall, [];
      }
      return Success, answer.value;
    }

    method ProvisionPsk(payload: bytes) returns (rc: Rc)
      requires Valid()
      modifies this`pskStore, this`clearAuthDigest, this`flags, ctx`psk
      ensures Valid() && Effect(Snap(), rc, [], []) == PskSet(old(Snap()), payload)
    {
      if |payload| != PSK_MAX_SIZE + HASH_SIZE {
        return InvalidArg;
      }
      if flags.clearAuthSet {
        return BadState;
      }
      if |pskStore| != 0 {
        if |pskStore| != PSK_MAX_SIZE {
          return BadState;
        }
        if pskStore != payload[..PSK_MAX_SIZE] {
          return BadState;
        }
      }
      pskStore := payload[..PSK_MAX_SIZE];
      clearAuthDigest := payload[PSK_MAX_SIZE..];
      flags := flags.(provisioned := true);
      flags := flags.(clearAuthSet := true);
      ctx.psk := pskStore;
      rc := Success;
    }

    method ClearPsk(payload: bytes) returns (rc: Rc)
      requires Valid()
      modifies this`pskStore, this`clearAuthDigest, this`flags, ctx`psk
      ensures Valid() && Effect(Snap(), rc, [], []) == PskClear(ctx.env, old(Snap()), payload)
    {
      if |payload| != 32 || !flags.provisioned {
        return InvalidArg;
      }
      if ctx.env.c.hash(payload) != clearAuthDigest {
        return BadHmac;
      }
      pskStore := [];
      clearAuthDigest := NO_HASH;
      flags := flags.(provisioned := false);
      flags := flags.(clearAuthSet := false);
      ctx.psk := [];
      rc := Success;
    }

    method RunCommand(v: Vendor, secured: bool) returns (rc: Rc, out: bytes)
      requires Valid()
      modifies this`tpmCalls, this`trace, this`pskStore, this`clearAuthDigest, this`flags, ctx`psk, ctx`cfg
      ensures Valid()
      ensures
        var f := VendorEffect(Env(), old(Snap()), v, secured);
        Snap() == f.r && rc == f.rc && (rc == Success ==> out == f.payload) && trace == old(trace) + f.evs
    {
      hide Tpm2CmdCode, GetPubkCode, GivePubCode, GetStsCode, SpdmOnlyCode, PskSetCode, PskClrCode, PskSet, PskClear, TpmCommand;
      out := [];
      if !secured && (v.code == Tpm2CmdCode() || v.code == GivePubCode() || v.code == SpdmOnlyCode()) {
        return BadState, out;
      }
      if secured && ctx.state != Connected && v.code != GivePubCode() {
        return BadState, out;
      }
      if v.code == Tpm2CmdCode() {
        rc, out := RunTpmCommand(v.payload);
      } else if v.code == GetPubkCode() {
        if id == None {
          return BadState, out;
        }
        return Success, id.value.pub;
      } else if v.code == GivePubCode() {
        if |v.payload| > 128 {
          return BufferSmall, out;
        }
        ctx.cfg := ctx.cfg.(tpmt := v.payload);
        rc := Success;
      } else if v.code == GetStsCode() {
        out := [0, 4, if flags.provisioned then 1 else 0, if flags.lock then 1 else 0];
        rc := Success;
      } else if v.code == SpdmOnlyCode() {
        if |v.payload| != 1 || (v.payload[0] != 1 && v.payload[0] != 0) {
          return InvalidArg, out;
        }
        flags := flags.(lock := v.payload[0] == 1);
        trace := trace + [LockEvent(flags.lock)];
        rc := Success;
      } else if v.code == PskSetCode() {
        rc := ProvisionPsk(v.payload);
      } else if v.code == PskClrCode() {
        rc := ClearPsk(v.payload);
      } else {
        rc := NotAvailable;
      }
    }

    method RespHandleVendorDefined(req: bytes, cap: nat, secured: bool) returns (rc: Rc, out: bytes, code: bytes)
      requires Valid()
      modifies this, ctx`psk, ctx`cfg
      ensures Valid()
      ensures
        var o := HandleVendor(Env(), old(Snap()), req, cap, secured);
        Snap() == o.r && rc == o.rc && out == o.out && trace == old(trace) + o.evs
      ensures ParseVendor(req, MAX_MSG_SIZE).Some? ==> code == ParseVendor(req, MAX_MSG_SIZE).value.code
      ensures ParseVendor(req, MAX_MSG_SIZE).None? ==> rc != Success
    {
      hide VendorEffect, ParseVendor;
      var parsed := ParseVendor(req, MAX_MSG_SIZE);
      if parsed == None {
        return BufferSmall, [], [];
      }
      code := parsed.value.code;
      var payload;
      rc, payload := RunCommand(parsed.value, secured);
      if rc != Success {
        return rc, [], code;
      }
      if cap < VENDOR_OVERHEAD + |payload| {
        return BufferSmall, [], code;
      }
      out := [ctx.spdmVersion, VENDOR_DEFINED_RSP, 0, 0] + LE(1, 2) + [0] + LE(8 + |payload|, 2) + code + payload;
    }

    // ----- Dispatch -----

    /** Requests other than vendor commands, once accepted; the response of some is added to the transcript here. */
    method HandleClear(req: bytes, cap: nat) returns (rc: Rc, out: bytes)
      requires Valid() && |req| >= 2 && req[1] != VENDOR_DEFINED_REQUEST
      modifies this`flags, this`trace, ctx
      ensures Valid()
      ensures
        var o := ClearBody(Env(), old(Snap()), req, cap);
        Snap() == o.r && rc == o.rc && (rc == Success ==> out == o.out) && trace == old(trace) + o.evs
    {
      hide BuildPskExchangeRsp, BuildKeyExchangeRsp, CapabilitiesMessage, AlgorithmsMessage, HandleVendor, ErrorReply,
        BuildVersion, Add, ctx.env.Valid;
      var code := req[1];
      out := [];
      rc := ctx.TranscriptAdd(req);
      if rc != Success {
        return;
      }
      if code == GET_VERSION {
        rc, out := RespBuildVersion(cap);
      } else if code == GET_CAPABILITIES {
        rc, out := RespBuildCapabilities(cap);
      } else if code == NEGOTIATE_ALGORITHMS {
        rc, out := RespBuildAlgorithms(cap);
      } else if code == PSK_EXCHANGE {
        rc, out := RespBuildPskExchangeRsp(req, cap);
        return;
      } else if code == KEY_EXCHANGE {
        rc, out := RespBuildKeyExchangeRsp(req, cap);
        return;
      } else {
        rc, out := BuildErrorClear(ERROR_UNSUPPORTED_REQUEST, code, cap);
        return;
      }
      if rc == Success {
        rc := ctx.TranscriptAdd(out);
      }
    }

    /** A vendor command in the clear; after GET_PUBK the hash of the identity key joins the transcript. */
    method HandleClearVendor(req: bytes, cap: nat) returns (rc: Rc, out: bytes)
      requires Valid() && |req| >= 2 && req[1] == VENDOR_DEFINED_REQUEST
      modifies this, ctx`psk, ctx`cfg, ctx`transcript
      ensures Valid()
      ensures
        var o := ClearBody(Env(), old(Snap()), req, cap);
        Snap() == o.r && rc == o.rc && (rc == Success ==> out == o.out) && trace == old(trace) + o.evs
    {
      hide HandleVendor, ParseVendor, GetPubkCode;
      var code;
      rc, out, code := RespHandleVendorDefined(req, cap, false);
      if rc == Success && code == GetPubkCode() && id != None {
        rc := ctx.TranscriptAdd(ctx.env.c.hash(id.value.pub));
      }
    }

    /** GET_VERSION starts over, whatever the state. */
    method StartConnection()
      requires Valid()
      modifies this`flags, this`trace, ctx
      ensures Valid() && Snap() == Reset(old(Snap())) && trace == old(trace) + [ResetEvent]
    {
      ctx.TranscriptReset();
      RespReset();
    }

    method RespDispatchClear(req: bytes, cap: nat) returns (rc: Rc, out: bytes)
      requires Valid()
      modifies this, ctx
      ensures Valid()
      ensures
        var o := DispatchClear(Env(), old(Snap()), req, cap);
        Snap() == o.r && rc == o.rc && (rc == Success ==> out == o.out) && trace == old(trace) + o.evs
    {
      hide ClearBody, SelectVersion, Reset;
      out := [];
      if |req| < 2 {
        return Framing, out;
      }
      var code := req[1];
      if code == GET_VERSION {
        StartConnection();
      } else {
        rc := RespSelectVersion(req[0], code == VENDOR_DEFINED_REQUEST);
        if rc == BadState {
          rc, out := BuildErrorClear(ERROR_UNEXPECTED_REQUEST, 0, cap);
          return;
        }
        if rc != Success {
          rc, out := BuildErrorClear(ERROR_MAJOR_VERSION_MISMATCH, 0, cap);
          return;
        }
      }
      if code == KEY_EXCHANGE || code == PSK_EXCHANGE {
        if (code == KEY_EXCHANGE && !flags.useTcg) || (code == PSK_EXCHANGE && !flags.usePsk) {
          rc, out := BuildErrorClear(ERROR_UNSUPPORTED_REQUEST, code, cap);
          return;
        }
        if ctx.state == KeyEx || ctx.state == Connected {
          rc, out := BuildErrorClear(ERROR_UNEXPECTED_REQUEST, 0, cap);
          return;
        }
      }
      if code == VENDOR_DEFINED_REQUEST {
        rc, out := HandleClearVendor(req, cap);
      } else {
        rc, out := HandleClear(req, cap);
      }
    }

    /** A decrypted request by its code; derived says that application keys follow the reply. */
    method HandlePlain(plain: bytes) returns (rc: Rc, out: bytes, derived: bool)
      requires Valid() && |plain| >= 2
      modifies this, ctx
      ensures Valid()
      ensures
        var (o, d) := SecuredBody(Env(), old(Snap()), plain);
        Snap() == o.r && rc == o.rc && out == o.out && derived == d && trace == old(trace) + o.evs
    {
      hide HandleFinish, HandleVendor;
      derived := false;
      out := [];
      var code := plain[1];
      if code == PSK_FINISH || code == FINISH {
        if ctx.state != KeyEx || flags.pendingAsym != (code == FINISH) {
          return BadState, out, false;
        }
        rc, out := RespHandleFinish(code == FINISH, plain, MAX_MSG_SIZE);
        derived := rc == Success;
      } else if code == END_SESSION {
        out := [ctx.spdmVersion, END_SESSION_ACK, 0, 0];
        rc := Success;
      } else if code == VENDOR_DEFINED_REQUEST {
        var vendorCode;
        rc, out, vendorCode := RespHandleVendorDefined(plain, MAX_MSG_SIZE, true);
      } else {
        rc, out := BuildErrorClear(ERROR_UNSUPPORTED_REQUEST, code, MAX_MSG_SIZE);
      }
    }

    method DeriveKeys()
      requires Valid()
      modifies ctx`keys, this`trace
      ensures Valid() && trace == old(trace) + [KeysEvent(ApplicationOf(old(ctx.Snap())))]
      ensures
        var x := old(ctx.Snap());
        Snap() == old(Snap()).(ctx := x.(keys := AppKeys(ctx.env.c, x.ver, x.transcript, x.keys)))
    {
      hide AppKeys;
      trace := trace + [KeysEvent(ApplicationOf(ctx.Snap()))];
      ctx.DeriveAppDataKeys();
    }

    /** The reply is encrypted under the current keys; only then are application keys derived or the session ended. */
    method RespondTo(plain: bytes, cap: nat) returns (rc: Rc, out: bytes)
      requires Valid() && |plain| >= 2
      modifies this, ctx
      ensures Valid()
      ensures
        var o := Respond(Env(), old(Snap()), plain, cap, []);
        Snap() == o.r && rc == o.rc && (rc == Success ==> out == o.out) && trace == old(trace) + o.evs
    {
      hide Respond, SecuredBody, RespEncrypt, AppKeys, Reset, ApplicationOf, ctx.env.Valid;
      Replied(Env(), Snap(), plain, cap);
      ghost var before := trace;
      ghost var evs := SecuredBody(Env(), Snap(), plain).0.evs;
      var derived;
      rc, out, derived := HandlePlain(plain);
      if rc != Success {
        return;
      }
      ghost var d := ctx.keys.rsp;
      var rec := ctx.RespEncryptRecord(out, cap);
      if rec.Err? {
        return rec.rc, [];
      }
      ghost var sealed, how := evs + [SealedEvent(d)], ApplicationOf(ctx.Snap());
      trace := trace + [SealedEvent(d)];
      assert trace == before + sealed;
      assert before + sealed + [KeysEvent(how)] == before + (sealed + [KeysEvent(how)]);
      assert before + sealed + [ResetEvent] == before + (sealed + [ResetEvent]);
      out := rec.value;
      AfterReply(derived, plain[1] == END_SESSION);
    }

    /** Application keys or the end of the session, once the reply has been sealed. */
    method AfterReply(derived: bool, ended: bool)
      requires Valid()
      modifies this`flags, this`trace, ctx
      ensures Valid()
      ensures
        var r, x := old(Snap()), old(ctx.Snap());
        var t := old(trace);
        if derived then
          && Snap() == r.(ctx := x.(keys := AppKeys(ctx.env.c, x.ver, x.transcript, x.keys)))
          && trace == t + [KeysEvent(ApplicationOf(x))]
        else if ended then Snap() == Reset(r) && trace == t + [ResetEvent]
        else Snap() == r && trace == t
    {
      hide AppKeys, Reset, ApplicationOf, ctx.env.Valid;
      if derived {
        DeriveKeys();
      } else if ended {
        RespReset();
      }
    }

    /** One record through RespDecrypt; the trace notes a record whose tag verifies. */
    method HearRecord(secured: bytes) returns (plain: Result<bytes>)
      requires Valid()
      modifies this`trace, ctx`keys
      ensures Valid()
      ensures
        var (x, p) := RespDecrypt(ctx.env, old(ctx.Snap()), secured, MAX_MSG_SIZE);
        plain == p && Snap() == old(Snap()).(ctx := x)
      ensures
        trace == old(trace) + if Opens(Env(), old(Snap()), secured) then [OpenedEvent(ctx.state == Connected)] else []
    {
      hide Open, Unframe;
      ghost var heard := if Opens(Env(), Snap(), secured) then [OpenedEvent(ctx.state == Connected)] else [];
      plain := ctx.RespDecryptRecord(secured, MAX_MSG_SIZE);
      trace := trace + heard;
    }

    method RespDispatchSecured(secured: bytes, cap: nat) returns (rc: Rc, out: bytes)
      requires Valid()
      modifies this, ctx
      ensures Valid()
      ensures
        var o := DispatchSecured(Env(), old(Snap()), secured, cap);
        Snap() == o.r && rc == o.rc && (rc == Success ==> out == o.out) && trace == old(trace) + o.evs
    {
      hide DispatchSecured, Opens, Respond, RespDecrypt, ctx.env.Valid;
      out := [];
      Dispatched(Env(), Snap(), secured, cap);
      if (ctx.state != KeyEx && ctx.state != Connected) || ctx.sess.sid == 0 {
        return BadState, out;
      }
      ghost var before := trace;
      var plain := HearRecord(secured);
      ghost var heard := trace[|before|..];
      assert trace == before + heard;
      if plain.Err? {
        return plain.rc, out;
      }
      if |plain.value| < 2 {
        return Framing, out;
      }
      ghost var evs := Respond(Env(), Snap(), plain.value, cap, []).evs;
      assert before + heard + evs == before + (heard + evs);
      rc, out := RespondTo(plain.value, cap);
    }

    method RespDispatch(clear: bool, body: bytes, cap: nat) returns (rc: Rc, out: bytes)
      requires Valid()
      modifies this, ctx
      ensures Valid()
      ensures
        var o := if clear then DispatchClear(Env(), old(Snap()), body, cap) else DispatchSecured(Env(), old(Snap()), body, cap);
        Snap() == o.r && rc == o.rc && (rc == Success ==> out == o.out) && trace == old(trace) + o.evs
    {
      hide DispatchClear, DispatchSecured, ctx.env.Valid;
      if clear {
        rc, out := RespDispatchClear(body, cap);
      } else {
        rc, out := RespDispatchSecured(body, cap);
      }
    }

    method RespHandleMessage(msg: bytes, cap: nat) returns (rc: Rc, out: bytes)
      requires Valid()
      modifies this, ctx
      ensures Valid()
      ensures
        var o := HandleMessage(Env(), old(Snap()), msg, cap);
        Snap() == o.r && rc == o.rc && (rc == Success ==> out == o.out) && trace == old(trace) + o.evs
    {
      hide DispatchClear, DispatchSecured, GetBE, TcgHeader, ctx.env.Valid;
      out := [];
      if !flags.useTcg && !flags.usePsk {
        return BadState, out;
      }
      if |msg| < TCG_HEADER_SIZE {
        return Framing, out;
      }
      var tag := GetBE(msg, 0, 2);
      if tag != TAG_CLEAR && tag != TAG_SECURED {
        return Framing, out;
      }
      var size := GetBE(msg, 2, 4);
      if size < TCG_HEADER_SIZE || size > |msg| {
        return Framing, out;
      }
      BindingValid(msg);
      ctx.binding := Binding(GetBE(msg, 6, 4), GetBE(msg, 10, 2));
      if cap < TCG_HEADER_SIZE {
        return BufferSmall, out;
      }
      rc, out := RespDispatch(tag == TAG_CLEAR, msg[TCG_HEADER_SIZE..size], cap - TCG_HEADER_SIZE);
      if rc == Success {
        out := TcgHeader(tag, TCG_HEADER_SIZE + |out|, ctx.binding) + out;
      }
    }
  }

  /** A request answered: not at all, not sealed, or sealed and then keyed, ended or neither. */
  lemma Replied(re: RespEnv, r: Resp, plain: bytes, cap: nat)
    requires re.e.Valid() && r.Valid() && |plain| >= 2
    ensures
      var (o, derived) := SecuredBody(re, r, plain);
      var z := Respond(re, r, plain, cap, []);
      && o.r.Valid()
      && if o.rc != Success then z == Out(o.r, o.rc, [], o.evs)
         else
           var (x, rec) := RespEncrypt(re.e, o.r.ctx, o.out, cap);
           var r1 := o.r.(ctx := x);
           var sealed := o.evs + [SealedEvent(o.r.ctx.keys.rsp)];
           if rec.Err? then z == Out(r1, rec.rc, [], o.evs)
           else if derived then
             z == Out(r1.(ctx := x.(keys := AppKeys(re.e.c, x.ver, x.transcript, x.keys))), Success, rec.value,
                      sealed + [KeysEvent(ApplicationOf(x))])
           else if plain[1] == END_SESSION then z == Out(Reset(r1), Success, rec.value, sealed + [ResetEvent])
           else z == Out(r1, Success, rec.value, sealed)
  {
    hide SecuredBody, RespEncrypt, AppKeys, Reset, ApplicationOf, re.e.Valid;
    SecuredBodyValid(re, r, plain);
    var o := SecuredBody(re, r, plain).0;
    assert [] + o.evs == o.evs;
  }

  /** A record dispatched: refused, unreadable, too short, or answered. */
  lemma Dispatched(re: RespEnv, r: Resp, rec: bytes, cap: nat)
    requires re.e.Valid() && r.Valid()
    ensures
      var o := DispatchSecured(re, r, rec, cap);
      var (x, plain) := RespDecrypt(re.e, r.ctx, rec, MAX_MSG_SIZE);
      var r1 := r.(ctx := x);
      var heard := if Opens(re, r, rec) then [OpenedEvent(r.ctx.state == Connected)] else [];
      if (r.ctx.state != KeyEx && r.ctx.state != Connected) || r.ctx.sess.sid == 0 then o == Fail(r, BadState)
      else if plain.Err? then o == Out(r1, plain.rc, [], heard)
      else if |plain.value| < 2 then o == Out(r1, Framing, [], heard)
      else
        && r1.Valid()
        && var answer := Respond(re, r1, plain.value, cap, []);
           o == answer.(evs := heard + answer.evs)
  {
    hide Respond, Open, Unframe, re.e.Valid;
    var (x, plain) := RespDecrypt(re.e, r.ctx, rec, MAX_MSG_SIZE);
    if plain.Ok? && |plain.value| >= 2 {
      RespondAfter(re, r.(ctx := x), plain.value, cap, if Opens(re, r, rec) then [OpenedEvent(r.ctx.state == Connected)] else []);
    }
  }

  /** The events before the reply are a prefix and nothing else depends on them. */
  lemma RespondAfter(re: RespEnv, r: Resp, plain: bytes, cap: nat, evs: seq<Event>)
    requires re.e.Valid() && r.Valid() && |plain| >= 2
    ensures
      var o, o' := Respond(re, r, plain, cap, evs), Respond(re, r, plain, cap, []);
      o == o'.(evs := evs + o'.evs)
  {
    hide SecuredBody, Seal, AppKeys, Reset;
    SecuredBodyValid(re, r, plain);
    var o := SecuredBody(re, r, plain).0;
    var sealed := o.evs + [SealedEvent(o.r.ctx.keys.rsp)];
    assert [] + o.evs == o.evs && evs + o.evs + [SealedEvent(o.r.ctx.keys.rsp)] == evs + sealed;
    assert evs + sealed + [ResetEvent] == evs + (sealed + [ResetEvent]);
    var x := RespEncrypt(re.e, o.r.ctx, o.out, cap).0;
    assert evs + sealed + [KeysEvent(ApplicationOf(x))] == evs + (sealed + [KeysEvent(ApplicationOf(x))]);
  }
}
