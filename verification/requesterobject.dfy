/**
 * The requester object with a responder object behind its I/O callback: the handshake code of spdm_msg.c,
 * spdm_tcg.c, spdm_psk.c, spdm_session.c and spdm_context.c in place, each method as RequesterSpec and
 * Handshake say.
 */
module RequesterObject {
  import opened Bytes
  import opened Codes
  import opened Crypto
  import opened Records
  import opened Context
  import opened ResponderSpec
  import opened RequesterSpec
  import opened Handshake
  import opened ResponderObject
  import Agreement
  import Tunnel

  class SpdmRequester {
    const ctx: SpdmContext
    const peer: SpdmResponder

    ghost predicate Valid()
      reads ctx, peer, peer.ctx
    {
      ctx != peer.ctx && ctx.Valid() && peer.Valid()
    }

    ghost function Snap(): World
      reads ctx, peer, peer.ctx
    {
      World(ctx.Snap(), peer.Snap())
    }

    ghost function Peer(): RespEnv
      reads peer
    {
      peer.Env()
    }

    ghost function Far(): FarEnd
      reads peer
    {
      Ours(Peer())
    }

    constructor (ctx: SpdmContext, peer: SpdmResponder)
      requires ctx != peer.ctx && ctx.Valid() && peer.Valid()
      ensures Valid() && this.ctx == ctx && this.peer == peer
    {
      this.ctx := ctx;
      this.peer := peer;
    }

    // ----- Parsing replies -----

    /** One pass over the entries, keeping the highest that is in range. */
    method ParseVersionReply(buf: bytes) returns (rc: Rc)
      requires ctx.Valid()
      modifies ctx`spdmVersion, ctx`state
      ensures ctx.Valid() && (ctx.Snap(), rc) == ParseVersion(old(ctx.Snap()), buf)
    {
      if |buf| < 4 || (|buf| < 6 && buf[1] != SPDM_ERROR) {
        return InvalidArg;
      }
      if buf[1] != VERSION_RSP {
        return Unexpected(buf, VersionMismatch);
      }
      var count := buf[5] as nat;
      if count == 0 {
        count := buf[4] as nat;
      }
      if 6 + 2 * count > |buf| {
        return VersionMismatch;
      }
      var maxVer := if ctx.cfg.maxVersion != 0 then ctx.cfg.maxVersion else MAX_VERSION;
      var highest: byte := 0;
      for i := 0 to count
        invariant highest == Highest(buf, i, maxVer)
      {
        var ver := buf[6 + i * 2 + 1];
        if ver >= MIN_VERSION && ver <= maxVer && ver > highest {
          highest := ver;
        }
      }
      if highest == 0 {
        return VersionMismatch;
      }
      ctx.spdmVersion := highest;
      ctx.state := Version;
      rc := Success;
    }

    /** Compares ResponderVerifyData; only then does the session exist. */
    method CommitSession(verify: bytes, rspSid: nat, mutAuth: byte) returns (rc: Rc)
      requires ctx.Valid() && rspSid < 0x1_0000
      modifies ctx`transcript, ctx`sess, ctx`state
      ensures ctx.Valid() && (ctx.Snap(), rc) == OpenSession(old(ctx.Snap()), verify, rspSid, mutAuth, ctx.env.c)
    {
      if ctx.env.c.hmac(ctx.keys.rspFinished, ctx.hashes.th1) != verify {
        return BadHmac;
      }
      rc := ctx.TranscriptAdd(verify);
      if rc != Success {
        return;
      }
      ctx.sess := ctx.sess.(rspSid := rspSid);
      ctx.sess := ctx.sess.(sid := SessionId(ctx.cfg.reqSid, rspSid));
      ctx.sess := ctx.sess.(mutAuth := mutAuth);
      ctx.state := KeyEx;
    }

    /** The signature joins the transcript, then shared secret, TH1 and handshake keys. */
    method DeriveFromExchange(sig: bytes, peerPub: bytes) returns (rc: Rc)
      requires ctx.Valid()
      modifies ctx`transcript, ctx`eph, ctx`hashes, ctx`keys
      ensures ctx.Valid() && (ctx.Snap(), rc) == AgreeKeys(ctx.env, old(ctx.Snap()), sig, peerPub)
    {
      hide ExpandLabel, TrafficKey, TrafficIv, FinishedKey, Zeros;
      rc := ctx.TranscriptAdd(sig);
      if rc != Success {
        return;
      }
      if ctx.eph.priv == None {
        return BadState;
      }
      var shared := ctx.env.c.ecShared(ctx.eph.priv.value, peerPub);
      if shared == None {
        ctx.eph := ctx.eph.(shared := []);
        return CryptoFail;
      }
      ctx.eph := ctx.eph.(shared := shared.value);
      ctx.hashes := ctx.hashes.(th1 := ctx.env.c.hash(ctx.transcript));
      ctx.keys := ctx.keys.(handshake := ctx.env.c.extract(Zeros(HASH_SIZE), shared.value));
      ctx.DeriveFromHandshakeSecret(ctx.hashes.th1);
    }

    method ParseKeyExchangeReply(buf: bytes) returns (rc: Rc)
      requires ctx.Valid()
      modifies ctx
      ensures ctx.Valid() && (ctx.Snap(), rc) == ParseKeyExchangeRsp(ctx.env, old(ctx.Snap()), buf)
    {
      hide AgreeKeys, OpenSession, SignedHash, GetLE;
      if |buf| < 4 || (|buf| < 140 && buf[1] != SPDM_ERROR) {
        return InvalidArg;
      }
      if buf[1] != KEY_EXCHANGE_RSP {
        return Unexpected(buf, KeyExchangeErr);
      }
      if ctx.cfg.mode == Auto && buf[6] != 0 {
        return KeyExchangeErr;
      }
      var opaqueOff := 40 + ECC_POINT_SIZE;
      var sigOff := opaqueOff + 2 + Get16(buf, opaqueOff);
      if |buf| < sigOff + ECC_SIG_SIZE + HASH_SIZE {
        return BufferSmall;
      }
      var sig := buf[sigOff..sigOff + ECC_SIG_SIZE];
      var verify := buf[sigOff + ECC_SIG_SIZE..sigOff + ECC_SIG_SIZE + HASH_SIZE];
      rc := ctx.TranscriptAdd(buf[..sigOff]);
      if rc != Success {
        return;
      }
      if ctx.cfg.rspPub == None {
        return BadState;
      }
      if !ctx.env.c.verify(ctx.cfg.rspPub.value, SignedHash(ctx.env.c, ctx.spdmVersion, ctx.transcript), sig) {
        return BadSignature;
      }
      rc := DeriveFromExchange(sig, buf[40..136]);
      if rc == Success {
        rc := CommitSession(verify, Get16(buf, 4), buf[6]);
      }
    }

    method ParseFinishReply(buf: bytes) returns (rc: Rc)
      requires ctx.Valid()
      modifies ctx`transcript, ctx`state
      ensures ctx.Valid() && (ctx.Snap(), rc) == ParseFinishRsp(old(ctx.Snap()), buf)
    {
      hide GetLE;
      if |buf| < 4 {
        return InvalidArg;
      }
      if buf[1] != FINISH_RSP {
        return if buf[1] == SPDM_ERROR then PeerError else BadState;
      }
      var len := 4;
      if ctx.spdmVersion >= 0x14 {
        if |buf| < 6 {
          return BufferSmall;
        }
        var opaqueLen := Get16(buf, 4);
        if opaqueLen > FINISH_OPAQUE_LIMIT {
          return InvalidArg;
        }
        len := 4 + 2 + opaqueLen;
        if |buf| < len {
          return BufferSmall;
        }
      }
      rc := ctx.TranscriptAdd(buf[..len]);
      if rc == Success {
        ctx.state := Finish;
      }
    }

    method ParsePskFinishReply(buf: bytes) returns (rc: Rc)
      requires ctx.Valid()
      modifies ctx`transcript, ctx`state
      ensures ctx.Valid() && (ctx.Snap(), rc) == ParsePskFinishRsp(old(ctx.Snap()), buf)
    {
      if |buf| < 4 {
        return InvalidArg;
      }
      if buf[1] != PSK_FINISH_RSP {
        return if buf[1] == SPDM_ERROR then PeerError else BadState;
      }
      rc := ctx.TranscriptAdd(buf[..4]);
      if rc == Success {
        ctx.state := Finish;
      }
    }

    method DerivePskKeys()
      requires ctx.Valid()
      modifies ctx`keys, ctx`psk, ctx`hashes
      ensures ctx.Valid() && ctx.Snap() == PskHandshake(ctx.env, old(ctx.Snap()))
    {
      hide ExpandLabel, TrafficKey, TrafficIv, FinishedKey;
      ctx.hashes := ctx.hashes.(th1 := ctx.env.c.hash(ctx.transcript));
      ctx.keys := ctx.keys.(handshake := ctx.env.c.extract(Fill(0xFF, HASH_SIZE), ctx.psk));
      ctx.DeriveFromHandshakeSecret(ctx.hashes.th1);
      ctx.psk := [];
    }

    method ParsePskExchangeReply(buf: bytes) returns (rc: Rc)
      requires ctx.Valid()
      modifies ctx
      ensures ctx.Valid() && (ctx.Snap(), rc) == ParsePskExchangeRsp(ctx.env, old(ctx.Snap()), buf)
    {
      hide OpenSession, HandshakeKeys, GetLE;
      if |buf| < 4 || (|buf| < 59 && buf[1] != SPDM_ERROR) {
        return InvalidArg;
      }
      if buf[1] != PSK_EXCHANGE_RSP {
        return Unexpected(buf, KeyExchangeErr);
      }
      var off := 12 + Get16(buf, 8) + Get16(buf, 10);
      if |buf| < off + HASH_SIZE {
        return BufferSmall;
      }
      rc := ctx.TranscriptAdd(buf[..off]);
      if rc != Success {
        return;
      }
      ctx.hashes := ctx.hashes.(th1 := ctx.env.c.hash(ctx.transcript));
      if ctx.psk == [] {
        return BadState;
      }
      DerivePskKeys();
      rc := CommitSession(buf[off..off + HASH_SIZE], Get16(buf, 4), ctx.sess.mutAuth);
    }

    // ----- Building requests -----

    method BuildKeyExchangeRequest() returns (req: bytes)
      requires ctx.Valid()
      modifies ctx`eph, ctx`draws
      ensures ctx.Valid() && (ctx.Snap(), req) == BuildKeyExchange(ctx.env, old(ctx.Snap()))
    {
      hide Opaque;
      req := [ctx.spdmVersion, KEY_EXCHANGE, 0, 0xFF] + LE(ctx.cfg.reqSid, 2) + [0, 0];
      var random := ctx.GetRandom(RANDOM_SIZE);
      req := req + random;
      var priv := ctx.GetRandom(ECC_KEY_SIZE);
      ctx.eph := ctx.eph.(priv := Some(priv));
      req := req + ctx.env.c.ecPub(priv);
      req := req + Opaque(ctx.cfg.mode);
    }

    method BuildPskExchangeRequest() returns (req: Result<bytes>)
      requires ctx.Valid()
      modifies ctx`draws
      ensures ctx.Valid() && (ctx.Snap(), req) == BuildPskExchange(ctx.env, old(ctx.Snap()))
    {
      if ctx.psk == [] {
        return Err(BadState);
      }
      var head := [ctx.spdmVersion, PSK_EXCHANGE, 0, 0] + LE(ctx.cfg.reqSid, 2);
      head := head + LE(|ctx.cfg.pskHint|, 2) + LE(RANDOM_SIZE, 2) + LE(0, 2);
      var random := ctx.GetRandom(RANDOM_SIZE);
      req := Ok(head + ctx.cfg.pskHint + random);
    }

    /** The HMAC over the transcript so far, under the requester's finished key. */
    method AppendVerifyData(msg: bytes) returns (r: Result<bytes>)
      requires ctx.Valid()
      modifies ctx`transcript
      ensures ctx.Valid() && (ctx.Snap(), r) == Confirm(ctx.env, old(ctx.Snap()), msg)
    {
      var mac := ctx.env.c.hmac(ctx.keys.reqFinished, ctx.env.c.hash(ctx.transcript));
      var rc := ctx.TranscriptAdd(mac);
      r := if rc == Success then Ok(msg + mac) else Err(rc);
    }

    method SignFinish() returns (r: Result<bytes>)
      requires ctx.Valid()
      modifies ctx`transcript, ctx`draws
      ensures ctx.Valid() && (ctx.Snap(), r) == AddSignature(ctx.env, old(ctx.Snap()))
    {
      hide SignedMessage;
      if ctx.sess.mutAuth % 2 != 1 {
        return Ok([]);
      }
      if ctx.cfg.keyPair == None {
        return Err(BadState);
      }
      var digest := ctx.env.c.hash(SignedMessage(ctx.spdmVersion, SIGN_FINISH, ctx.hashes.th2));
      var nonce := ctx.GetRandom(ECC_KEY_SIZE);
      var sig := ctx.env.c.sign(ctx.cfg.keyPair.value, digest, nonce);
      var rc := ctx.TranscriptAdd(sig);
      r := if rc == Success then Ok(sig) else Err(rc);
    }

    method BuildFinishRequest() returns (r: Result<bytes>)
      requires ctx.Valid()
      modifies ctx
      ensures ctx.Valid() && (ctx.Snap(), r) == BuildFinish(ctx.env, old(ctx.Snap()))
    {
      hide AddSignature, Confirm;
      var mutual := ctx.sess.mutAuth % 2 == 1;
      if mutual && ctx.cfg.keyPair == None {
        return Err(BadState);
      }
      var msg := [ctx.spdmVersion, FINISH];
      if mutual {
        msg := msg + [1, 0xFF];
      } else {
        msg := msg + [0, 0];
      }
      if ctx.spdmVersion >= 0x14 {
        msg := msg + [0, 0];
      }
      assert msg == FinishHeader(ctx.Snap());
      if mutual && ctx.cfg.tpmt != [] {
        var rc1 := ctx.TranscriptAdd(ctx.env.c.hash(ctx.cfg.tpmt));
        if rc1 != Success {
          return Err(rc1);
        }
      }
      var rc2 := ctx.TranscriptAdd(msg);
      if rc2 != Success {
        return Err(rc2);
      }
      ctx.hashes := ctx.hashes.(th2 := ctx.env.c.hash(ctx.transcript));
      var sig := SignFinish();
      if sig.Err? {
        return sig;
      }
      r := AppendVerifyData(msg + sig.value);
    }

    method BuildPskFinishRequest() returns (r: Result<bytes>)
      requires ctx.Valid()
      modifies ctx
      ensures ctx.Valid() && (ctx.Snap(), r) == BuildPskFinish(ctx.env, old(ctx.Snap()))
    {
      hide Confirm;
      var msg := [ctx.spdmVersion, PSK_FINISH, 0, 0];
      var rc := ctx.TranscriptAdd(msg);
      if rc != Success {
        return Err(rc);
      }
      ctx.hashes := ctx.hashes.(th2 := ctx.env.c.hash(ctx.transcript));
      r := AppendVerifyData(msg);
    }

    // ----- Transport -----

    /** wolfSPDM_TcgSendReceive: wrap, call the peer, strip. */
    method TcgSendReceive(tx: bytes, cap: nat) returns (r: Result<bytes>)
      requires Valid()
      modifies ctx`binding, peer, peer.ctx
      ensures Valid() && (Snap(), r) == SendReceive(Far(), old(Snap()), tx, cap)
    {
      hide HandleMessage, TcgHeader;
      if |tx| > RECORD_BUF {
        return Err(BufferSmall);
      }
      var tag := if tx != [] && tx[0] >= 0x10 && tx[0] <= 0x1F then TAG_CLEAR else TAG_SECURED;
      var frame := TcgHeader(tag, TCG_HEADER_SIZE + |tx|, ctx.binding) + tx;
      assert WrapTcg(ctx.Snap(), tx) == Ok(frame);
      var rc, rx := peer.RespHandleMessage(frame, TCG_BUF);
      if rc != Success {
        return Err(IoFail);
      }
      r := Strip(rx, cap);
    }

    method Strip(rx: bytes, cap: nat) returns (r: Result<bytes>)
      requires ctx.Valid()
      modifies ctx`binding
      ensures ctx.Valid() && (ctx.Snap(), r) == UnwrapTcg(old(ctx.Snap()), rx, cap)
    {
      if |rx| > TCG_BUF {
        return Err(IoFail);
      }
      if |rx| < TCG_HEADER_SIZE {
        return Err(BufferSmall);
      }
      var tag := GetBE(rx, 0, 2);
      if tag != TAG_CLEAR && tag != TAG_SECURED {
        return Err(PeerError);
      }
      BindingValid(rx);
      var fips := GetBE(rx, 10, 2);
      if fips != 0 {
        ctx.binding := ctx.binding.(fips := fips);
      }
      var size := GetBE(rx, 2, 4);
      if size < TCG_HEADER_SIZE || size > |rx| {
        return Err(BufferSmall);
      }
      if size - TCG_HEADER_SIZE > cap {
        return Err(BufferSmall);
      }
      r := Ok(rx[TCG_HEADER_SIZE..size]);
    }

    // ----- Steps -----

    /** Request, reply, parse; a failed exchange leaves no half message in the transcript. */
    method GetVersion() returns (rc: Rc)
      requires Valid()
      modifies ctx, peer, peer.ctx
      ensures Valid() && (Snap(), rc) == GetVersionStep(Far(), old(Snap()))
    {
      hide SendReceive, ParseVersion, ctx.env.Valid;
      var mark := ctx.transcript;
      rc := ctx.TranscriptAdd(GET_VERSION_MESSAGE);
      if rc != Success {
        return;
      }
      var rx := TcgSendReceive(GET_VERSION_MESSAGE, 32);
      if rx.Err? {
        ctx.transcript := mark;
        return rx.rc;
      }
      rc := ctx.TranscriptAdd(rx.value);
      if rc == Success {
        rc := ParseVersionReply(rx.value);
      }
      if rc != Success {
        ctx.transcript := mark;
      }
    }

    /** A failed check leaves the context in ERROR. */
    method FailUnless(rc: Rc)
      requires Valid()
      modifies ctx`state
      ensures Valid() && ctx.Snap() == if rc == Success then old(ctx.Snap()) else old(ctx.Snap()).(state := Failed)
    {
      if rc != Success {
        ctx.state := Failed;
      }
    }

    method GetCapabilities(caps: nat) returns (rc: Rc)
      requires Valid()
      modifies ctx, peer, peer.ctx
      ensures Valid() && (Snap(), rc) == CheckedStep(Far(), old(Snap()), CapabilitiesRequest(old(ctx.spdmVersion), caps), 64, Some(caps))
    {
      hide CheckedExchange, ctx.env.Valid;
      rc := ExchangeCapabilities(caps);
      FailUnless(rc);
    }

    method ExchangeCapabilities(caps: nat) returns (rc: Rc)
      requires Valid()
      modifies ctx, peer, peer.ctx
      ensures Valid() && (Snap(), rc) == CheckedExchange(Far(), old(Snap()), CapabilitiesRequest(old(ctx.spdmVersion), caps), 64, Some(caps))
    {
      hide SendReceive, CheckCapabilities, LE;
      var req := [ctx.spdmVersion, GET_CAPABILITIES, 0, 0, 0, 0x1F, 0, 0] + LE(caps, 4) + [0xC0, 0x07, 0, 0, 0xC0, 0x07, 0, 0];
      rc := ctx.TranscriptAdd(req);
      if rc != Success {
        return;
      }
      var rx := TcgSendReceive(req, 64);
      if rx.Err? {
        return rx.rc;
      }
      rc := CheckCapabilities(ctx.spdmVersion, rx.value, caps);
      if rc == Success {
        rc := ctx.TranscriptAdd(rx.value);
      }
    }

    method NegotiateAlgorithms() returns (rc: Rc)
      requires Valid()
      modifies ctx, peer, peer.ctx
      ensures Valid() && (Snap(), rc) == AlgorithmsStep(Far(), old(Snap()))
    {
      hide CheckedExchange, AlgorithmsRequest, ctx.env.Valid;
      rc := ExchangeAlgorithms();
      FailUnless(rc);
    }

    method ExchangeAlgorithms() returns (rc: Rc)
      requires Valid()
      modifies ctx, peer, peer.ctx
      ensures Valid() && (Snap(), rc) == CheckedExchange(Far(), old(Snap()), AlgorithmsRequest(old(ctx.spdmVersion)), 128, None)
    {
      hide SendReceive, CheckAlgorithms, Zeros;
      var req := [ctx.spdmVersion, NEGOTIATE_ALGORITHMS, 0x04, 0, 0x30, 0, 0, 0x02];
      req := req + [0x80, 0, 0, 0];
      req := req + [0x02, 0, 0, 0];
      req := req + Zeros(16);
      req := req + ALG_STRUCTS;
      rc := ctx.TranscriptAdd(req);
      if rc != Success {
        return;
      }
      var rx := TcgSendReceive(req, 128);
      if rx.Err? {
        return rx.rc;
      }
      rc := CheckAlgorithms(ctx.spdmVersion, rx.value);
      if rc == Success {
        rc := ctx.TranscriptAdd(rx.value);
      }
    }

    /** A context that has not connected asks for the version first. */
    method GetPubKey() returns (rc: Rc)
      requires Valid()
      modifies ctx, peer, peer.ctx
      ensures Valid() && (Snap(), rc) == PubKeyStep(ctx.env, Far(), old(Snap()))
    {
      hide GetVersionStep, FetchPubKeyStep, ctx.env.Valid;
      if ctx.state == Init {
        ctx.TranscriptReset();
        rc := GetVersion();
        if rc != Success {
          return;
        }
      }
      rc := FetchPubKey();
    }

    /** GET_PUBK, the comparison with the configured key, and Ct over the fetched object. */
    method FetchPubKey() returns (rc: Rc)
      requires Valid()
      modifies ctx, peer, peer.ctx
      ensures Valid() && (Snap(), rc) == FetchPubKeyStep(ctx.env, Far(), old(Snap()))
    {
      hide SendReceive, VendorRequest, VendorPayload, CheckPubKey, GetPubkCode, ctx.env.Valid;
      var ver := if ctx.spdmVersion != 0 then ctx.spdmVersion else 0x13;
      var rx := TcgSendReceive(VendorRequest(ver, GetPubkCode(), []), VENDOR_RX);
      if rx.Err? {
        return rx.rc;
      }
      var key := VendorPayload(GetPubkCode(), rx.value);
      if key.Err? {
        return key.rc;
      }
      rc := CheckPubKey(ctx.cfg.rspPub, key.value);
      if rc != Success {
        return;
      }
      ctx.state := Cert;
      ctx.hashes := ctx.hashes.(cert := ctx.env.c.hash(key.value));
      rc := ctx.TranscriptAdd(ctx.hashes.cert);
    }

    method KeyExchange() returns (rc: Rc)
      requires Valid()
      modifies ctx, peer, peer.ctx
      ensures Valid() && (Snap(), rc) == KeyExchangeStep(ctx.env, Far(), old(Snap()))
    {
      hide SendReceive, BuildKeyExchange, ParseKeyExchangeRsp;
      if ctx.cfg.rspPub == None {
        return BadState;
      }
      var req := BuildKeyExchangeRequest();
      rc := ctx.TranscriptAdd(req);
      if rc != Success {
        return;
      }
      var rx := TcgSendReceive(req, KEY_EX_RX);
      if rx.Err? {
        return rx.rc;
      }
      rc := ParseKeyExchangeReply(rx.value);
    }

    method PskExchange() returns (rc: Rc)
      requires Valid()
      modifies ctx, peer, peer.ctx
      ensures Valid() && (Snap(), rc) == PskExchangeStep(ctx.env, Far(), old(Snap()))
    {
      hide SendReceive, ParsePskExchangeRsp, PskExchangeRequest, ctx.env.Valid, Add;
      var req := BuildPskExchangeRequest();
      if req.Err? {
        return req.rc;
      }
      rc := ctx.TranscriptAdd(req.value);
      if rc != Success {
        return;
      }
      var rx := TcgSendReceive(req.value, RECORD_BUF);
      if rx.Err? {
        return rx.rc;
      }
      rc := ParsePskExchangeReply(rx.value);
    }

    /** Seal, send, receive, open, on the receive buffers of the caller. */
    method SecuredTransfer(msg: bytes, sealCap: nat, rxCap: nat, cap: nat, refuseClear: bool) returns (r: Result<bytes>)
      requires Valid()
      modifies ctx, peer, peer.ctx
      ensures Valid() && (Snap(), r) == SecuredStep(ctx.env, Far(), old(Snap()), msg, sealCap, rxCap, cap, refuseClear)
    {
      hide SendReceive, Seal, Open, Unframe;
      var rec := ctx.EncryptInternal(msg, sealCap);
      if rec.Err? {
        return rec;
      }
      r := TcgSendReceive(rec.value, rxCap);
      if r.Err? {
        return;
      }
      if refuseClear && |r.value| >= 2 && r.value[0] >= 0x10 && r.value[0] <= 0x1F {
        return Err(PeerError);
      }
      r := ctx.DecryptInternal(r.value, cap);
    }

    /** wolfSPDM_SecuredExchange with the TCG binding: refused before there is a session. */
    method SecuredExchange(msg: bytes) returns (r: Result<bytes>)
      requires Valid()
      modifies ctx, peer, peer.ctx
      ensures Valid() && (Snap(), r) == Tunnel.SecuredExchange(ctx.env, Far(), old(Snap()), msg)
    {
      hide SecuredStep, ctx.env.Valid;
      if ctx.state.Rank() < KeyEx.Rank() || ctx.state == Failed || ctx.sess.sid == 0 || (ctx.state == KeyEx && ctx.cfg.mode == Auto) {
        return Err(NotConnected);
      }
      r := SecuredTransfer(msg, RECORD_BUF, RECORD_BUF, MAX_MSG_SIZE, false);
    }

    /** A TPM command in its envelope; between connected ends the answer carries what the dispatcher answered. */
    method TpmCommand(command: bytes) returns (r: Result<bytes>)
      requires Valid()
      modifies ctx, peer, peer.ctx
      ensures Valid() && (Snap(), r) == Tunnel.Command(ctx.env, Far(), old(Snap()), Tpm2CmdCode(), command)
      ensures Agreement.Both(ctx.env, Peer()) && Tunnel.Linked(old(Snap())) && Tunnel.Fits(Peer(), old(peer.tpmCalls), command) ==>
                && r.Ok? && Tunnel.Linked(Snap()) && peer.tpmCalls == old(peer.tpmCalls) + 1
                && ParseVendor(r.value, MAX_MSG_SIZE) == Some(Vendor(Tpm2CmdCode(), Peer().tpm.value(old(peer.tpmCalls), command).value))
    {
      hide Tunnel.SecuredExchange, VendorRequest, Tpm2CmdCode, Tunnel.Linked, Tunnel.Fits, ParseVendor, ctx.env.Valid;
      ghost var w := Snap();
      if Agreement.Both(ctx.env, Peer()) && Tunnel.Linked(w) && Tunnel.Fits(Peer(), w.r.tpmCalls, command) {
        Tunnel.TpmTunneled(ctx.env, Peer(), w, command);
      }
      var ver := if ctx.spdmVersion != 0 then ctx.spdmVersion else 0x13;
      r := SecuredExchange(VendorRequest(ver, Tpm2CmdCode(), command));
    }

    method GivePubKey() returns (rc: Rc)
      requires Valid()
      modifies ctx, peer, peer.ctx
      ensures Valid() && (Snap(), rc) == GivePubStep(ctx.env, Far(), old(Snap()))
    {
      hide SecuredStep, VendorRequest, GivePubCode;
      if ctx.state.Rank() < KeyEx.Rank() {
        return BadState;
      }
      if ctx.state == Failed || ctx.sess.sid == 0 || (ctx.state == KeyEx && ctx.cfg.mode == Auto) {
        return NotConnected;
      }
      var ver := if ctx.spdmVersion != 0 then ctx.spdmVersion else 0x13;
      var rsp := SecuredTransfer(VendorRequest(ver, GivePubCode(), ctx.cfg.tpmt), RECORD_BUF, RECORD_BUF, VENDOR_BUF, false);
      if rsp.Err? {
        return rsp.rc;
      }
      rc := if |rsp.value| >= 4 && rsp.value[1] == SPDM_ERROR then PeerError else Success;
    }

    method FinishHandshake() returns (rc: Rc)
      requires Valid()
      modifies ctx, peer, peer.ctx
      ensures Valid() && (Snap(), rc) == FinishStep(ctx.env, Far(), old(Snap()))
    {
      hide SecuredStep, BuildFinish, ParseFinishRsp, AppKeys;
      if ctx.state != KeyEx {
        return BadState;
      }
      var msg := BuildFinishRequest();
      if msg.Err? {
        return msg.rc;
      }
      var rsp := SecuredTransfer(msg.value, VENDOR_BUF, FINISH_RSP_LIMIT + 128, FINISH_RSP_LIMIT, true);
      if rsp.Err? {
        return rsp.rc;
      }
      rc := ParseFinishReply(rsp.value);
      if rc == Success {
        ctx.DeriveAppDataKeys();
      }
    }

    method PskFinishHandshake() returns (rc: Rc)
      requires Valid()
      modifies ctx, peer, peer.ctx
      ensures Valid() && (Snap(), rc) == PskFinishStep(ctx.env, Far(), old(Snap()))
    {
      hide SecuredStep, BuildPskFinish, ParsePskFinishRsp, AppKeys;
      var msg := BuildPskFinishRequest();
      if msg.Err? {
        return msg.rc;
      }
      var rsp := SecuredTransfer(msg.value, RECORD_BUF, RECORD_BUF, 64, false);
      if rsp.Err? {
        return rsp.rc;
      }
      rc := ParsePskFinishReply(rsp.value);
      if rc == Success {
        ctx.DeriveAppDataKeys();
      }
    }

    // ----- Flows -----

    method StartConnection()
      requires Valid()
      modifies ctx
      ensures Valid() && Snap() == Started(old(Snap()))
    {
      ctx.state := Init;
      ctx.TranscriptReset();
    }

    method NegotiateAll() returns (rc: Rc)
      requires Valid()
      modifies ctx, peer, peer.ctx
      ensures Valid() && (Snap(), rc) == Negotiate(Far(), old(Snap()))
    {
      hide GetVersionStep, CheckedStep;
      rc := GetVersion();
      if rc != Success {
        return;
      }
      if ctx.cfg.mode != Nuvoton {
        rc := GetCapabilities(CAPS_DEFAULT);
        if rc != Success {
          return;
        }
        rc := NegotiateAlgorithms();
      }
    }

    method AuthenticatePeer() returns (rc: Rc)
      requires Valid()
      modifies ctx, peer, peer.ctx
      ensures Valid() && (Snap(), rc) == Authenticate(ctx.env, Far(), old(Snap()))
    {
      hide PubKeyStep, KeyExchangeStep;
      rc := GetPubKey();
      if rc == Success {
        rc := KeyExchange();
      }
    }

    method CompleteHandshake() returns (rc: Rc)
      requires Valid()
      modifies ctx, peer, peer.ctx
      ensures Valid() && (Snap(), rc) == Complete(ctx.env, Far(), old(Snap()))
    {
      hide GivePubStep, FinishStep;
      rc := Success;
      if ctx.cfg.keyPair != None && ctx.cfg.tpmt != [] {
        rc := GivePubKey();
      }
      if rc == Success {
        rc := FinishHandshake();
      }
    }

    method RunTcgFlow() returns (rc: Rc)
      requires Valid()
      modifies ctx, peer, peer.ctx
      ensures Valid() && (Snap(), rc) == TcgFlow(ctx.env, Far(), old(Snap()))
    {
      hide Negotiate, Authenticate, Complete, ctx.env.Valid;
      rc := NegotiateAll();
      if rc == Success {
        rc := AuthenticatePeer();
      }
      if rc == Success {
        rc := CompleteHandshake();
      }
    }

    method ConnectTCG() returns (rc: Rc)
      requires Valid()
      modifies ctx, peer, peer.ctx
      ensures Valid() && (Snap(), rc) == ConnectTcg(ctx.env, Far(), old(Snap()))
    {
      hide TcgFlow, ctx.env.Valid;
      if ctx.cfg.rspPub == None || |ctx.cfg.rspPub.value| != ECC_POINT_SIZE {
        return BadState;
      }
      StartConnection();
      rc := RunTcgFlow();
      ctx.state := if rc == Success then Connected else Failed;
    }

    method RunPskFlow() returns (rc: Rc)
      requires Valid()
      modifies ctx, peer, peer.ctx
      ensures Valid() && (Snap(), rc) == PskFlow(ctx.env, Far(), old(Snap()))
    {
      hide GetVersionStep, PskExchangeStep, PskFinishStep, ctx.env.Valid;
      rc := GetVersion();
      if rc == Success {
        rc := PskExchange();
      }
      if rc == Success {
        rc := PskFinishHandshake();
      }
    }

    method ConnectPSK() returns (rc: Rc)
      requires Valid()
      modifies ctx, peer, peer.ctx
      ensures Valid() && (Snap(), rc) == ConnectPsk(ctx.env, Far(), old(Snap()))
    {
      hide PskFlow, ctx.env.Valid;
      if ctx.psk == [] {
        return BadState;
      }
      StartConnection();
      rc := RunPskFlow();
      ctx.state := if rc == Success then Connected else Failed;
    }

    /** Either handshake, from any state of either end, between ends that share a key: it connects them. */
    method ConnectSession() returns (rc: Rc)
      requires Valid() && ctx.cfg.mode != Auto
      modifies ctx, peer, peer.ctx
      ensures Valid() && (Snap(), rc) == Connect(ctx.env, Far(), old(Snap()))
      ensures Agreement.Both(ctx.env, Peer()) && Agreement.Configured(ctx.env.c, old(Snap())) ==>
                rc == Success && Agreement.Established(ctx.env.c, Snap(), Agreement.Common(old(ctx.Snap())), true)
      ensures Agreement.Both(ctx.env, Peer()) && Agreement.Shared(old(Snap())) ==>
                rc == Success && Agreement.Established(ctx.env.c, Snap(), Agreement.Common(old(ctx.Snap())), false)
    {
      hide ConnectTcg, ConnectPsk, Agreement.Established, Agreement.Configured, Agreement.Shared;
      ghost var w := Snap();
      if Agreement.Both(ctx.env, Peer()) && Agreement.Configured(ctx.env.c, w) {
        Agreement.TcgHandshakeAgrees(ctx.env, Peer(), w);
      }
      if Agreement.Both(ctx.env, Peer()) && Agreement.Shared(w) {
        Agreement.PskHandshakeAgrees(ctx.env, Peer(), w);
      }
      ctx.SessionReset();
      if ctx.cfg.mode == NationsPsk {
        rc := ConnectPSK();
      } else {
        rc := ConnectTCG();
      }
    }
  }
}
