/**
 * The responder's answers, spelled out: which requests it refuses and how, what each vendor command changes and returns,
 * and exactly when an exchange or a finish succeeds.
 */
module Replies {
  import opened Bytes
  import opened Codes
  import opened Crypto
  import opened Records
  import opened Context
  import opened ResponderSpec
  import Agreement

  // ----- Gates of a clear request -----

  /** The version byte of an ERROR: the pinned version, or 1.0 while there is none. */
  function ErrorVersion(x: Ctx): byte {
    if x.ver != 0 then x.ver else 0x10
  }

  /** The version that a request is handled under, if it is handled. */
  function AcceptedVersion(x: Ctx, ver: byte, vendor: bool): Option<byte> {
    if x.ver != 0 then (if ver == x.ver then Some(x.ver) else None)
    else if x.state == Version then (if ver == 0x12 || ver == 0x13 then Some(ver) else None)
    else if vendor then Some(0)
    else None
  }

  lemma SelectMeans(x: Ctx, ver: byte, vendor: bool)
    ensures
      var (x', rc) := SelectVersion(x, ver, vendor);
      && (rc == Success <==> AcceptedVersion(x, ver, vendor).Some?)
      && x' == (if rc == Success then x.(ver := AcceptedVersion(x, ver, vendor).value) else x)
      && (rc == BadState <==> x.ver == 0 && x.state != Version && !vendor)
  {
  }

  /**
   * A request other than GET_VERSION whose version is not the pinned one, or that comes before a version is chosen, is
   * answered with ERROR(MajorVersionMismatch) or ERROR(UnexpectedRequest), and changes nothing.
   */
  lemma VersionRefused(re: RespEnv, r: Resp, req: bytes, cap: nat)
    requires |req| >= 2 && req[1] != GET_VERSION && cap >= 4
    requires AcceptedVersion(r.ctx, req[0], req[1] == VENDOR_DEFINED_REQUEST).None?
    ensures
      var early := r.ctx.ver == 0 && r.ctx.state != Version;
      DispatchClear(re, r, req, cap) == Out(r, Success, [ErrorVersion(r.ctx), 0x7F, if early then 0x04 else 0x41, 0], [])
    ensures r.ctx.ver != 0 && req[0] != r.ctx.ver ==>
              DispatchClear(re, r, req, cap) == Out(r, Success, [r.ctx.ver, 0x7F, 0x41, 0], [])
  {
    hide ClearBody;
    SelectMeans(r.ctx, req[0], req[1] == VENDOR_DEFINED_REQUEST);
    assert r.(ctx := r.ctx) == r;
  }

  /** A key exchange is refused when its mode is off, and then while a session is negotiating or connected; the version is pinned. */
  lemma ExchangeRefused(re: RespEnv, r: Resp, req: bytes, cap: nat)
    requires |req| >= 2 && cap >= 4 && (req[1] == KEY_EXCHANGE || req[1] == PSK_EXCHANGE)
    requires AcceptedVersion(r.ctx, req[0], false).Some?
    ensures
      var off := if req[1] == KEY_EXCHANGE then !r.flags.useTcg else !r.flags.usePsk;
      var busy := r.ctx.state == KeyEx || r.ctx.state == Connected;
      off || busy ==>
        DispatchClear(re, r, req, cap)
        == Out(r.(ctx := r.ctx.(ver := req[0])), Success, if off then [req[0], 0x7F, 0x07, req[1]] else [req[0], 0x7F, 0x04, 0], [])
  {
    hide ClearBody;
    SelectMeans(r.ctx, req[0], false);
  }

  /** A code that is not handled in the clear is answered with ERROR(UnsupportedRequest), once it is in the transcript. */
  lemma UnknownRefused(re: RespEnv, r: Resp, req: bytes, cap: nat)
    requires |req| >= 2 && cap >= 4 && AcceptedVersion(r.ctx, req[0], false).Some? && |r.ctx.transcript| + |req| <= 16384
    requires req[1] !in [0x84, 0xE1, 0xE3, 0xE4, 0xE6, 0xFE]
    ensures DispatchClear(re, r, req, cap)
         == Out(r.(ctx := r.ctx.(ver := req[0], transcript := r.ctx.transcript + req)), Success, [req[0], 0x7F, 0x07, req[1]], [])
  {
    SelectMeans(r.ctx, req[0], false);
  }

  /** GET_CAPABILITIES and NEGOTIATE_ALGORITHMS are answered with fixed bytes; the PSK bit is set exactly when PSK is on. */
  lemma CapabilitiesServed(re: RespEnv, r: Resp, req: bytes, cap: nat)
    requires |req| >= 2 && cap >= 52 && AcceptedVersion(r.ctx, req[0], false).Some? && |r.ctx.transcript| + |req| + 52 <= 16384
    requires req[1] == GET_CAPABILITIES || req[1] == NEGOTIATE_ALGORITHMS
    ensures
      var o := DispatchClear(re, r, req, cap);
      && o.rc == Success && o.evs == [] && o.r == r.(ctx := r.ctx.(ver := req[0], transcript := r.ctx.transcript + req + o.out))
      && (req[1] == GET_CAPABILITIES ==>
            o.out == [req[0], 0x61, 0, 0, 0, 0x1F, 0, 0, 0xC0, if r.flags.usePsk then 0x97 else 0x93, 1, 0] + [0xC0, 7, 0, 0, 0xC0, 7, 0, 0])
  {
    hide AlgorithmsMessage;
    SelectMeans(r.ctx, req[0], false);
    CapabilityFlags();
    AlgorithmsLength(req[0]);
  }

  lemma CapabilityFlags()
    ensures LE(0x197C0, 4) == [0xC0, 0x97, 1, 0] && LE(0x193C0, 4) == [0xC0, 0x93, 1, 0]
  {
    assert LE(1, 2) == [1, 0];
    assert LE(0x197, 3) == [0x97] + LE(1, 2) && LE(0x193, 3) == [0x93] + LE(1, 2);
  }

  lemma AlgorithmsLength(ver: byte)
    ensures |AlgorithmsMessage(ver)| == 52
  {
  }

  // ----- Session ends -----

  /** What a reset leaves and what it takes: no session, no keys, no transcript; identity, store, mode, lock and version stay. */
  lemma ResetMeans(r: Resp)
    ensures
      var z := Reset(r);
      && z.ctx.state == Init && z.ctx.keys == NO_KEYS && z.ctx.transcript == [] && z.ctx.eph == Ephemeral(None, []) && z.ctx.sess.sid == 0
      && z.ctx.hashes == NO_HASHES && !z.flags.sessionAsym && !z.flags.pendingAsym
      && z.ctx.ver == r.ctx.ver && z.ctx.cfg == r.ctx.cfg && z.ctx.psk == r.ctx.psk && z.id == r.id && z.pskStore == r.pskStore
      && z.hintStore == r.hintStore && z.clearAuthDigest == r.clearAuthDigest && z.tpmCalls == r.tpmCalls
      && z.flags == r.flags.(sessionAsym := false, pendingAsym := false)
  {
  }

  /** END_SESSION is acknowledged under the keys of the session, and the session is gone; nothing else ends it so. */
  lemma EndServed(re: RespEnv, r: Resp, plain: bytes, cap: nat, evs: seq<Event>)
    requires re.e.Valid() && r.Valid() && |plain| >= 2 && plain[1] == 0xEC
    ensures
      var (x, rec) := RespEncrypt(re.e, r.ctx, [r.ctx.ver, 0x6C, 0, 0], cap);
      var o := Respond(re, r, plain, cap, evs);
      if rec.Ok? then o.rc == Success && o.out == rec.value && o.r == Reset(r.(ctx := x)) else o.rc == rec.rc && o.r == r.(ctx := x)
  {
    hide Seal, Reset;
  }

  /** The bytes of a decrypted request that is neither a finish, a vendor command nor the end. */
  lemma SecuredUnknown(re: RespEnv, r: Resp, plain: bytes)
    requires |plain| >= 2 && plain[1] !in [0xE5, 0xE7, 0xEC, 0xFE]
    ensures SecuredBody(re, r, plain) == (Out(r, Success, [ErrorVersion(r.ctx), 0x7F, 0x07, plain[1]], []), false)
  {
  }

  // ----- Exchanges and finishes -----

  /** PSK_EXCHANGE is answered exactly when a PSK is stored, request and buffers are whole and the transcript has room. */
  lemma PskExchangeAnswered(e: Env, r: Resp, req: bytes, cap: nat)
    requires e.Valid()
    ensures
      var o := BuildPskExchangeRsp(e, r, req, cap);
      && (o.rc == Success <==>
            && |req| >= 12 && r.pskStore != [] && cap >= 92 && 12 + Get16(req, 6) + Get16(req, 8) + Get16(req, 10) <= |req|
            && |r.ctx.transcript| + 92 <= 16384)
      && (o.rc == Success ==>
            && |o.out| == 92 && o.r.ctx.state == KeyEx && !o.r.flags.pendingAsym
            && o.r.ctx.transcript == r.ctx.transcript + o.out && o.r.ctx.keys.handshake == e.c.extract(Fill(0xFF, 48), r.pskStore)
            && o.r.pskStore == r.pskStore && o.r.ctx.psk == [])
      && (o.rc != Success ==> o.r.ctx.state == r.ctx.state && o.out == [])
  {
    hide GetLE, FinishedKey, TrafficKey, TrafficIv, ExpandLabel, Fill, PskPartial;
    PskPartialSize(r.ctx.ver, e.rnd(r.ctx.draws, RANDOM_SIZE));
    var p := PskPartial(r.ctx.ver, e.rnd(r.ctx.draws, RANDOM_SIZE));
    assert forall v: bytes :: r.ctx.transcript + p + v == r.ctx.transcript + (p + v);
  }

  lemma PskPartialSize(ver: byte, random: bytes)
    ensures |PskPartial(ver, random)| == 12 + |random|
  {
  }

  lemma VerifyDataAnswered(e: Env, r: Resp, body: bytes, asym: bool)
    requires e.Valid()
    ensures
      var o := ExchangeTail(e, r, body, asym);
      && (o.rc == Success <==> |r.ctx.transcript| + 48 <= 16384)
      && (o.rc == Success ==> |o.out| == |body| + 48 && o.r.ctx.state == KeyEx && o.r.flags.pendingAsym == asym)
      && (o.rc != Success ==> o.r == r && o.out == [])
  {
    hide HandshakeOf;
  }

  lemma AgreementAnswered(e: Env, r: Resp, priv: bytes, peer: bytes, body: bytes)
    requires e.Valid()
    ensures
      var o := EcdheFinishRsp(e, r, priv, peer, body);
      && (o.rc == Success <==> |r.ctx.transcript| + 48 <= 16384 && e.c.ecShared(priv, peer).Some?)
      && (o.rc == Success ==> |o.out| == |body| + 48 && o.r.ctx.state == KeyEx && o.r.flags.pendingAsym)
      && (o.rc != Success ==> o.r.ctx.state == r.ctx.state && o.out == [])
  {
    hide ExchangeTail, EcdheHandshake;
    if e.c.ecShared(priv, peer).Some? {
      var shared := e.c.ecShared(priv, peer).value;
      HandshakeLeaves(e, r.ctx, shared);
      VerifyDataAnswered(e, r.(ctx := EcdheHandshake(e, r.ctx, shared)), body, true);
    }
  }

  lemma SignatureAnswered(e: Env, r: Resp, idKey: bytes, priv: bytes, peer: bytes, partial: bytes)
    requires e.Valid()
    ensures
      var o := SignAndFinish(e, r, idKey, priv, peer, partial);
      && (o.rc == Success <==> |r.ctx.transcript| + 144 <= 16384 && e.c.ecShared(priv, peer).Some?)
      && (o.rc == Success ==> |o.out| == |partial| + 144 && o.r.ctx.state == KeyEx && o.r.flags.pendingAsym)
      && (o.rc != Success ==> o.r.ctx.state == r.ctx.state && o.out == [])
  {
    hide EcdheFinishRsp, SignedHash;
    var sig := e.c.sign(idKey, SignedHash(e.c, r.ctx.ver, r.ctx.transcript), e.rnd(r.ctx.draws, ECC_KEY_SIZE));
    AgreementAnswered(e, AddTo(r.(ctx := r.ctx.(draws := r.ctx.draws + 1)), sig).0, priv, peer, partial + sig);
  }

  /** KEY_EXCHANGE is answered exactly when there is an identity, the request is whole, its point agrees and there is room. */
  lemma KeyExchangeAnswered(e: Env, r: Resp, req: bytes, cap: nat)
    requires e.Valid()
    ensures
      var o := BuildKeyExchangeRsp(e, r, req, cap);
      && (o.rc == Success <==>
            && |req| >= 136 && r.id.Some? && cap >= 282 && |r.ctx.transcript| + 282 <= 16384
            && e.c.ecShared(e.rnd(r.ctx.draws + 1, 48), req[40..136]).Some?)
      && (o.rc == Success ==> |o.out| == 282 && o.r.ctx.state == KeyEx && o.r.flags.pendingAsym)
      && (o.rc != Success ==> o.r.ctx.state == r.ctx.state && o.out == [])
  {
    hide GetLE, SignAndFinish, KeyExchangePartial;
    var priv := e.rnd(r.ctx.draws + 1, ECC_KEY_SIZE);
    var p := KeyExchangePartial(r.ctx.ver, e.rnd(r.ctx.draws, RANDOM_SIZE), e.c.ecPub(priv));
    PartialLength(r.ctx.ver, e.rnd(r.ctx.draws, RANDOM_SIZE), e.c.ecPub(priv));
    if |req| >= 136 && r.id.Some? {
      var r1 := AddTo(r.(ctx := EcdheOpen(e, r.ctx, Get16(req, 4))), p).0;
      SignatureAnswered(e, r1, r.id.value.priv, priv, req[40..136], p);
    }
  }

  lemma HandshakeLeaves(e: Env, x: Ctx, shared: bytes)
    ensures EcdheHandshake(e, x, shared).transcript == x.transcript && EcdheHandshake(e, x, shared).state == x.state
  {
  }

  lemma PartialLength(ver: byte, random: bytes, pub: bytes)
    ensures |KeyExchangePartial(ver, random, pub)| == 10 + |random| + |pub|
  {
  }

  /** A finish is accepted exactly for the HMAC over the transcript with its header, under the requester's finished key. */
  lemma FinishAnswered(e: Env, r: Resp, asym: bool, req: bytes, cap: nat)
    requires e.Valid()
    ensures
      var o := HandleFinish(e, r, asym, req, cap);
      var whole := |req| >= 52 && cap >= 4 && |r.ctx.transcript| + 4 <= 16384;
      var th2 := if whole then e.c.hash(r.ctx.transcript + req[..4]) else [];
      && (o.rc == Success <==> whole && req[4..52] == e.c.hmac(r.ctx.keys.reqFinished, th2) && |r.ctx.transcript| + 56 <= 16384)
      && (o.rc == BadHmac <==> whole && req[4..52] != e.c.hmac(r.ctx.keys.reqFinished, th2))
      && (o.rc == Success ==>
            && o.out == [r.ctx.ver, if asym then 0x65 else 0x67, 0, 0]
            && o.r == r.(ctx := r.ctx.(transcript := r.ctx.transcript + req[..52] + o.out, hashes := r.ctx.hashes.(th2 := th2), state := Connected),
                         flags := r.flags.(sessionAsym := asym)))
      && (o.rc != Success ==> o.r.ctx.state == r.ctx.state && o.r.flags == r.flags && o.out == [])
  {
    if |req| >= 52 {
      assert r.ctx.transcript + req[..4] + req[4..52] == r.ctx.transcript + req[..52];
    }
  }

  /** Only the pending kind of finish, and only while the session is negotiating, reaches the HMAC. */
  lemma FinishGates(re: RespEnv, r: Resp, plain: bytes)
    requires |plain| >= 2 && (plain[1] == 0xE5 || plain[1] == 0xE7)
    ensures
      var admitted := r.ctx.state == KeyEx && r.flags.pendingAsym == (plain[1] == 0xE5);
      var (o, derived) := SecuredBody(re, r, plain);
      && (derived <==> o.rc == Success)
      && o == if admitted then HandleFinish(re.e, r, plain[1] == 0xE5, plain, 8192) else Out(r, BadState, [], [])
  {
    hide HandleFinish;
  }

  // ----- The PSK store -----

  /** PSK_SET_ is a PSK of 64 bytes and the hash of a ClearAuth: refused once a ClearAuth is set, or for another PSK. */
  lemma PskSetMeans(r: Resp, p: bytes)
    ensures
      var f := PskSet(r, p);
      && (f.rc == Success <==> |p| == 112 && !r.flags.clearAuthSet && (r.pskStore == [] || r.pskStore == p[..64]))
      && f.payload == [] && f.evs == []
      && f.r == if f.rc != Success then r
                else r.(pskStore := p[..64], clearAuthDigest := p[64..], ctx := r.ctx.(psk := p[..64]),
                        flags := r.flags.(provisioned := true, clearAuthSet := true))
  {
  }

  /** PSK_CLR_ is a ClearAuth of 32 bytes whose hash is the one registered; it empties the store. */
  lemma PskClearMeans(e: Env, r: Resp, p: bytes)
    ensures
      var f := PskClear(e, r, p);
      && (f.rc == Success <==> |p| == 32 && r.flags.provisioned && e.c.hash(p) == r.clearAuthDigest)
      && (f.rc == BadHmac <==> |p| == 32 && r.flags.provisioned && e.c.hash(p) != r.clearAuthDigest)
      && f.payload == [] && f.evs == []
      && f.r == if f.rc != Success then r
                else r.(pskStore := [], clearAuthDigest := Zeros(48), ctx := r.ctx.(psk := []),
                        flags := r.flags.(provisioned := false, clearAuthSet := false))
  {
  }

  /**
   * The life of a provisioned PSK: once set with the hash of a ClearAuth it can neither be set again nor be cleared by
   * anything that hashes to something else; that ClearAuth clears it, and then any PSK can be set.
   */
  lemma ProvisionedOnce(e: Env, r: Resp, psk: bytes, auth: bytes, other: bytes, guess: bytes)
    requires |psk| == 64 && |auth| == 32 && |e.c.hash(auth)| == 48 && |other| == 112
    requires r.pskStore == [] && !r.flags.clearAuthSet
    ensures
      var given := PskSet(r, psk + e.c.hash(auth));
      && given.rc == Success && given.r.pskStore == psk && given.r.flags.provisioned
      && PskSet(given.r, other).rc != Success && PskSet(given.r, other).r == given.r
      && (e.c.hash(guess) != e.c.hash(auth) ==> PskClear(e, given.r, guess).rc != Success && PskClear(e, given.r, guess).r == given.r)
      && var cleared := PskClear(e, given.r, auth);
         cleared.rc == Success && cleared.r.pskStore == [] && !cleared.r.flags.provisioned && PskSet(cleared.r, other).rc == Success
  {
    var p := psk + e.c.hash(auth);
    assert p[..64] == psk && p[64..] == e.c.hash(auth);
  }

  // ----- Other vendor commands -----

  /** What a vendor command that is answered comes back as. */
  lemma VendorReadBack(ver: byte, code: bytes, payload: bytes, cap: nat)
    requires |code| == 8 && |payload| <= cap && |payload| <= 0xFFF7
    ensures |VendorReply(ver, code, payload)| == 17 + |payload|
    ensures ParseVendor(VendorReply(ver, code, payload), cap) == Some(Vendor(code, payload))
  {
    hide LE, ParseVendor;
    Agreement.VendorRoundTrip([ver, VENDOR_DEFINED_RSP, 0, 0], code, payload, cap);
  }

  lemma EightBytes()
    ensures |Tpm2CmdCode()| == 8 && |GetStsCode()| == 8 && |SpdmOnlyCode()| == 8 && |GetPubkCode()| == 8 && |GivePubCode()| == 8
  {
  }

  lemma CodesApart()
    ensures Tpm2CmdCode() !in [GetPubkCode(), GivePubCode(), GetStsCode(), SpdmOnlyCode(), PskSetCode(), PskClrCode()]
    ensures GetStsCode() !in [GetPubkCode(), GivePubCode(), SpdmOnlyCode()]
    ensures SpdmOnlyCode() !in [GetPubkCode(), GivePubCode()]
  {
    assert Tpm2CmdCode()[0] == 84 && GetPubkCode()[0] == 71 && GivePubCode()[0] == 71 && GetStsCode()[0] == 71;
    assert SpdmOnlyCode()[0] == 83 && PskSetCode()[0] == 80 && PskClrCode()[0] == 80;
    assert GetStsCode()[4] == 83 && GetPubkCode()[4] == 80 && GivePubCode()[4] == 95;
  }

  /**
   * The tunneled TPM command: in CONNECTED, from a decrypted request, the dispatcher is called once with exactly its
   * payload, and what comes back is exactly the dispatcher's answer, under the same code. A dispatcher that fails, or
   * answers more than fits, is reported and nothing is answered.
   */
  lemma TpmServed(re: RespEnv, r: Resp, req: bytes, cap: nat, p: bytes)
    requires r.ctx.state == Connected && ParseVendor(req, MAX_MSG_SIZE) == Some(Vendor(Tpm2CmdCode(), p)) && re.tpm.Some?
    ensures
      var o := HandleVendor(re, r, req, cap, true);
      var answer := re.tpm.value(r.tpmCalls, p);
      && o.r == r.(tpmCalls := r.tpmCalls + 1) && o.evs == [TpmEvent(p)]
      && (o.rc == Success <==> answer.Some? && |answer.value| + 17 <= MAX_MSG_SIZE && |answer.value| + 17 <= cap)
      && (o.rc == Success ==>
            && ParseVendor(o.out, MAX_MSG_SIZE) == Some(Vendor(Tpm2CmdCode(), answer.value))
            && o.out == VendorReply(r.ctx.ver, Tpm2CmdCode(), answer.value) && |o.out| == 17 + |answer.value|)
      && (o.rc == IoFail <==> answer.None?) && (o.rc != Success ==> o.out == [])
  {
    hide ParseVendor, Tpm2CmdCode, GivePubCode, VendorReply, GetPubkCode, GetStsCode, SpdmOnlyCode, PskSetCode, PskClrCode;
    EightBytes();
    CodesApart();
    var answer := re.tpm.value(r.tpmCalls, p);
    if answer.Some? && |answer.value| + 17 <= MAX_MSG_SIZE {
      VendorReadBack(r.ctx.ver, Tpm2CmdCode(), answer.value, MAX_MSG_SIZE);
    }
  }

  /** GET_STS_, in the clear or in a connected session: two fixed bytes, then whether a PSK is provisioned, then the lock. */
  lemma StatusServed(re: RespEnv, r: Resp, req: bytes, cap: nat, p: bytes, secured: bool)
    requires ParseVendor(req, MAX_MSG_SIZE) == Some(Vendor(GetStsCode(), p)) && cap >= 21 && (secured ==> r.ctx.state == Connected)
    ensures
      var o := HandleVendor(re, r, req, cap, secured);
      && o.rc == Success && o.r == r && o.evs == []
      && ParseVendor(o.out, MAX_MSG_SIZE)
         == Some(Vendor(GetStsCode(), [0, 4, if r.flags.provisioned then 1 else 0, if r.flags.lock then 1 else 0]))
  {
    hide ParseVendor, Tpm2CmdCode, GivePubCode, VendorReply, GetPubkCode, GetStsCode, SpdmOnlyCode, PskSetCode, PskClrCode;
    EightBytes();
    CodesApart();
    VendorReadBack(r.ctx.ver, GetStsCode(), Status(r), MAX_MSG_SIZE);
  }

  /** SPDMONLY in a connected session: 1 locks, 0 unlocks, and anything else is refused and changes nothing. */
  lemma LockServed(re: RespEnv, r: Resp, req: bytes, cap: nat, p: bytes)
    requires ParseVendor(req, MAX_MSG_SIZE) == Some(Vendor(SpdmOnlyCode(), p)) && cap >= 17 && r.ctx.state == Connected
    ensures
      var o := HandleVendor(re, r, req, cap, true);
      if p == [0] || p == [1] then
        && o.rc == Success && o.r == r.(flags := r.flags.(lock := p == [1])) && o.evs == [LockEvent(p == [1])]
        && ParseVendor(o.out, MAX_MSG_SIZE) == Some(Vendor(SpdmOnlyCode(), []))
      else o == Out(r, InvalidArg, [], [])
  {
    hide ParseVendor, Tpm2CmdCode, GivePubCode, VendorReply, GetPubkCode, GetStsCode, SpdmOnlyCode, PskSetCode, PskClrCode;
    EightBytes();
    CodesApart();
    VendorReadBack(r.ctx.ver, SpdmOnlyCode(), [], MAX_MSG_SIZE);
    if |p| == 1 {
      assert p == [p[0]];
    }
  }

  /** Outside a secured message of a connected session the TPM, the lock and the requester's key cannot be reached. */
  lemma CommandsGated(re: RespEnv, r: Resp, req: bytes, cap: nat, v: Vendor, secured: bool)
    requires ParseVendor(req, MAX_MSG_SIZE) == Some(v)
    ensures
      var barred := if secured then r.ctx.state != Connected && v.code != GivePubCode()
                    else v.code == Tpm2CmdCode() || v.code == GivePubCode() || v.code == SpdmOnlyCode();
      barred ==> HandleVendor(re, r, req, cap, secured) == Out(r, BadState, [], [])
  {
    hide ParseVendor, Tpm2CmdCode, GivePubCode, VendorReply, GetPubkCode, GetStsCode, SpdmOnlyCode, PskSetCode, PskClrCode;
  }

  // ----- The frame -----

  /** A frame is read exactly when a mode is on, its tag is known and its length covers the header and is there. */
  lemma FrameGates(re: RespEnv, r: Resp, msg: bytes, cap: nat)
    requires re.e.Valid() && r.Valid()
    ensures
      var whole := |msg| >= 16 && (GetBE(msg, 0, 2) == 0x8101 || GetBE(msg, 0, 2) == 0x8201) && 16 <= GetBE(msg, 2, 4) <= |msg|;
      && (!r.flags.useTcg && !r.flags.usePsk ==> HandleMessage(re, r, msg, cap) == Out(r, BadState, [], []))
      && ((r.flags.useTcg || r.flags.usePsk) && !whole ==> HandleMessage(re, r, msg, cap) == Out(r, Framing, [], []))
      && ((r.flags.useTcg || r.flags.usePsk) && whole && cap >= 16 ==>
            var r1 := r.(ctx := r.ctx.(binding := Binding(GetBE(msg, 6, 4), GetBE(msg, 10, 2))));
            var body := msg[16..GetBE(msg, 2, 4)];
            && r1.Valid()
            && var o := if GetBE(msg, 0, 2) == 0x8101 then DispatchClear(re, r1, body, cap - 16) else DispatchSecured(re, r1, body, cap - 16);
               HandleMessage(re, r, msg, cap)
               == o.(out := if o.rc == Success then TcgHeader(GetBE(msg, 0, 2), 16 + |o.out|, o.r.ctx.binding) + o.out else o.out))
  {
    hide DispatchClear, DispatchSecured, GetBE, TcgHeader, re.e.Valid;
    if |msg| >= 16 {
      BindingValid(msg);
    }
  }
  // ----- Keys and configuration -----

  /** GIVE_PUB, in any secured message, stores at most 128 bytes; GET_PUBK returns the identity key if there is one. */
  lemma KeysServed(re: RespEnv, r: Resp, req: bytes, cap: nat, p: bytes)
    requires cap >= 200 && (r.id.Some? ==> |r.id.value.pub| == 96)
    ensures ParseVendor(req, MAX_MSG_SIZE) == Some(Vendor(GivePubCode(), p)) ==>
              var o := HandleVendor(re, r, req, cap, true);
              if |p| <= 128 then
                && o.rc == Success && o.r == r.(ctx := r.ctx.(cfg := r.ctx.cfg.(tpmt := p))) && o.evs == []
                && ParseVendor(o.out, MAX_MSG_SIZE) == Some(Vendor(GivePubCode(), []))
              else o == Out(r, BufferSmall, [], [])
    ensures ParseVendor(req, MAX_MSG_SIZE) == Some(Vendor(GetPubkCode(), p)) ==>
              var o := HandleVendor(re, r, req, cap, false);
              if r.id.Some? then
                o.rc == Success && o.r == r && o.evs == [] && ParseVendor(o.out, MAX_MSG_SIZE) == Some(Vendor(GetPubkCode(), r.id.value.pub))
              else o == Out(r, BadState, [], [])
  {
    hide ParseVendor, Tpm2CmdCode, GivePubCode, VendorReply, GetPubkCode, GetStsCode, SpdmOnlyCode, PskSetCode, PskClrCode;
    EightBytes();
    CodesApart();
    CodesDiffer();
    VendorReadBack(r.ctx.ver, GivePubCode(), [], MAX_MSG_SIZE);
    if r.id.Some? {
      VendorReadBack(r.ctx.ver, GetPubkCode(), r.id.value.pub, MAX_MSG_SIZE);
    }
  }

  /** Of all vendor commands in the clear only an answered GET_PUBK adds to the transcript, and it adds the hash of the key. */
  lemma OnlyPubKeyRecorded(re: RespEnv, r: Resp, req: bytes, cap: nat, v: Vendor)
    requires |req| >= 2 && ParseVendor(req, MAX_MSG_SIZE) == Some(v) && |re.e.c.hash(if r.id.Some? then r.id.value.pub else [])| == 48
    ensures
      var o := ClearVendor(re, r, req, cap);
      o.r.ctx.transcript
      == r.ctx.transcript + if o.rc == Success && v.code == GetPubkCode() then re.e.c.hash(if r.id.Some? then r.id.value.pub else []) else []
  {
    hide ParseVendor, Tpm2CmdCode, GivePubCode, VendorReply, GetPubkCode, GetStsCode, SpdmOnlyCode, PskSetCode, PskClrCode;
    EffectLeaves(re, r, v);
  }

  lemma EffectLeaves(re: RespEnv, r: Resp, v: Vendor)
    ensures VendorEffect(re, r, v, false).r.ctx.transcript == r.ctx.transcript && VendorEffect(re, r, v, false).r.id == r.id
    ensures v.code == GetPubkCode() && VendorEffect(re, r, v, false).rc == Success ==> r.id.Some?
  {
    hide Tpm2CmdCode, GivePubCode, GetPubkCode, GetStsCode, SpdmOnlyCode, PskSetCode, PskClrCode;
    CodesApart();
  }

  /** Without a session no record is opened. */
  lemma RecordsGated(re: RespEnv, r: Resp, rec: bytes, cap: nat)
    requires re.e.Valid() && r.Valid() && (r.ctx.sess.sid == 0 || (r.ctx.state != KeyEx && r.ctx.state != Connected))
    ensures DispatchSecured(re, r, rec, cap) == Out(r, BadState, [], [])
  {
    hide Open, Respond;
  }

  /** The configuration calls, with what they refuse. */
  lemma Configures(r: Resp, psk: bytes, hint: bytes, priv: bytes, pub: bytes, tcg: bool, usePsk: bool)
    ensures
      var (r1, rc) := SetPsk(r, psk, hint);
      && (rc == Success <==> 0 < |psk| <= 64 && |hint| <= 32)
      && (rc == Success ==>
            && r1.pskStore == psk && r1.hintStore == hint && r1.clearAuthDigest == Zeros(48) && r1.flags.provisioned && !r1.flags.clearAuthSet
            && r1.ctx.psk == psk && r1.id == r.id && r1.ctx.keys == r.ctx.keys && r1.flags.lock == r.flags.lock)
      && (rc != Success ==> r1 == r)
    ensures
      var (r1, rc) := SetIdentityKey(r, priv, pub);
      && (rc == Success <==> |priv| == 48 && |pub| == 96 && r.ctx.state == Init)
      && r1 == if rc == Success then r.(id := Some(IdentityKey(priv, pub))) else r
    ensures
      var (r1, rc) := SetMode(r, tcg, usePsk);
      && (rc == Success <==> tcg || usePsk)
      && (rc == Success ==> r1.flags.useTcg == tcg && r1.flags.usePsk == usePsk && r1.ctx.cfg.mode == (if usePsk then NationsPsk else Nuvoton))
      && (rc != Success ==> r1 == r)
  {
  }
  /** A vendor-defined message is read exactly when its length field, after any vendor id, covers a code and what is there. */
  lemma VendorMeans(buf: bytes, cap: nat, code: bytes, p: bytes)
    requires |code| == 8
    ensures ParseVendor(buf, cap) == Some(Vendor(code, p)) <==>
              && |buf| >= 17 && |p| <= cap
              && var off := 9 + buf[6] as nat;
                 off + 8 + |p| <= |buf| && Get16(buf, off - 2) == 8 + |p| && buf[off..off + 8] == code && buf[off + 8..off + 8 + |p|] == p
  {
    hide GetLE;
  }
}
