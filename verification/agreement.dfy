/** Both ends of a TCG or PSK handshake always finish, and finish with the same session. */
module Agreement {
  import opened Bytes
  import opened Codes
  import opened Crypto
  import opened Records
  import opened Context
  import opened ResponderSpec
  import opened RequesterSpec
  import opened Handshake
  import Channel

  // ----- The binding frame is transparent -----

  lemma BEFieldReadBack(pre: bytes, v: nat, n: nat, post: bytes)
    requires v < Pow256(n)
    ensures GetBE(pre + BE(v, n) + post, |pre|, n) == v
  {
    var buf := pre + BE(v, n) + post;
    assert buf[|pre|..|pre| + n] == BE(v, n);
    BERoundTrip(v, n);
  }

  lemma TcgFields(tag: nat, b: Binding, body: bytes)
    requires tag < 0x1_0000 && b.handle < 0x1_0000_0000 && b.fips < 0x1_0000 && |body| <= RECORD_BUF
    ensures
      var msg := TcgHeader(tag, TCG_HEADER_SIZE + |body|, b) + body;
      && GetBE(msg, 0, 2) == tag && GetBE(msg, 2, 4) == |msg| == TCG_HEADER_SIZE + |body|
      && GetBE(msg, 6, 4) == b.handle && GetBE(msg, 10, 2) == b.fips
      && msg[TCG_HEADER_SIZE..|msg|] == body
  {
    hide BE, GetBE, FromBE;
    Pow256Values();
    var total := TCG_HEADER_SIZE + |body|;
    var t, s, h, f, z := BE(tag, 2), BE(total, 4), BE(b.handle, 4), BE(b.fips, 2), [0, 0, 0, 0] + body;
    var msg := TcgHeader(tag, total, b) + body;
    assert msg == [] + t + (s + h + f + z);
    BEFieldReadBack([], tag, 2, s + h + f + z);
    assert msg == t + s + (h + f + z);
    BEFieldReadBack(t, total, 4, h + f + z);
    assert msg == (t + s) + h + (f + z);
    BEFieldReadBack(t + s, b.handle, 4, f + z);
    assert msg == (t + s + h) + f + z;
    BEFieldReadBack(t + s + h, b.fips, 2, z);
  }

  function Bound(w: World): Resp {
    w.r.(ctx := w.r.ctx.(binding := w.x.binding))
  }

  /** What the responder makes of a message, whose first byte tells clear ones from secured ones. */
  ghost function Handled(re: RespEnv, w: World, tx: bytes): Out
    requires re.e.Valid() && w.Valid()
  {
    if ClearFirst(tx) then DispatchClear(re, Bound(w), tx, RECORD_BUF) else DispatchSecured(re, Bound(w), tx, RECORD_BUF)
  }

  /** What the transport brings back when the responder answers: its reply, whatever the frame around it. */
  lemma Transparent(re: RespEnv, w: World, tx: bytes, cap: nat)
    requires re.e.Valid() && w.Valid() && (w.r.flags.useTcg || w.r.flags.usePsk)
    requires tx != [] && |tx| <= RECORD_BUF
    ensures
      var o := Handled(re, w, tx);
      o.rc == Success && o.r.ctx.binding == w.x.binding && |o.out| <= cap && |o.out| <= RECORD_BUF ==>
        SendReceive(Ours(re), w, tx, cap) == (World(w.x, o.r), Ok(o.out))
  {
    hide DispatchClear, DispatchSecured, GetBE, TcgHeader;
    var o := Handled(re, w, tx);
    var tag := if ClearFirst(tx) then TAG_CLEAR else TAG_SECURED;
    TcgFields(tag, w.x.binding, tx);
    if |o.out| <= RECORD_BUF {
      TcgFields(tag, w.x.binding, o.out);
    }
    assert w.x.binding == Binding(w.x.binding.handle, w.x.binding.fips);
  }

  // ----- GET_VERSION -----

  /** The limits wolfSPDM_SetMaxVersion accepts. */
  predicate PermittedCap(maxVer: byte) {
    maxVer == 0 || MIN_VERSION <= maxVer <= MAX_VERSION
  }

  /** The highest version that both sides support. */
  function Common(x: Ctx): byte {
    if x.cfg.maxVersion == 0x12 then 0x12 else 0x13
  }

  lemma VersionParsed(x: Ctx)
    requires PermittedCap(x.cfg.maxVersion)
    ensures ParseVersion(x, VERSION_MESSAGE) == (x.(ver := Common(x), state := Version), Success)
  {
    var m := MaxVer(x);
    assert Highest(VERSION_MESSAGE, 0, m) == 0;
    assert Highest(VERSION_MESSAGE, 1, m) == 0x12;
    assert Highest(VERSION_MESSAGE, 2, m) == Common(x);
  }

  const GREETING := GET_VERSION_MESSAGE + VERSION_MESSAGE

  function Greeted(r: Resp, b: Binding): Resp {
    Reset(r).(ctx := Reset(r).ctx.(binding := b, ver := 0, state := Version, transcript := GREETING))
  }

  lemma VersionServed(re: RespEnv, r: Resp, cap: nat)
    requires cap >= 10
    ensures DispatchClear(re, r, GET_VERSION_MESSAGE, cap) == Out(Greeted(r, r.ctx.binding), Success, VERSION_MESSAGE, [ResetEvent])
  {
    var r1 := Reset(r).(ctx := Reset(r).ctx.(transcript := GET_VERSION_MESSAGE));
    assert [] + GET_VERSION_MESSAGE == GET_VERSION_MESSAGE;
    assert AddTo(Reset(r), GET_VERSION_MESSAGE) == (r1, Success);
    assert [ResetEvent] + [] == [ResetEvent];
  }

  lemma VersionAgreed(re: RespEnv, w: World)
    requires re.e.Valid() && w.Valid() && (w.r.flags.useTcg || w.r.flags.usePsk)
    requires PermittedCap(w.x.cfg.maxVersion) && w.x.transcript == []
    ensures GetVersionStep(Ours(re), w)
         == (World(w.x.(ver := Common(w.x), state := Version, transcript := GREETING), Greeted(w.r, w.x.binding)), Success)
  {
    hide DispatchClear, DispatchSecured, SendReceive, Greeted, ParseVersion, re.e.Valid;
    var x1 := w.x.(transcript := GET_VERSION_MESSAGE);
    assert [] + GET_VERSION_MESSAGE == GET_VERSION_MESSAGE;
    assert Add(w.x, GET_VERSION_MESSAGE) == (x1, Success);
    var w1 := w.(x := x1);
    VersionServed(re, Bound(w1), RECORD_BUF);
    GreetedBinding(w.r, w.x.binding);
    Transparent(re, w1, GET_VERSION_MESSAGE, 32);
    VersionParsed(x1.(transcript := GREETING));
  }

  lemma GreetedBinding(r: Resp, b: Binding)
    ensures Greeted(r.(ctx := r.ctx.(binding := b)), b) == Greeted(r, b) && Greeted(r, b).ctx.binding == b
  {
  }

  // ----- GET_CAPABILITIES, NEGOTIATE_ALGORITHMS -----

  /** The version is agreed on one side at least, and both have recorded the same bytes t. */
  predicate Greeting(w: World, v: byte, t: bytes) {
    && w.x.state == Version && w.x.ver == v && (v == 0x12 || v == 0x13)
    && w.x.transcript == t && w.r.ctx.transcript == t && |t| <= 400
    && w.r.ctx.state == Version && (w.r.ctx.ver == 0 || w.r.ctx.ver == v)
    && w.x.keys == NO_KEYS && w.r.ctx.keys == NO_KEYS
  }

  /** The world after one more clear request and response that both sides record. */
  function Recorded(w: World, v: byte, data: bytes): World {
    World(w.x.(transcript := w.x.transcript + data),
          w.r.(ctx := w.r.ctx.(binding := w.x.binding, ver := v, transcript := w.r.ctx.transcript + data)))
  }

  lemma FixedServed(re: RespEnv, w: World, v: byte, t: bytes, req: bytes, rsp: bytes, cap: nat)
    requires Greeting(w, v, t) && |req| <= 64 && |rsp| <= 64 && |rsp| <= cap && |req| >= 2 && req[0] == v
    requires || (req[1] == GET_CAPABILITIES && rsp == CapabilitiesMessage(v, w.r.flags.usePsk))
             || (req[1] == NEGOTIATE_ALGORITHMS && rsp == AlgorithmsMessage(v))
    ensures DispatchClear(re, Bound(w), req, cap) == Out(Recorded(w, v, req + rsp).r, Success, rsp, [])
  {
    hide CapabilitiesMessage, AlgorithmsMessage;
    assert (t + req) + rsp == t + (req + rsp);
  }

  /** A four-byte field spelled out. */
  lemma FourBytes(buf: bytes, off: nat)
    requires off + 4 <= |buf|
    ensures Get32(buf, off) == buf[off] as nat + 0x100 * buf[off + 1] as nat + 0x1_0000 * buf[off + 2] as nat + 0x100_0000 * buf[off + 3] as nat
  {
    var s := buf[off..off + 4];
    assert s[1..] == [s[1], s[2], s[3]] && s[2..] == [s[2], s[3]] && s[3..] == [s[3]];
    assert FromLE([s[3]]) == s[3] as nat;
    assert [s[2], s[3]][1..] == [s[3]] && [s[1], s[2], s[3]][1..] == [s[2], s[3]];
    assert FromLE([s[2], s[3]]) == s[2] as nat + 0x100 * s[3] as nat;
    assert FromLE([s[1], s[2], s[3]]) == s[1] as nat + 0x100 * s[2] as nat + 0x1_0000 * s[3] as nat;
  }

  lemma CapabilityBits(flags: nat)
    requires flags == 0x193C0 || flags == 0x197C0
    ensures Bit(flags, 6) && Bit(flags, 7) && Bit(flags, 9) && Bit(flags, 16) && !Bit(CAPS_DEFAULT, 10)
  {
    assert Pow2(6) == 64 && Pow2(7) == 128;
    assert Pow2(9) == 512 && Pow2(10) == 1024;
    assert Pow2(13) == 8192 && Pow2(16) == 65536;
  }

  lemma CapabilitiesFields(v: byte, psk: bool)
    ensures CheckCapabilities(v, CapabilitiesMessage(v, psk), CAPS_DEFAULT) == Success
    ensures |CapabilitiesMessage(v, psk)| == 20
  {
    hide LE, GetLE, Bit;
    Pow256Values();
    var flags := if psk then 0x197C0 else 0x193C0;
    var m := CapabilitiesMessage(v, psk);
    var head := [v, CAPABILITIES_RSP, 0, 0, 0, 0x1F, 0, 0];
    assert m == head + LE(flags, 4) + [0xC0, 0x07, 0, 0, 0xC0, 0x07, 0, 0];
    FieldReadBack(head, flags, 4, [0xC0, 0x07, 0, 0, 0xC0, 0x07, 0, 0]);
    CapabilityBits(flags);
    FourBytes(m, 12);
    FourBytes(m, 16);
  }

  lemma TwoBytes(buf: bytes, off: nat)
    requires off + 2 <= |buf|
    ensures Get16(buf, off) == buf[off] as nat + 0x100 * buf[off + 1] as nat
  {
    var s := buf[off..off + 2];
    assert s[1..] == [s[1]];
    assert FromLE([s[1]]) == s[1] as nat;
  }

  lemma AlgorithmsParts(v: byte)
    ensures
      var m := AlgorithmsMessage(v);
      && |m| == 52 && m[..8] == [v, ALGORITHMS_RSP, 0x04, 0, 0x34, 0, 0, 0x02] && m[8..12] == [0, 0, 0, 0]
      && m[12..16] == [0x80, 0, 0, 0] && m[16..20] == [0x02, 0, 0, 0] && m[20..36] == Zeros(16) && m[36..52] == ALG_STRUCTS
  {
  }

  lemma AlgorithmsFields(v: byte)
    ensures CheckAlgorithms(v, AlgorithmsMessage(v)) == Success && |AlgorithmsMessage(v)| == 52
  {
    hide AlgorithmsMessage, GetLE, Zeros;
    var m := AlgorithmsMessage(v);
    AlgorithmsParts(v);
    TwoBytes(m, 4);
    FourBytes(m, 8);
    FourBytes(m, 12);
    FourBytes(m, 16);
    assert forall i :: 0 <= i < 8 ==> m[i] == m[..8][i];
    assert forall i :: 0 <= i < 4 ==> m[8 + i] == m[8..12][i];
    assert forall i :: 0 <= i < 4 ==> m[12 + i] == m[12..16][i];
    assert forall i :: 0 <= i < 4 ==> m[16 + i] == m[16..20][i];
  }

  /** GET_CAPABILITIES and NEGOTIATE_ALGORITHMS: accepted, recorded alike, and the version is now pinned. */
  lemma FixedAgreed(re: RespEnv, w: World, v: byte, t: bytes, req: bytes, rsp: bytes, cap: nat, caps: Option<nat>)
    requires re.e.Valid() && w.Valid() && (w.r.flags.useTcg || w.r.flags.usePsk) && Greeting(w, v, t) && |t| <= 200
    requires 2 <= |req| <= 64 && |rsp| <= 64 && |rsp| <= cap && req[0] == v
    requires || (req[1] == GET_CAPABILITIES && rsp == CapabilitiesMessage(v, w.r.flags.usePsk) && caps == Some(CAPS_DEFAULT))
             || (req[1] == NEGOTIATE_ALGORITHMS && rsp == AlgorithmsMessage(v) && caps == None)
    ensures CheckedStep(Ours(re), w, req, cap, caps) == (Recorded(w, v, req + rsp), Success)
    ensures Greeting(Recorded(w, v, req + rsp), v, t + (req + rsp))
  {
    hide DispatchClear, DispatchSecured, SendReceive, CapabilitiesMessage, AlgorithmsMessage, CheckCapabilities, CheckAlgorithms;
    CapabilitiesFields(v, w.r.flags.usePsk);
    AlgorithmsFields(v);
    FixedServed(re, w, v, t, req, rsp, RECORD_BUF);
    var w1 := w.(x := w.x.(transcript := t + req));
    assert Bound(w1) == Bound(w);
    Transparent(re, w1, req, cap);
    assert (t + req) + rsp == t + (req + rsp);
  }

  /** What the handshake never changes. */
  predicate Kept(w: World, w': World) {
    && w'.x.cfg == w.x.cfg && w'.x.psk == w.x.psk && w'.x.sess == w.x.sess
    && w'.r.id == w.r.id && w'.r.flags.useTcg == w.r.flags.useTcg && w'.r.flags.usePsk == w.r.flags.usePsk
    && w'.r.ctx.cfg.mode == w.r.ctx.cfg.mode && w'.r.pskStore == w.r.pskStore && w'.r.hintStore == w.r.hintStore
  }

  lemma NegotiateAgreed(re: RespEnv, w: World)
    requires re.e.Valid() && w.Valid() && (w.r.flags.useTcg || w.r.flags.usePsk)
    requires PermittedCap(w.x.cfg.maxVersion) && w.x.transcript == [] && w.x.keys == NO_KEYS
    ensures
      var (w', rc) := Negotiate(Ours(re), w);
      && rc == Success && Greeting(w', Common(w.x), w'.x.transcript) && Kept(w, w')
  {
    hide GetVersionStep, CheckedStep, CapabilitiesMessage, AlgorithmsMessage, AlgorithmsRequest, CapabilitiesRequest;
    var v := Common(w.x);
    VersionAgreed(re, w);
    var w1 := GetVersionStep(Ours(re), w).0;
    assert Greeting(w1, v, GREETING) && Kept(w, w1);
    if w1.x.cfg.mode != Nuvoton {
      RequestSizes(v);
      CapabilitiesFields(v, w1.r.flags.usePsk);
      AlgorithmsFields(v);
      var caps := CapabilitiesRequest(v, CAPS_DEFAULT) + CapabilitiesMessage(v, w1.r.flags.usePsk);
      FixedAgreed(re, w1, v, GREETING, CapabilitiesRequest(v, CAPS_DEFAULT), CapabilitiesMessage(v, w1.r.flags.usePsk), 64, Some(CAPS_DEFAULT));
      var w2 := Recorded(w1, v, caps);
      FixedAgreed(re, w2, v, GREETING + caps, AlgorithmsRequest(v), AlgorithmsMessage(v), 128, None);
    }
  }

  lemma RequestSizes(v: byte)
    ensures |CapabilitiesRequest(v, CAPS_DEFAULT)| == 20 && CapabilitiesRequest(v, CAPS_DEFAULT)[0] == v
         && CapabilitiesRequest(v, CAPS_DEFAULT)[1] == GET_CAPABILITIES
    ensures |AlgorithmsRequest(v)| == 48 && AlgorithmsRequest(v)[0] == v && AlgorithmsRequest(v)[1] == NEGOTIATE_ALGORITHMS
  {
  }

  // ----- GET_PUBK -----

  lemma Slices(pre: bytes, len: bytes, code: bytes, payload: bytes)
    ensures
      var buf := pre + len + code + payload;
      var i, j := |pre| + |len|, |pre| + |len| + |code|;
      buf[..|pre|] == pre && buf[|pre|..i] == len && buf[i..j] == code && buf[j..] == payload
  {
  }

  lemma VendorParsed(buf: bytes, code: bytes, payload: bytes, cap: nat)
    requires |code| == 8 && |payload| <= cap && |buf| == 17 + |payload|
    requires buf[6] == 0 && FromLE(buf[7..9]) == 8 + |payload| && buf[9..17] == code && buf[17..] == payload
    ensures ParseVendor(buf, cap) == Some(Vendor(code, payload))
  {
    hide FromLE;
    assert buf[17..17 + |payload|] == buf[17..];
  }

  /** Vendor-defined requests and responses carry their code and payload through. */
  lemma VendorRoundTrip(head: bytes, code: bytes, payload: bytes, cap: nat)
    requires |head| == 4 && |code| == 8 && |payload| <= cap && |payload| <= 0xFFF7
    ensures ParseVendor(head + LE(1, 2) + [0] + LE(8 + |payload|, 2) + code + payload, cap) == Some(Vendor(code, payload))
  {
    hide LE, FromLE, ParseVendor;
    var pre := head + LE(1, 2) + [0];
    var buf := pre + LE(8 + |payload|, 2) + code + payload;
    Pow256Values();
    Slices(pre, LE(8 + |payload|, 2), code, payload);
    LERoundTrip(8 + |payload|, 2);
    assert buf[6] == buf[..7][6];
    VendorParsed(buf, code, payload, cap);
  }

  lemma CodeSizes()
    ensures |GetPubkCode()| == 8 && |GivePubCode()| == 8
    ensures GetPubkCode() != Tpm2CmdCode() && GetPubkCode() != GivePubCode() && GetPubkCode() != SpdmOnlyCode()
    ensures GivePubCode() != Tpm2CmdCode()
  {
    assert GetPubkCode()[0] != Tpm2CmdCode()[0] && GetPubkCode()[1] != GivePubCode()[1] && GetPubkCode()[0] != SpdmOnlyCode()[0];
    assert GivePubCode()[0] != Tpm2CmdCode()[0];
  }

  /** The key in the responder's id is the one the requester was configured with. */
  predicate Trusting(w: World) {
    w.r.id.Some? && |w.r.id.value.pub| == ECC_POINT_SIZE && w.x.cfg.rspPub == Some(w.r.id.value.pub)
  }

  function PubKeyed(re: RespEnv, w: World, v: byte): Resp
    requires w.r.id.Some?
  {
    w.r.(ctx := w.r.ctx.(binding := w.x.binding, ver := v,
                         transcript := w.r.ctx.transcript + re.e.c.hash(w.r.id.value.pub)))
  }

  lemma PubKeyHandled(re: RespEnv, r: Resp, req: bytes, cap: nat)
    requires r.id.Some? && |r.id.value.pub| == ECC_POINT_SIZE && cap >= 200
    requires ParseVendor(req, MAX_MSG_SIZE) == Some(Vendor(GetPubkCode(), []))
    ensures HandleVendor(re, r, req, cap, false) == Out(r, Success, VendorReply(r.ctx.ver, GetPubkCode(), r.id.value.pub), [])
  {
    hide ParseVendor, GetPubkCode, Tpm2CmdCode, GivePubCode, SpdmOnlyCode, VendorReply;
    CodeSizes();
  }

  lemma PubKeyServed(re: RespEnv, w: World, v: byte, t: bytes, req: bytes)
    requires re.e.Valid() && Greeting(w, v, t) && Trusting(w)
    requires |req| >= 2 && req[0] == v && req[1] == VENDOR_DEFINED_REQUEST
    requires ParseVendor(req, MAX_MSG_SIZE) == Some(Vendor(GetPubkCode(), []))
    ensures DispatchClear(re, Bound(w), req, RECORD_BUF)
         == Out(PubKeyed(re, w, v), Success, VendorReply(v, GetPubkCode(), w.r.id.value.pub), [])
  {
    hide ParseVendor, GetPubkCode, HandleVendor, VendorReply;
    var r1 := Bound(w).(ctx := Bound(w).ctx.(ver := v));
    PubKeyHandled(re, r1, req, RECORD_BUF);
  }

  lemma PubKeyAgreed(e: Env, re: RespEnv, w: World, v: byte, t: bytes)
    requires e.Valid() && re.e.Valid() && e.c == re.e.c && w.Valid() && (w.r.flags.useTcg || w.r.flags.usePsk)
    requires Greeting(w, v, t) && Trusting(w)
    ensures
      var ct := re.e.c.hash(w.r.id.value.pub);
      PubKeyStep(e, Ours(re), w) == (World(w.x.(state := Cert, hashes := w.x.hashes.(cert := ct), transcript := t + ct), PubKeyed(re, w, v)), Success)
  {
    hide DispatchClear, DispatchSecured, SendReceive, ParseVendor, GetPubkCode, LE;
    CodeSizes();
    var pub := w.r.id.value.pub;
    var req := VendorRequest(v, GetPubkCode(), []);
    VendorRoundTrip([v, VENDOR_DEFINED_REQUEST, 0, 0], GetPubkCode(), [], MAX_MSG_SIZE);
    VendorRoundTrip([v, VENDOR_DEFINED_RSP, 0, 0], GetPubkCode(), pub, VENDOR_BUF);
    PubKeyServed(re, w, v, t, req);
    var rsp := VendorReply(v, GetPubkCode(), pub);
    Transparent(re, w, req, VENDOR_RX);
    assert VendorPayload(GetPubkCode(), rsp) == Ok(pub);
  }

  // ----- KEY_EXCHANGE -----

  /** Both sides have the version and t, and nothing is keyed yet. */
  predicate Ready(w: World, v: byte, t: bytes) {
    && w.x.ver == v && w.r.ctx.ver == v && (v == 0x12 || v == 0x13)
    && w.x.transcript == t && w.r.ctx.transcript == t && |t| <= 500
    && w.r.ctx.state == Version && w.x.keys == NO_KEYS && w.r.ctx.keys == NO_KEYS
  }

  function EcdheKeys(c: Crypto, v: byte, shared: bytes, th1: bytes): Keys {
    HandshakeKeys(c, v, c.extract(Zeros(HASH_SIZE), shared), th1, NO_KEYS)
  }

  /** The responder's side of a session that waits for its finish, over transcript t with TH1 th1. */
  predicate Waiting(r: Resp, r': Resp, v: byte, t: bytes, th1: bytes, k: Keys, reqSid: nat, asym: bool) {
    && r'.ctx.state == KeyEx && r'.ctx.ver == v && r'.ctx.transcript == t && r'.ctx.hashes.th1 == th1
    && r'.ctx.keys == k && r'.ctx.sess.sid == CombinedId(reqSid) && r'.ctx.binding == r.ctx.binding
    && r'.ctx.cfg.mode == r.ctx.cfg.mode && r'.flags == r.flags.(pendingAsym := asym)
  }

  lemma TailServed(e: Env, r: Resp, body: bytes, asym: bool)
    requires e.Valid() && |r.ctx.transcript| <= 1000
    ensures
      var verify := e.c.hmac(r.ctx.keys.rspFinished, r.ctx.hashes.th1);
      var o := ExchangeTail(e, r, body, asym);
      && o.rc == Success && o.out == body + verify
      && o.r == r.(ctx := r.ctx.(transcript := r.ctx.transcript + verify, state := KeyEx), flags := r.flags.(pendingAsym := asym))
  {
  }

  lemma EcdheServed(e: Env, r: Resp, priv: bytes, peer: bytes, body: bytes, v: byte, reqSid: nat)
    requires e.Valid() && e.c.ecShared(priv, peer).Some?
    requires |r.ctx.transcript| <= 900 && r.ctx.keys == NO_KEYS && r.ctx.ver == v && r.ctx.sess.sid == CombinedId(reqSid)
    ensures
      var t := r.ctx.transcript;
      var th1 := e.c.hash(t);
      var k := EcdheKeys(e.c, v, e.c.ecShared(priv, peer).value, th1);
      var verify := e.c.hmac(k.rspFinished, th1);
      var o := EcdheFinishRsp(e, r, priv, peer, body);
      o.rc == Success && o.out == body + verify && Waiting(r, o.r, v, t + verify, th1, k, reqSid, true)
  {
    hide HandshakeKeys, ExchangeTail, Zeros;
    TailServed(e, r.(ctx := EcdheHandshake(e, r.ctx, e.c.ecShared(priv, peer).value)), body, true);
  }

  /** The bytes of the response before its signature. */
  predicate Partial(c: Crypto, p: bytes, v: byte, priv: bytes) {
    && |p| == 138 && p[0] == v && p[1] == KEY_EXCHANGE_RSP && p[6] == 0
    && Get16(p, 4) == RSP_SESSION_ID && Get16(p, 136) == 0 && p[40..136] == c.ecPub(priv)
  }

  lemma PartialFields(c: Crypto, v: byte, random: bytes, priv: bytes)
    requires c.Sizes() && |random| == RANDOM_SIZE
    ensures Partial(c, KeyExchangePartial(v, random, c.ecPub(priv)), v, priv)
  {
    hide GetLE;
    var p := KeyExchangePartial(v, random, c.ecPub(priv));
    SmallLE();
    TwoBytes(p, 4);
    TwoBytes(p, 136);
    assert p[40..136] == c.ecPub(priv);
  }

  lemma SmallLE()
    ensures LE(RSP_SESSION_ID, 2) == [0xFE, 0xFF] && LE(0, 2) == [0, 0] && LE(RANDOM_SIZE, 2) == [32, 0]
  {
    assert LE(0xFF, 1) == [0xFF] && LE(0, 1) == [0];
  }

  /** What the responder answers to KEY_EXCHANGE: its parts, and its state afterwards. */
  ghost predicate Answered(c: Crypto, r: Resp, o: Out, v: byte, t: bytes, reqSid: nat, peer: bytes, priv: bytes, p: bytes, sig: bytes)
    requires r.id.Some?
  {
    && Partial(c, p, v, priv) && |sig| == ECC_SIG_SIZE && c.ecShared(priv, peer).Some?
    && c.verify(r.id.value.pub, SignedHash(c, v, t + p), sig)
    && var th1 := c.hash(t + p + sig);
       var k := EcdheKeys(c, v, c.ecShared(priv, peer).value, th1);
       var verify := c.hmac(k.rspFinished, th1);
       o.rc == Success && o.out == p + sig + verify && Waiting(r, o.r, v, t + p + sig + verify, th1, k, reqSid, true)
  }

  /** A responder identity as wolfSPDM_RespSetIdentityKey stores it: a key pair. */
  predicate Identified(c: Crypto, r: Resp) {
    r.id.Some? && r.id.value.pub == c.ecPub(r.id.value.priv)
  }

  lemma SignServed(e: Env, r: Resp, priv: bytes, peer: bytes, p: bytes, v: byte, t: bytes, reqSid: nat)
    requires e.Valid() && e.c.Sound() && Identified(e.c, r) && e.c.ecShared(priv, peer).Some?
    requires r.ctx.transcript == t + p && |t| <= 660 && Partial(e.c, p, v, priv)
    requires r.ctx.keys == NO_KEYS && r.ctx.ver == v && r.ctx.sess.sid == CombinedId(reqSid)
    ensures
      var sig := e.c.sign(r.id.value.priv, SignedHash(e.c, v, t + p), e.rnd(r.ctx.draws, ECC_KEY_SIZE));
      Answered(e.c, r, SignAndFinish(e, r, r.id.value.priv, priv, peer, p), v, t, reqSid, peer, priv, p, sig)
  {
    hide EcdheFinishRsp, SignedHash, Partial, EcdheKeys;
    var sig := e.c.sign(r.id.value.priv, SignedHash(e.c, v, t + p), e.rnd(r.ctx.draws, ECC_KEY_SIZE));
    assert |p| == 138 by { PartialSize(e.c, p, v, priv); }
    var r1 := r.(ctx := r.ctx.(draws := r.ctx.draws + 1, transcript := t + p + sig));
    EcdheServed(e, r1, priv, peer, p + sig, v, reqSid);
  }

  lemma PartialSize(c: Crypto, p: bytes, v: byte, priv: bytes)
    requires Partial(c, p, v, priv)
    ensures |p| == 138
  {
  }

  /** What an opening gives the signature step, and what it leaves alone. */
  lemma EcdheOpened(e: Env, r: Resp, reqSid: nat, t: bytes)
    ensures
      var r1 := r.(ctx := EcdheOpen(e, r.ctx, reqSid).(transcript := t));
      && r1.ctx.transcript == t && r1.ctx.keys == r.ctx.keys && r1.ctx.ver == r.ctx.ver && r1.ctx.sess.sid == CombinedId(reqSid)
      && r1.id == r.id && r1.flags == r.flags && r1.ctx.binding == r.ctx.binding && r1.ctx.cfg.mode == r.ctx.cfg.mode
  {
  }

  lemma AnsweredFrom(c: Crypto, r: Resp, r1: Resp, o: Out, v: byte, t: bytes, reqSid: nat, peer: bytes, priv: bytes, p: bytes, sig: bytes)
    requires r.id.Some? && r1.id == r.id && r1.flags == r.flags && r1.ctx.binding == r.ctx.binding
    requires r1.ctx.cfg.mode == r.ctx.cfg.mode && Answered(c, r1, o, v, t, reqSid, peer, priv, p, sig)
    ensures Answered(c, r, o, v, t, reqSid, peer, priv, p, sig)
  {
    hide Partial, SignedHash, EcdheKeys;
  }

  lemma KeyExchangeServed(e: Env, r: Resp, req: bytes, cap: nat, v: byte, t: bytes, reqSid: nat, peer: bytes)
    requires e.Valid() && e.c.Sound() && Identified(e.c, r) && cap >= 300
    requires 136 <= |req| && Get16(req, 4) == reqSid && req[40..136] == peer && (exists a :: peer == e.c.ecPub(a))
    requires r.ctx.transcript == t && |t| <= 660 && r.ctx.keys == NO_KEYS && r.ctx.ver == v
    ensures
      var priv := e.rnd(r.ctx.draws + 1, ECC_KEY_SIZE);
      exists p, sig :: Answered(e.c, r, BuildKeyExchangeRsp(e, r, req, cap), v, t, reqSid, peer, priv, p, sig)
  {
    hide SignAndFinish, SignedHash, Partial, EcdheKeys, GetLE, KeyExchangePartial, EcdheOpen, Answered;
    var priv := e.rnd(r.ctx.draws + 1, ECC_KEY_SIZE);
    var random := e.rnd(r.ctx.draws, RANDOM_SIZE);
    var p := KeyExchangePartial(v, random, e.c.ecPub(priv));
    PartialFields(e.c, v, random, priv);
    PartialSize(e.c, p, v, priv);
    var x1 := EcdheOpen(e, r.ctx, reqSid);
    OpenKeepsTranscript(e, r.ctx, reqSid);
    EcdheOpened(e, r, reqSid, t + p);
    var r1 := r.(ctx := x1.(transcript := t + p));
    SignServed(e, r1, priv, peer, p, v, t, reqSid);
    var sig := e.c.sign(r.id.value.priv, SignedHash(e.c, v, t + p), e.rnd(r1.ctx.draws, ECC_KEY_SIZE));
    AnsweredFrom(e.c, r, r1, BuildKeyExchangeRsp(e, r, req, cap), v, t, reqSid, peer, priv, p, sig);
  }

  lemma OpenKeepsTranscript(e: Env, x: Ctx, reqSid: nat)
    ensures EcdheOpen(e, x, reqSid).transcript == x.transcript
  {
  }

  /** The requester's side of a session that waits for its finish. */
  predicate Opened(x: Ctx, x': Ctx, v: byte, t: bytes, th1: bytes, k: Keys, reqSid: nat) {
    && x'.state == KeyEx && x'.ver == v && x'.transcript == t && x'.hashes.th1 == th1
    && x'.keys == k && x'.sess.sid == CombinedId(reqSid) && x'.sess.mutAuth % 2 == 0
    && x'.cfg == x.cfg && x'.binding == x.binding
  }

  lemma AgreeKeysParsed(e: Env, x: Ctx, sig: bytes, peer: bytes, v: byte, t: bytes, priv: bytes)
    requires e.c.Sizes() && x.eph.priv == Some(priv) && e.c.ecShared(priv, peer).Some?
    requires x.transcript == t && |t| + |sig| <= 900 && x.keys == NO_KEYS && x.ver == v
    ensures
      var th1 := e.c.hash(t + sig);
      var (x', rc) := AgreeKeys(e, x, sig, peer);
      && rc == Success && x'.transcript == t + sig && x'.hashes.th1 == th1
      && x'.keys == EcdheKeys(e.c, v, e.c.ecShared(priv, peer).value, th1)
      && x'.ver == v && x'.cfg == x.cfg && x'.binding == x.binding && x'.sess == x.sess
  {
    hide HandshakeKeys, Zeros;
  }

  lemma OpenSessionParsed(x: Ctx, c: Crypto, verify: bytes, mutAuth: byte)
    requires |x.transcript| + |verify| <= 1000 && verify == c.hmac(x.keys.rspFinished, x.hashes.th1) && mutAuth % 2 == 0
    ensures
      var (x', rc) := OpenSession(x, verify, RSP_SESSION_ID, mutAuth, c);
      rc == Success && Opened(x, x', x.ver, x.transcript + verify, x.hashes.th1, x.keys, x.cfg.reqSid)
  {
  }

  lemma ReplySlices(p: bytes, sig: bytes, verify: bytes)
    requires |p| == 138 && |sig| == ECC_SIG_SIZE && |verify| == HASH_SIZE
    ensures
      var buf := p + sig + verify;
      && buf[..138] == p && buf[138..234] == sig && buf[234..282] == verify
      && buf[40..136] == p[40..136] && buf[4..6] == p[4..6] && buf[136..138] == p[136..138]
      && buf[0] == p[0] && buf[1] == p[1] && buf[6] == p[6]
  {
  }

  lemma KeyExchangeParsed(e: Env, x: Ctx, r: Resp, o: Out, v: byte, t: bytes, privX: bytes, priv: bytes, p: bytes, sig: bytes)
    requires e.Valid() && e.c.Sound() && Identified(e.c, r) && x.cfg.rspPub == Some(r.id.value.pub)
    requires Answered(e.c, r, o, v, t, x.cfg.reqSid, e.c.ecPub(privX), priv, p, sig)
    requires x.transcript == t && |t| <= 660 && x.keys == NO_KEYS && x.ver == v && x.eph.priv == Some(privX)
    requires x.cfg.mode != Auto
    ensures
      var th1 := e.c.hash(t + p + sig);
      var k := EcdheKeys(e.c, v, e.c.ecShared(priv, e.c.ecPub(privX)).value, th1);
      var (x', rc) := ParseKeyExchangeRsp(e, x, o.out);
      && rc == Success && Opened(x, x', v, t + p + sig + e.c.hmac(k.rspFinished, th1), th1, k, x.cfg.reqSid)
  {
    hide AgreeKeys, OpenSession, SignedHash, EcdheKeys, FromLE;
    var th1 := e.c.hash(t + p + sig);
    var k := EcdheKeys(e.c, v, e.c.ecShared(priv, e.c.ecPub(privX)).value, th1);
    var verify := e.c.hmac(k.rspFinished, th1);
    ReplySlices(p, sig, verify);
    assert e.c.ecShared(privX, e.c.ecPub(priv)) == e.c.ecShared(priv, e.c.ecPub(privX));
    var x1 := x.(transcript := t + p);
    AgreeKeysParsed(e, x1, sig, e.c.ecPub(priv), v, t + p, privX);
    var x2 := AgreeKeys(e, x1, sig, e.c.ecPub(priv)).0;
    OpenSessionParsed(x2, e.c, verify, 0);
  }

  lemma OpaqueSize(mode: Mode)
    ensures |Opaque(mode)| <= 22
  {
  }

  lemma RequestFields(v: byte, mode: Mode, reqSid: nat, random: bytes, pub: bytes)
    requires |random| == RANDOM_SIZE && |pub| == ECC_POINT_SIZE && reqSid < 0x1_0000
    ensures
      var req := KeyExchangeRequest(v, mode, reqSid, random, pub);
      && 136 <= |req| <= 158 && req[0] == v && req[1] == KEY_EXCHANGE && Get16(req, 4) == reqSid && req[40..136] == pub
  {
    hide LE, GetLE, Opaque;
    Pow256Values();
    OpaqueSize(mode);
    var head := [v, KEY_EXCHANGE, 0, 0xFF];
    var start := head + LE(reqSid, 2) + [0, 0] + random;
    var req := KeyExchangeRequest(v, mode, reqSid, random, pub);
    assert req == start + pub + Opaque(mode);
    assert req == head + LE(reqSid, 2) + ([0, 0] + random + pub + Opaque(mode));
    FieldReadBack(head, reqSid, 2, [0, 0] + random + pub + Opaque(mode));
    assert req[|start|..|start| + |pub|] == pub;
  }

  /** Both sides are in the handshake phase of one session: same bytes, hash, keys and id. */
  predicate Negotiated(w: World, v: byte, t: bytes, th1: bytes, k: Keys, asym: bool) {
    && w.x.state == KeyEx && w.r.ctx.state == KeyEx && w.x.ver == v && w.r.ctx.ver == v && (v == 0x12 || v == 0x13)
    && w.x.transcript == t && w.r.ctx.transcript == t && |t| <= 1000
    && w.x.hashes.th1 == th1 && w.r.ctx.hashes.th1 == th1
    && w.x.keys == k && w.r.ctx.keys == k && k.req.num == 0 && k.rsp.num == 0
    && w.x.sess.sid == CombinedId(w.x.cfg.reqSid) && w.r.ctx.sess.sid == w.x.sess.sid
    && w.x.sess.mutAuth % 2 == 0 && w.r.flags.pendingAsym == asym
  }

  /** TH1 is over everything up to ResponderVerifyData, and the keys come from it. */
  predicate Th1Over(c: Crypto, t: bytes, th1: bytes) {
    |t| >= HASH_SIZE && th1 == c.hash(t[..|t| - HASH_SIZE])
  }

  lemma Th1Of(c: Crypto, m: bytes, verify: bytes)
    requires |verify| == HASH_SIZE
    ensures Th1Over(c, m + verify, c.hash(m))
  {
    assert (m + verify)[..|m|] == m;
  }

  lemma FreshNums(c: Crypto, v: byte, hs: bytes, th1: bytes)
    ensures HandshakeKeys(c, v, hs, th1, NO_KEYS).req.num == 0 && HandshakeKeys(c, v, hs, th1, NO_KEYS).rsp.num == 0
  {
  }

  /** Once both sides have opened the session over the same bytes, it is one session. */
  lemma OpenedAlike(c: Crypto, x: Ctx, x': Ctx, r: Resp, r': Resp, v: byte, m: bytes, verify: bytes, hs: bytes, reqSid: nat, asym: bool)
    requires |verify| == HASH_SIZE && |m| + HASH_SIZE <= 1000 && (v == 0x12 || v == 0x13) && x.cfg.reqSid == reqSid
    requires
      var k := HandshakeKeys(c, v, hs, c.hash(m), NO_KEYS);
      Opened(x, x', v, m + verify, c.hash(m), k, reqSid) && Waiting(r, r', v, m + verify, c.hash(m), k, reqSid, asym)
    ensures
      var w' := World(x', r');
      && Negotiated(w', v, x'.transcript, x'.hashes.th1, x'.keys, asym) && Th1Over(c, x'.transcript, x'.hashes.th1)
      && x'.cfg == x.cfg && x'.binding == x.binding && r'.ctx.cfg.mode == r.ctx.cfg.mode
      && r'.flags.useTcg == r.flags.useTcg && r'.flags.usePsk == r.flags.usePsk
  {
    hide HandshakeKeys;
    FreshNums(c, v, hs, c.hash(m));
    Th1Of(c, m, verify);
  }

  lemma KeyExchangeDispatched(re: RespEnv, w: World, v: byte, t: bytes, req: bytes, peer: bytes)
    requires re.e.Valid() && re.e.c.Sound() && w.Valid() && w.r.flags.useTcg && Identified(re.e.c, w.r)
    requires w.r.ctx.ver == v && w.r.ctx.transcript == t && |t| <= 500 && w.r.ctx.state == Version && w.r.ctx.keys == NO_KEYS
    requires 136 <= |req| <= 158 && req[0] == v != 0 && req[1] == KEY_EXCHANGE && req[40..136] == peer
    requires exists a :: peer == re.e.c.ecPub(a)
    ensures exists priv, p, sig ::
      Answered(re.e.c, Bound(w), DispatchClear(re, Bound(w), req, RECORD_BUF), v, t + req, Get16(req, 4), peer, priv, p, sig)
  {
    hide BuildKeyExchangeRsp, SignedHash, EcdheKeys, GetLE, Partial;
    var r1 := Bound(w).(ctx := Bound(w).ctx.(transcript := t + req));
    assert AddTo(Bound(w), req) == (r1, Success);
    KeyExchangeServed(re.e, r1, req, RECORD_BUF, v, t + req, Get16(req, 4), peer);
    var priv := re.e.rnd(r1.ctx.draws + 1, ECC_KEY_SIZE);
    var p, sig :| Answered(re.e.c, r1, BuildKeyExchangeRsp(re.e, r1, req, RECORD_BUF), v, t + req, Get16(req, 4), peer, priv, p, sig);
    assert DispatchClear(re, Bound(w), req, RECORD_BUF) == BuildKeyExchangeRsp(re.e, r1, req, RECORD_BUF);
    assert Answered(re.e.c, Bound(w), DispatchClear(re, Bound(w), req, RECORD_BUF), v, t + req, Get16(req, 4), peer, priv, p, sig);
  }

  /** The size of an answer, and what it leaves alone. */
  lemma AnswerSize(c: Crypto, r: Resp, o: Out, v: byte, t: bytes, reqSid: nat, peer: bytes, priv: bytes, p: bytes, sig: bytes)
    requires c.Sizes() && r.id.Some? && Answered(c, r, o, v, t, reqSid, peer, priv, p, sig)
    ensures |p| == 138 && o.rc == Success && |o.out| == 282 && o.r.ctx.binding == r.ctx.binding
  {
    hide EcdheKeys, SignedHash, Partial;
    PartialSize(c, p, v, priv);
  }

  /** The requester's world once KEY_EXCHANGE is in its transcript. */
  function Asking(e: Env, w: World): World {
    var (x1, req) := BuildKeyExchange(e, w.x);
    w.(x := x1.(transcript := w.x.transcript + req))
  }

  /** The responder's part, and its way back. */
  lemma KeyExchangeSent(e: Env, re: RespEnv, w: World, v: byte, t: bytes)
    requires e.Valid() && re.e.Valid() && e.c == re.e.c && e.c.Sound() && w.Valid()
    requires w.r.flags.useTcg && Identified(e.c, w.r) && w.x.cfg.mode != Auto && Ready(w, v, t)
    ensures Asking(e, w).Valid()
    ensures
      var privX := e.rnd(w.x.draws + 1, ECC_KEY_SIZE);
      var req := BuildKeyExchange(e, w.x).1;
      var o := DispatchClear(re, Bound(w), req, RECORD_BUF);
      && |req| <= 158 && SendReceive(Ours(re), Asking(e, w), req, KEY_EX_RX) == (World(Asking(e, w).x, o.r), Ok(o.out))
      && exists priv, p, sig :: |p| == 138 && Answered(e.c, Bound(w), o, v, t + req, w.x.cfg.reqSid, e.c.ecPub(privX), priv, p, sig)
  {
    hide DispatchClear, DispatchSecured, SendReceive, KeyExchangeRequest, Answered, GetLE, e.c.Sound;
    var privX := e.rnd(w.x.draws + 1, ECC_KEY_SIZE);
    var req := BuildKeyExchange(e, w.x).1;
    RequestFields(v, w.x.cfg.mode, w.x.cfg.reqSid, e.rnd(w.x.draws, RANDOM_SIZE), e.c.ecPub(privX));
    assert Bound(Asking(e, w)) == Bound(w);
    KeyExchangeDispatched(re, w, v, t, req, e.c.ecPub(privX));
    var o := DispatchClear(re, Bound(w), req, RECORD_BUF);
    var priv, p, sig :| Answered(e.c, Bound(w), o, v, t + req, w.x.cfg.reqSid, e.c.ecPub(privX), priv, p, sig);
    AnswerSize(e.c, Bound(w), o, v, t + req, w.x.cfg.reqSid, e.c.ecPub(privX), priv, p, sig);
    Transparent(re, Asking(e, w), req, KEY_EX_RX);
  }

  lemma KeyExchangeAgreed(e: Env, re: RespEnv, w: World, v: byte, t: bytes)
    requires e.Valid() && re.e.Valid() && e.c == re.e.c && e.c.Sound() && w.Valid()
    requires w.r.flags.useTcg && Identified(e.c, w.r) && w.x.cfg.rspPub == Some(w.r.id.value.pub) && w.x.cfg.mode != Auto
    requires Ready(w, v, t)
    ensures
      var (w', rc) := KeyExchangeStep(e, Ours(re), w);
      && rc == Success && Negotiated(w', v, w'.x.transcript, w'.x.hashes.th1, w'.x.keys, true)
      && Th1Over(e.c, w'.x.transcript, w'.x.hashes.th1)
      && w'.x.cfg == w.x.cfg && w'.r.ctx.cfg.mode == w.r.ctx.cfg.mode && w'.r.flags.useTcg
  {
    hide DispatchClear, SendReceive, SignedHash, HandshakeKeys, Partial, ParseKeyExchangeRsp, KeyExchangeRequest, Zeros, Opened, Waiting,
      Negotiated, Th1Over;
    KeyExchangeSent(e, re, w, v, t);
    var privX := e.rnd(w.x.draws + 1, ECC_KEY_SIZE);
    var req := BuildKeyExchange(e, w.x).1;
    var w2 := Asking(e, w);
    var o := DispatchClear(re, Bound(w), req, RECORD_BUF);
    var priv, p, sig :| |p| == 138 && Answered(e.c, Bound(w), o, v, t + req, w.x.cfg.reqSid, e.c.ecPub(privX), priv, p, sig);
    KeyExchangeParsed(e, w2.x, Bound(w), o, v, t + req, privX, priv, p, sig);
    var th1 := e.c.hash(t + req + p + sig);
    var shared := e.c.ecShared(priv, e.c.ecPub(privX)).value;
    OpenedAlike(e.c, w2.x, ParseKeyExchangeRsp(e, w2.x, o.out).0, Bound(w), o.r, v, t + req + p + sig,
                e.c.hmac(EcdheKeys(e.c, v, shared, th1).rspFinished, th1), e.c.extract(Zeros(HASH_SIZE), shared), w.x.cfg.reqSid, true);
  }

  // ----- Secured steps -----

  /** The session ids wolfSPDM_SetRequesterSessionId accepts. */
  predicate PermittedSid(reqSid: nat) {
    reqSid < 0x1_0000 && reqSid != 0 && reqSid != 0xFFFF && !(0x10 <= reqSid % 256 <= 0x1F)
  }

  /** A record opens with the low byte of the session id, so a permitted id never looks like a clear message. */
  lemma RecordLooksSecured(c: Crypto, f: Format, reqSid: nat, d: Dir, framed: bytes)
    requires d.Valid() && PermittedSid(reqSid)
    ensures !ClearFirst(Record(c, f, CombinedId(reqSid), d, framed)) && Record(c, f, CombinedId(reqSid), d, framed) != []
  {
    hide RecordIV;
    var sid := CombinedId(reqSid);
    var h := Header(f, sid, d.num, |framed| + TAG_SIZE);
    assert LE(sid, 4)[0] == (sid % 256) as byte;
    assert sid % 256 == reqSid % 256;
    assert h[0] == LE(sid, 4)[0];
    assert Record(c, f, sid, d, framed)[0] == h[0];
  }

  /** A message of a permitted length always seals, into a record that is little longer and opens at the other end. */
  lemma MessageSeals(e: Env, x: Ctx, d: Dir, p: bytes, cap: nat, reqSid: nat, rcap: nat)
    requires e.Valid() && e.c.Sound() && x.Valid() && d.Valid() && x.cfg.mode != Auto
    requires |p| <= MAX_MSG_SIZE && cap >= |p| + 47 && |p| <= rcap && PermittedSid(reqSid) && x.sess.sid == CombinedId(reqSid)
    ensures
      var s := SealWith(e, x, d, p, cap);
      && s.Ok? && |s.value| <= |p| + 47 && s.value != [] && !ClearFirst(s.value)
      && Open(e.c, Tcg, x.sess.sid, d, s.value).Verified?
      && Unframe(Tcg, false, Open(e.c, Tcg, x.sess.sid, d, s.value).framed, rcap) == Ok(p)
  {
    hide RecordIV, Open, Unframe, Record;
    var pad := Padding(e, Tcg, x.draws, |p|);
    SealedRecord(e.c, x.sess.sid, d, p, pad, cap);
    RecordLooksSecured(e.c, Tcg, reqSid, d, Frame(Tcg, false, p, pad));
    SealThenOpen(e.c, Tcg, false, x.sess.sid, d, p, pad, cap);
    FrameUnframe(Tcg, false, p, pad, rcap);
  }

  lemma SealedRecord(c: Crypto, sid: nat, d: Dir, p: bytes, pad: bytes, cap: nat)
    requires c.AeadCorrect() && d.Valid() && |p| <= MAX_MSG_SIZE && |pad| == PadSize(Tcg, |p|) && cap >= |p| + 47
    ensures
      var s := Seal(c, Tcg, false, sid, d, p, pad, cap);
      s == Ok(Record(c, Tcg, sid, d, Frame(Tcg, false, p, pad))) && |s.value| <= |p| + 47
  {
    hide RecordIV;
  }

  /** Both ends hold the same keys and id, in the TCG format, and a permitted session id. */
  predicate Paired(w: World, k: Keys) {
    && w.Valid() && w.x.keys == k && w.r.ctx.keys == k && w.x.cfg.mode != Auto && w.r.ctx.cfg.mode != Auto
    && PermittedSid(w.x.cfg.reqSid) && w.x.sess.sid == CombinedId(w.x.cfg.reqSid) && w.r.ctx.sess.sid == w.x.sess.sid
    && (w.r.ctx.state == KeyEx || w.r.ctx.state == Connected)
  }

  function BothNext(k: Keys): Keys {
    k.(req := k.req.Next(), rsp := k.rsp.Next())
  }

  /** The responder once it has opened the requester's record. */
  function Heard(w: World): Resp {
    Bound(w).(ctx := Bound(w).ctx.(keys := w.r.ctx.keys.(req := w.r.ctx.keys.req.Next())))
  }

  /** The responder's handler answers msg with rsp and keeps keys and session id. */
  predicate Answers(re: RespEnv, w: World, msg: bytes, r1: Resp, rsp: bytes, derived: bool) {
    && 2 <= |msg| <= MAX_MSG_SIZE && msg[1] != END_SESSION && |rsp| <= MAX_MSG_SIZE
    && SecuredBody(re, Heard(w), msg).0.rc == Success && SecuredBody(re, Heard(w), msg).0.out == rsp
    && SecuredBody(re, Heard(w), msg).0.r == r1 && SecuredBody(re, Heard(w), msg).1 == derived
    && r1.ctx.keys == Heard(w).ctx.keys && r1.ctx.sess == w.r.ctx.sess && r1.ctx.binding == w.x.binding
    && r1.ctx.cfg.mode == w.r.ctx.cfg.mode
  }

  /** The responder's state once its reply is on the wire. */
  function Replied(re: RespEnv, r1: Resp, k: Keys, n: nat, derived: bool): Resp {
    r1.(ctx := r1.ctx.(draws := DrawsAfter(Tcg, r1.ctx.draws, n),
                       keys := if derived then AppKeys(re.e.c, r1.ctx.ver, r1.ctx.transcript, BothNext(k)) else BothNext(k)))
  }

  lemma SecuredServed(re: RespEnv, w: World, k: Keys, rec: bytes, msg: bytes, r1: Resp, rsp: bytes, derived: bool)
    requires re.e.Valid() && re.e.c.Sound() && Paired(w, k) && Answers(re, w, msg, r1, rsp, derived)
    requires Open(re.e.c, Tcg, w.x.sess.sid, k.req, rec).Verified?
    requires Unframe(Tcg, false, Open(re.e.c, Tcg, w.x.sess.sid, k.req, rec).framed, MAX_MSG_SIZE) == Ok(msg)
    ensures
      var o := DispatchSecured(re, Bound(w), rec, RECORD_BUF);
      && o.rc == Success && o.r == Replied(re, r1, k, |rsp|, derived)
      && o.out != [] && |o.out| <= |rsp| + 47 && !ClearFirst(o.out)
      && Open(re.e.c, Tcg, w.x.sess.sid, k.rsp, o.out).Verified?
      && Unframe(Tcg, false, Open(re.e.c, Tcg, w.x.sess.sid, k.rsp, o.out).framed, |rsp|) == Ok(rsp)
  {
    hide Open, Unframe, SecuredBody, Seal, AppKeys, ClearFirst;
    assert RespDecrypt(re.e, Bound(w).ctx, rec, MAX_MSG_SIZE) == (Heard(w).ctx, Ok(msg));
    SecuredBodyValid(re, Heard(w), msg);
    MessageSeals(re.e, r1.ctx, k.rsp, rsp, RECORD_BUF, w.x.cfg.reqSid, |rsp|);
  }

  /** One secured exchange: the requester gets the handler's answer, and both counters move by one at both ends. */
  lemma SecuredAgreed(e: Env, re: RespEnv, w: World, k: Keys, msg: bytes, r1: Resp, rsp: bytes, derived: bool,
                      sealCap: nat, rxCap: nat, cap: nat, refuse: bool)
    requires e.Valid() && re.e.Valid() && e.c == re.e.c && e.c.Sound() && Paired(w, k) && (w.r.flags.useTcg || w.r.flags.usePsk)
    requires Answers(re, w, msg, r1, rsp, derived)
    requires sealCap >= |msg| + 47 && rxCap >= |rsp| + 47 && cap >= |rsp|
    ensures
      SecuredStep(e, Ours(re), w, msg, sealCap, rxCap, cap, refuse)
      == (World(w.x.(keys := BothNext(k), draws := DrawsAfter(Tcg, w.x.draws, |msg|)), Replied(re, r1, k, |rsp|, derived)), Ok(rsp))
  {
    hide Open, Unframe, Seal, DispatchSecured, DispatchClear, SendReceive, SecuredBody, AppKeys, ClearFirst;
    MessageSeals(e, w.x, k.req, msg, sealCap, w.x.cfg.reqSid, MAX_MSG_SIZE);
    var rec := SealWith(e, w.x, k.req, msg, sealCap).value;
    var w1 := w.(x := w.x.(keys := k.(req := k.req.Next()), draws := DrawsAfter(Tcg, w.x.draws, |msg|)));
    assert Bound(w1) == Bound(w);
    SecuredServed(re, w, k, rec, msg, r1, rsp, derived);
    var o := DispatchSecured(re, Bound(w), rec, RECORD_BUF);
    Transparent(re, w1, rec, rxCap);
    LargerCap(Open(e.c, Tcg, w.x.sess.sid, k.rsp, o.out).framed, |rsp|, cap, rsp);
  }

  lemma LargerCap(framed: bytes, small: nat, cap: nat, p: bytes)
    requires Unframe(Tcg, false, framed, small) == Ok(p) && small <= cap
    ensures Unframe(Tcg, false, framed, cap) == Ok(p)
  {
  }

  // ----- GIVE_PUB and FINISH -----

  lemma GivePubHandled(re: RespEnv, r: Resp, req: bytes, p: bytes)
    requires |p| <= 128 && ParseVendor(req, MAX_MSG_SIZE) == Some(Vendor(GivePubCode(), p))
    ensures HandleVendor(re, r, req, MAX_MSG_SIZE, true)
         == Out(r.(ctx := r.ctx.(cfg := r.ctx.cfg.(tpmt := p))), Success, VendorReply(r.ctx.ver, GivePubCode(), []), [])
  {
    hide ParseVendor, GetPubkCode, Tpm2CmdCode, GivePubCode, SpdmOnlyCode, VendorReply;
    CodesDiffer();
  }

  /** Everything of Negotiated but the counters, which have reached n. */
  predicate Confirming(w: World, v: byte, t: bytes, th1: bytes, asym: bool) {
    && w.x.state == KeyEx && w.r.ctx.state == KeyEx && w.x.ver == v && w.r.ctx.ver == v && (v == 0x12 || v == 0x13)
    && w.x.transcript == t && w.r.ctx.transcript == t && |t| <= 1000
    && w.x.hashes.th1 == th1 && w.r.ctx.hashes.th1 == th1
    && w.x.keys.req.num <= 1 && w.x.keys.rsp.num <= 1 && Paired(w, w.x.keys)
    && w.x.sess.mutAuth % 2 == 0 && w.r.flags.pendingAsym == asym
  }

  lemma GivePubAnswered(re: RespEnv, w: World, v: byte, p: bytes)
    requires re.e.Valid() && w.r.ctx.ver == v && |p| <= 128
    ensures
      var h := Heard(w);
      Answers(re, w, VendorRequest(v, GivePubCode(), p), h.(ctx := h.ctx.(cfg := h.ctx.cfg.(tpmt := p))),
              VendorReply(v, GivePubCode(), []), false)
  {
    hide ParseVendor, GivePubCode, HandleVendor, LE;
    CodeSizes();
    var req := VendorRequest(v, GivePubCode(), p);
    VendorRoundTrip([v, VENDOR_DEFINED_REQUEST, 0, 0], GivePubCode(), p, MAX_MSG_SIZE);
    GivePubHandled(re, Heard(w), req, p);
  }

  /** What an end that is confirming may rely on. */
  lemma ConfirmingReady(w: World, v: byte, t: bytes, th1: bytes, asym: bool)
    requires Confirming(w, v, t, th1, asym)
    ensures w.Valid() && Paired(w, w.x.keys) && SecuredReady(w.x.state, w.x.sess.sid, w.x.Format()) && VendorVer(w.x) == v
    ensures |w.x.cfg.tpmt| <= 128 && w.r.ctx.ver == v
  {
  }

  /** The responder once it has stored the requester's key. */
  function Given(w: World): Resp {
    Heard(w).(ctx := Heard(w).ctx.(cfg := Heard(w).ctx.cfg.(tpmt := w.x.cfg.tpmt)))
  }

  /** One more exchange under the handshake keys changes nothing but counters, randomness and the stored key. */
  lemma StillConfirming(re: RespEnv, w: World, v: byte, t: bytes, th1: bytes, draws: nat, n: nat)
    requires Confirming(w, v, t, th1, true) && w.x.keys.req.num == 0 && w.x.keys.rsp.num == 0
    ensures
      var w' := World(w.x.(keys := BothNext(w.x.keys), draws := draws), Replied(re, Given(w), w.x.keys, n, false));
      Confirming(w', v, t, th1, true) && w'.r.flags == w.r.flags
  {
    hide AppKeys, DrawsAfter;
  }

  lemma GivePubAgreed(e: Env, re: RespEnv, w: World, v: byte, t: bytes, th1: bytes)
    requires e.Valid() && re.e.Valid() && e.c == re.e.c && e.c.Sound() && w.Valid() && (w.r.flags.useTcg || w.r.flags.usePsk)
    requires Confirming(w, v, t, th1, true) && w.x.keys.req.num == 0 && w.x.keys.rsp.num == 0
    ensures
      var (w', rc) := GivePubStep(e, Ours(re), w);
      && rc == Success && Confirming(w', v, t, th1, true) && w'.x.cfg == w.x.cfg && w'.r.flags == w.r.flags
  {
    hide Answers, GivePubCode, SecuredStep, VendorRequest, LE, AppKeys, Confirming, Paired, SecuredReady, Replied, Given, e.Valid, e.c.Sound;
    var p := w.x.cfg.tpmt;
    var req, rsp := VendorRequest(v, GivePubCode(), p), VendorReply(v, GivePubCode(), []);
    ConfirmingReady(w, v, t, th1, true);
    GivenAnswers(re, w, v);
    GivePubSize(v, p);
    SecuredAgreed(e, re, w, w.x.keys, req, Given(w), rsp, false, RECORD_BUF, RECORD_BUF, VENDOR_BUF, false);
    StillConfirming(re, w, v, t, th1, DrawsAfter(Tcg, w.x.draws, |req|), |rsp|);
  }

  lemma GivenAnswers(re: RespEnv, w: World, v: byte)
    requires re.e.Valid() && w.r.ctx.ver == v && |w.x.cfg.tpmt| <= 128
    ensures Answers(re, w, VendorRequest(v, GivePubCode(), w.x.cfg.tpmt), Given(w), VendorReply(v, GivePubCode(), []), false)
  {
    hide Answers, VendorRequest;
    GivePubAnswered(re, w, v, w.x.cfg.tpmt);
  }

  lemma GivePubSize(v: byte, p: bytes)
    requires |p| <= 128
    ensures |VendorRequest(v, GivePubCode(), p)| <= 145 && |VendorReply(v, GivePubCode(), [])| <= 17
  {
  }

  /** The finish header, its HMAC and the response: the last three entries of the transcript. */
  function FinishHead(v: byte, asym: bool): bytes {
    [v, if asym then FINISH else PSK_FINISH, 0, 0]
  }

  function FinishReply(v: byte, asym: bool): bytes {
    [v, if asym then FINISH_RSP else PSK_FINISH_RSP, 0, 0]
  }

  /** The responder's state after it has accepted the finish. */
  function Accepted(c: Crypto, r: Resp, v: byte, t: bytes, mac: bytes, asym: bool): Resp {
    r.(ctx := r.ctx.(transcript := t + FinishHead(v, asym) + mac + FinishReply(v, asym), state := Connected,
                     hashes := r.ctx.hashes.(th2 := c.hash(t + FinishHead(v, asym)))),
       flags := r.flags.(sessionAsym := asym))
  }

  lemma FinishHandled(e: Env, r: Resp, v: byte, t: bytes, asym: bool)
    requires e.Valid() && r.ctx.transcript == t && |t| <= 1000 && r.ctx.ver == v
    ensures
      var mac := e.c.hmac(r.ctx.keys.reqFinished, e.c.hash(t + FinishHead(v, asym)));
      var o := HandleFinish(e, r, asym, FinishHead(v, asym) + mac, MAX_MSG_SIZE);
      o.rc == Success && o.out == FinishReply(v, asym) && o.r == Accepted(e.c, r, v, t, mac, asym)
  {
    var mac := e.c.hmac(r.ctx.keys.reqFinished, e.c.hash(t + FinishHead(v, asym)));
    var req := FinishHead(v, asym) + mac;
    assert req[..4] == FinishHead(v, asym) && req[4..4 + HASH_SIZE] == mac;
  }

  /** What the requester sends, and its context once it has. */
  lemma FinishBuilt(e: Env, x: Ctx, v: byte, t: bytes, asym: bool)
    requires e.Valid() && x.transcript == t && |t| <= 1000 && x.ver == v && v < 0x14 && x.sess.mutAuth % 2 == 0
    ensures
      var th2 := e.c.hash(t + FinishHead(v, asym));
      var mac := e.c.hmac(x.keys.reqFinished, th2);
      (if asym then BuildFinish(e, x) else BuildPskFinish(e, x))
      == (x.(transcript := t + FinishHead(v, asym) + mac, hashes := x.hashes.(th2 := th2)), Ok(FinishHead(v, asym) + mac))
  {
    hide SignedMessage;
    if asym {
      assert FinishHeader(x) == FinishHead(v, true);
      assert FinishHead(v, true) + [] == FinishHead(v, true);
    }
  }

  lemma FinishParsed(x: Ctx, v: byte, t: bytes, asym: bool)
    requires x.transcript == t && |t| <= 1100 && x.ver == v && v < 0x14
    ensures (if asym then ParseFinishRsp(x, FinishReply(v, asym)) else ParsePskFinishRsp(x, FinishReply(v, asym)))
         == (x.(transcript := t + FinishReply(v, asym), state := Finish), Success)
  {
    assert FinishReply(v, asym)[..4] == FinishReply(v, asym);
  }

  /** One established session, seen alike from both ends. */
  predicate Established(c: Crypto, w: World, v: byte, asym: bool) {
    var t := w.x.transcript;
    && w.r.ctx.state == Connected && w.x.ver == v && w.r.ctx.ver == v
    && w.r.ctx.transcript == t && |t| >= 104
    && w.x.hashes.th1 == c.hash(t[..|t| - 104]) && w.r.ctx.hashes.th1 == w.x.hashes.th1
    && w.x.hashes.th2 == c.hash(t[..|t| - 52]) && w.r.ctx.hashes.th2 == w.x.hashes.th2
    && w.x.keys == w.r.ctx.keys == AppKeys(c, v, t, w.x.keys)
    && w.x.keys.req.num == 0 && w.x.keys.rsp.num == 0
    && w.x.sess.sid == w.r.ctx.sess.sid == CombinedId(w.x.cfg.reqSid)
    && w.r.flags.sessionAsym == asym
    && w.x.cfg.mode != Auto && w.r.ctx.cfg.mode != Auto && (w.r.flags.useTcg || w.r.flags.usePsk)
  }

  lemma AppKeysStable(c: Crypto, v: byte, t: bytes, k: Keys)
    ensures
      var a := AppKeys(c, v, t, k);
      a == AppKeys(c, v, t, a) && a == AppKeys(c, v, t, BothNext(k)) && a.req.num == 0 && a.rsp.num == 0
  {
    hide MasterSecret, ExpandLabel, TrafficKey, TrafficIv;
  }

  lemma TailHashes(c: Crypto, t: bytes, head: bytes, mac: bytes, reply: bytes, th1: bytes)
    requires |head| == 4 && |mac| == HASH_SIZE && |reply| == 4 && Th1Over(c, t, th1)
    ensures
      var t' := t + head + mac + reply;
      |t'| >= 104 && th1 == c.hash(t'[..|t'| - 104]) && c.hash(t + head) == c.hash(t'[..|t'| - 52])
  {
    var t' := t + head + mac + reply;
    assert t'[..|t'| - 104] == t[..|t| - HASH_SIZE];
    assert t'[..|t'| - 52] == t + head;
  }

  /** The finish's exchange, as both ends see it. */
  lemma FinishAnswered(re: RespEnv, w: World, v: byte, t: bytes, th1: bytes, asym: bool, mac: bytes)
    requires re.e.Valid() && Confirming(w, v, t, th1, asym)
    requires mac == re.e.c.hmac(w.x.keys.reqFinished, re.e.c.hash(t + FinishHead(v, asym)))
    ensures Answers(re, w, FinishHead(v, asym) + mac, Accepted(re.e.c, Heard(w), v, t, mac, asym), FinishReply(v, asym), true)
  {
    hide HandleFinish;
    FinishHandled(re.e, Heard(w), v, t, asym);
  }

  /** The requester's HMAC over the transcript up to the finish header. */
  function FinishMac(c: Crypto, k: Keys, v: byte, t: bytes, asym: bool): bytes {
    c.hmac(k.reqFinished, c.hash(t + FinishHead(v, asym)))
  }

  /** The world when the requester has built its finish. */
  function Finishing(c: Crypto, w: World, v: byte, t: bytes, asym: bool): World {
    w.(x := w.x.(transcript := t + FinishHead(v, asym) + FinishMac(c, w.x.keys, v, t, asym),
                 hashes := w.x.hashes.(th2 := c.hash(t + FinishHead(v, asym)))))
  }

  /** The finish and its response cross under the handshake keys. */
  lemma FinishExchanged(e: Env, re: RespEnv, w: World, v: byte, t: bytes, th1: bytes, asym: bool, sealCap: nat, rxCap: nat, cap: nat)
    requires e.Valid() && re.e.Valid() && e.c == re.e.c && e.c.Sound() && (w.r.flags.useTcg || w.r.flags.usePsk)
    requires Confirming(w, v, t, th1, asym) && sealCap >= 256 && rxCap >= 256 && cap >= 64
    ensures Finishing(e.c, w, v, t, asym).Valid()
    ensures
      var msg := FinishHead(v, asym) + FinishMac(e.c, w.x.keys, v, t, asym);
      var w1 := Finishing(e.c, w, v, t, asym);
      SecuredStep(e, Ours(re), w1, msg, sealCap, rxCap, cap, asym)
      == (World(w1.x.(keys := BothNext(w.x.keys), draws := DrawsAfter(Tcg, w.x.draws, |msg|)),
                Replied(re, Accepted(e.c, Heard(w), v, t, FinishMac(e.c, w.x.keys, v, t, asym), asym), w.x.keys, 4, true)),
          Ok(FinishReply(v, asym)))
  {
    hide SecuredStep, AppKeys, FinishHead, FinishReply, Replied, Accepted, SecuredBody;
    var mac := FinishMac(e.c, w.x.keys, v, t, asym);
    var msg := FinishHead(v, asym) + mac;
    var w1 := Finishing(e.c, w, v, t, asym);
    HeadSizes(v, asym);
    FinishAnswered(re, w, v, t, th1, asym, mac);
    var r1 := Accepted(e.c, Heard(w), v, t, mac, asym);
    assert Heard(w1) == Heard(w);
    assert Answers(re, w1, msg, r1, FinishReply(v, asym), true);
    SecuredAgreed(e, re, w1, w.x.keys, msg, r1, FinishReply(v, asym), true, sealCap, rxCap, cap, asym);
  }

  /** What both ends hold when the response has been parsed and application keys derived is one session. */
  lemma FinishEstablishes(e: Env, re: RespEnv, w: World, v: byte, t: bytes, th1: bytes, asym: bool, draws: nat)
    requires e.c == re.e.c && e.c.Sizes() && Confirming(w, v, t, th1, asym) && Th1Over(e.c, t, th1)
    requires w.r.flags.useTcg || w.r.flags.usePsk
    ensures
      var mac := FinishMac(e.c, w.x.keys, v, t, asym);
      var t' := t + FinishHead(v, asym) + mac + FinishReply(v, asym);
      var x := Finishing(e.c, w, v, t, asym).x.(keys := BothNext(w.x.keys), draws := draws, transcript := t', state := State.Finish);
      var w' := World(x.(keys := AppKeys(e.c, v, t', x.keys)), Replied(re, Accepted(e.c, Heard(w), v, t, mac, asym), w.x.keys, 4, true));
      Established(e.c, w', v, asym)
  {
    hide AppKeys, FinishHead, FinishReply;
    HeadSizes(v, asym);
    var mac := FinishMac(e.c, w.x.keys, v, t, asym);
    TailHashes(e.c, t, FinishHead(v, asym), mac, FinishReply(v, asym), th1);
    AppKeysStable(e.c, v, t + FinishHead(v, asym) + mac + FinishReply(v, asym), BothNext(w.x.keys));
  }

  lemma FinishAgreed(e: Env, re: RespEnv, w: World, v: byte, t: bytes, th1: bytes, asym: bool)
    requires e.Valid() && re.e.Valid() && e.c == re.e.c && e.c.Sound() && w.Valid() && (w.r.flags.useTcg || w.r.flags.usePsk)
    requires Confirming(w, v, t, th1, asym) && Th1Over(e.c, t, th1)
    ensures
      var (w', rc) := if asym then FinishStep(e, Ours(re), w) else PskFinishStep(e, Ours(re), w);
      rc == Success && Established(e.c, w', v, asym) && w'.x.cfg == w.x.cfg
  {
    hide SecuredStep, AppKeys, BuildFinish, BuildPskFinish, ParseFinishRsp, ParsePskFinishRsp, FinishHead, FinishReply, Replied, Accepted,
      Established, Heard;
    HeadSizes(v, asym);
    FinishBuilt(e, w.x, v, t, asym);
    FinishExchanged(e, re, w, v, t, th1, asym, if asym then VENDOR_BUF else RECORD_BUF,
                    if asym then FINISH_RSP_LIMIT + 128 else RECORD_BUF, if asym then FINISH_RSP_LIMIT else 64);
    var msg := FinishHead(v, asym) + FinishMac(e.c, w.x.keys, v, t, asym);
    var draws := DrawsAfter(Tcg, w.x.draws, |msg|);
    var x := Finishing(e.c, w, v, t, asym).x.(keys := BothNext(w.x.keys), draws := draws);
    FinishParsed(x, v, t + FinishHead(v, asym) + FinishMac(e.c, w.x.keys, v, t, asym), asym);
    FinishEstablishes(e, re, w, v, t, th1, asym, draws);
  }

  lemma HeadSizes(v: byte, asym: bool)
    ensures |FinishHead(v, asym)| == 4 && |FinishReply(v, asym)| == 4
  {
  }

  // ----- The TCG handshake -----

  /** The two ends share one provisioned identity and the limits of the configuration calls are respected. */
  predicate Configured(c: Crypto, w: World) {
    && w.r.flags.useTcg && w.r.ctx.cfg.mode != Auto
    && Identified(c, w.r) && w.x.cfg.rspPub == Some(w.r.id.value.pub)
    && (w.x.cfg.mode == TcgBinding || w.x.cfg.mode == Nuvoton || w.x.cfg.mode == Nations)
    && PermittedSid(w.x.cfg.reqSid) && PermittedCap(w.x.cfg.maxVersion)
  }

  ghost predicate Both(e: Env, re: RespEnv) {
    e.Valid() && re.e.Valid() && e.c == re.e.c && e.c.Sound()
  }

  lemma AuthenticateAgreed(e: Env, re: RespEnv, w: World, v: byte, t: bytes)
    requires Both(e, re) && w.Valid() && Configured(e.c, w) && Greeting(w, v, t)
    ensures
      var (w', rc) := Authenticate(e, Ours(re), w);
      && rc == Success && Negotiated(w', v, w'.x.transcript, w'.x.hashes.th1, w'.x.keys, true)
      && Th1Over(e.c, w'.x.transcript, w'.x.hashes.th1)
      && w'.x.cfg == w.x.cfg && w'.r.ctx.cfg.mode == w.r.ctx.cfg.mode && w'.r.flags.useTcg
  {
    hide PubKeyStep, KeyExchangeStep;
    PubKeyAgreed(e, re, w, v, t);
    var w1 := PubKeyStep(e, Ours(re), w).0;
    KeyExchangeAgreed(e, re, w1, v, t + re.e.c.hash(w.r.id.value.pub));
  }

  lemma CompleteAgreed(e: Env, re: RespEnv, w: World, v: byte, t: bytes, th1: bytes)
    requires Both(e, re) && w.Valid() && w.r.flags.useTcg && Th1Over(e.c, t, th1)
    requires Confirming(w, v, t, th1, true) && w.x.keys.req.num == 0 && w.x.keys.rsp.num == 0
    ensures var (w', rc) := Complete(e, Ours(re), w);
      rc == Success && Established(e.c, w', v, true) && w'.x.cfg == w.x.cfg
  {
    hide GivePubStep, FinishStep;
    if w.x.cfg.keyPair.None? || w.x.cfg.tpmt == [] {
      FinishAgreed(e, re, w, v, t, th1, true);
    } else {
      GivePubAgreed(e, re, w, v, t, th1);
      FinishAgreed(e, re, GivePubStep(e, Ours(re), w).0, v, t, th1, true);
    }
  }

  /**
   * Whatever state the responder is in, whatever both sides draw at random, whatever the version cap and the
   * permitted session id: the TCG handshake succeeds and both ends hold the same session.
   */
  lemma TcgHandshakeAgrees(e: Env, re: RespEnv, w: World)
    requires Both(e, re) && w.Valid() && Configured(e.c, w)
    ensures
      var (w', rc) := Connect(e, Ours(re), w);
      rc == Success && w'.x.state == Connected && Established(e.c, w', Common(w.x), true) && w'.x.cfg == w.x.cfg
  {
    hide Negotiate, Authenticate, Complete, AppKeys;
    var w0 := Started(w.(x := ResetSession(w.x)));
    NegotiateAgreed(re, w0);
    var w1 := Negotiate(Ours(re), w0).0;
    AuthenticateAgreed(e, re, w1, Common(w.x), w1.x.transcript);
    var w2 := Authenticate(e, Ours(re), w1).0;
    assert Paired(w2, w2.x.keys);
    CompleteAgreed(e, re, w2, Common(w.x), w2.x.transcript, w2.x.hashes.th1);
  }

  // ----- The PSK handshake -----

  function PskKeys(c: Crypto, v: byte, psk: bytes, th1: bytes): Keys {
    HandshakeKeys(c, v, c.extract(Fill(0xFF, HASH_SIZE), psk), th1, NO_KEYS)
  }

  lemma PskRequestFields(v: byte, reqSid: nat, hint: bytes, random: bytes)
    requires |random| == RANDOM_SIZE && reqSid < 0x1_0000 && |hint| <= 32
    ensures
      var req := PskExchangeRequest(v, reqSid, hint, random);
      && |req| == 44 + |hint| && req[0] == v && req[1] == PSK_EXCHANGE && Get16(req, 4) == reqSid
      && Get16(req, 6) == |hint| && Get16(req, 8) == RANDOM_SIZE && Get16(req, 10) == 0
  {
    hide LE, GetLE;
    Pow256Values();
    var req := PskExchangeRequest(v, reqSid, hint, random);
    var head := [v, PSK_EXCHANGE, 0, 0];
    var a, b, c, d := LE(reqSid, 2), LE(|hint|, 2), LE(RANDOM_SIZE, 2), LE(0, 2);
    assert req == head + a + (b + c + d + hint + random);
    FieldReadBack(head, reqSid, 2, b + c + d + hint + random);
    assert req == (head + a) + b + (c + d + hint + random);
    FieldReadBack(head + a, |hint|, 2, c + d + hint + random);
    assert req == (head + a + b) + c + (d + hint + random);
    FieldReadBack(head + a + b, RANDOM_SIZE, 2, d + hint + random);
    assert req == (head + a + b + c) + d + (hint + random);
    FieldReadBack(head + a + b + c, 0, 2, hint + random);
  }

  lemma PskPartialFields(v: byte, random: bytes)
    requires |random| == RANDOM_SIZE
    ensures
      var p := PskPartial(v, random);
      && |p| == 44 && p[0] == v && p[1] == PSK_EXCHANGE_RSP && Get16(p, 4) == RSP_SESSION_ID && Get16(p, 8) == 32 && Get16(p, 10) == 0
  {
    hide GetLE;
    SmallLE();
    var p := PskPartial(v, random);
    TwoBytes(p, 4);
    TwoBytes(p, 8);
    TwoBytes(p, 10);
  }

  lemma PskServed(e: Env, r: Resp, req: bytes, cap: nat, v: byte, t: bytes, reqSid: nat)
    requires e.Valid() && cap >= 100 && r.pskStore != [] && |req| >= 44
    requires Get16(req, 4) == reqSid && 12 + Get16(req, 6) + Get16(req, 8) + Get16(req, 10) <= |req|
    requires r.ctx.transcript == t && |t| <= 600 && r.ctx.keys == NO_KEYS && r.ctx.ver == v
    ensures
      var p := PskPartial(v, e.rnd(r.ctx.draws, RANDOM_SIZE));
      var th1 := e.c.hash(t + p);
      var k := PskKeys(e.c, v, r.pskStore, th1);
      var verify := e.c.hmac(k.rspFinished, th1);
      var o := BuildPskExchangeRsp(e, r, req, cap);
      o.rc == Success && o.out == p + verify && Waiting(r, o.r, v, t + p + verify, th1, k, reqSid, false)
  {
    hide HandshakeKeys, ExchangeTail, Fill, GetLE, PskPartial;
    var p := PskPartial(v, e.rnd(r.ctx.draws, RANDOM_SIZE));
    PskPartialFields(v, e.rnd(r.ctx.draws, RANDOM_SIZE));
    var r1 := r.(ctx := PskOpen(r, reqSid).(transcript := t + p));
    TailServed(e, r1.(ctx := PskHandshake(e, r1.ctx)), p, false);
  }

  lemma PskParsed(e: Env, x: Ctx, v: byte, t: bytes, random: bytes, psk: bytes)
    requires e.Valid() && |random| == RANDOM_SIZE && psk != []
    requires x.transcript == t && |t| <= 600 && x.keys == NO_KEYS && x.ver == v && x.psk == psk && x.sess.mutAuth % 2 == 0
    ensures
      var p := PskPartial(v, random);
      var th1 := e.c.hash(t + p);
      var k := PskKeys(e.c, v, psk, th1);
      var verify := e.c.hmac(k.rspFinished, th1);
      var (x', rc) := ParsePskExchangeRsp(e, x, p + verify);
      rc == Success && Opened(x, x', v, t + p + verify, th1, k, x.cfg.reqSid)
  {
    hide HandshakeKeys, OpenSession, Fill, FromLE, PskPartial;
    var p := PskPartial(v, random);
    PskPartialFields(v, random);
    var th1 := e.c.hash(t + p);
    var verify := e.c.hmac(PskKeys(e.c, v, psk, th1).rspFinished, th1);
    var buf := p + verify;
    assert buf[4..6] == p[4..6] && buf[8..10] == p[8..10] && buf[10..12] == p[10..12];
    assert buf[..44] == p && buf[44..92] == verify;
    var x2 := x.(transcript := t + p, hashes := x.hashes.(th1 := th1));
    OpenSessionParsed(PskHandshake(e, x2), e.c, verify, x.sess.mutAuth);
  }

  /** The responder's store is the requester's key; hints need not agree. */
  predicate Shared(w: World) {
    && w.r.flags.usePsk && w.r.ctx.cfg.mode != Auto && w.x.cfg.mode == NationsPsk
    && w.x.psk != [] && w.r.pskStore == w.x.psk
    && PermittedSid(w.x.cfg.reqSid) && PermittedCap(w.x.cfg.maxVersion)
  }

  lemma PskDispatched(re: RespEnv, w: World, v: byte, t: bytes, req: bytes, reqSid: nat)
    requires re.e.Valid() && w.Valid() && w.r.flags.usePsk && w.r.pskStore != [] && Greeting(w, v, t) && |t| <= 100
    requires 44 <= |req| <= 76 && req[0] == v && req[1] == PSK_EXCHANGE
    requires Get16(req, 4) == reqSid && 12 + Get16(req, 6) + Get16(req, 8) + Get16(req, 10) <= |req|
    ensures
      var p := PskPartial(v, re.e.rnd(w.r.ctx.draws, RANDOM_SIZE));
      var th1 := re.e.c.hash(t + req + p);
      var k := PskKeys(re.e.c, v, w.r.pskStore, th1);
      var verify := re.e.c.hmac(k.rspFinished, th1);
      var o := DispatchClear(re, Bound(w), req, RECORD_BUF);
      o.rc == Success && o.out == p + verify && Waiting(Bound(w), o.r, v, t + req + p + verify, th1, k, reqSid, false)
  {
    hide BuildPskExchangeRsp, HandshakeKeys, GetLE, PskPartial, Fill;
    var r0 := Bound(w).(ctx := Bound(w).ctx.(ver := v));
    var r1 := r0.(ctx := r0.ctx.(transcript := t + req));
    assert AddTo(r0, req) == (r1, Success);
    PskServed(re.e, r1, req, RECORD_BUF, v, t + req, reqSid);
    assert DispatchClear(re, Bound(w), req, RECORD_BUF) == BuildPskExchangeRsp(re.e, r1, req, RECORD_BUF);
  }

  /** The requester's world once PSK_EXCHANGE is in its transcript. */
  function PskAsking(e: Env, w: World, v: byte): World {
    w.(x := w.x.(draws := w.x.draws + 1, transcript := w.x.transcript + PskRequest(e, w, v)))
  }

  function PskRequest(e: Env, w: World, v: byte): bytes {
    PskExchangeRequest(v, w.x.cfg.reqSid, w.x.cfg.pskHint, e.rnd(w.x.draws, RANDOM_SIZE))
  }

  /** The responder's part, and its way back. */
  lemma PskExchangeSent(e: Env, re: RespEnv, w: World, v: byte, t: bytes)
    requires Both(e, re) && w.Valid() && Shared(w) && Greeting(w, v, t) && |t| <= 100
    ensures PskAsking(e, w, v).Valid() && |PskRequest(e, w, v)| <= 76
    ensures
      var req := PskRequest(e, w, v);
      var o := DispatchClear(re, Bound(w), req, RECORD_BUF);
      SendReceive(Ours(re), PskAsking(e, w, v), req, RECORD_BUF) == (World(PskAsking(e, w, v).x, o.r), Ok(o.out))
  {
    hide DispatchClear, DispatchSecured, SendReceive, PskExchangeRequest, PskPartial, GetLE, HandshakeKeys, e.c.Sound;
    var req := PskRequest(e, w, v);
    PskRequestFields(v, w.x.cfg.reqSid, w.x.cfg.pskHint, e.rnd(w.x.draws, RANDOM_SIZE));
    assert Bound(PskAsking(e, w, v)) == Bound(w);
    PskDispatched(re, w, v, t, req, w.x.cfg.reqSid);
    PskPartialFields(v, re.e.rnd(w.r.ctx.draws, RANDOM_SIZE));
    Transparent(re, PskAsking(e, w, v), req, RECORD_BUF);
  }

  lemma PskExchangeAgreed(e: Env, re: RespEnv, w: World, v: byte, t: bytes)
    requires Both(e, re) && w.Valid() && Shared(w) && Greeting(w, v, t) && |t| <= 100 && w.x.sess.mutAuth % 2 == 0
    ensures
      var (w', rc) := PskExchangeStep(e, Ours(re), w);
      && rc == Success && Negotiated(w', v, w'.x.transcript, w'.x.hashes.th1, w'.x.keys, false)
      && Th1Over(e.c, w'.x.transcript, w'.x.hashes.th1)
      && w'.x.cfg == w.x.cfg && w'.r.ctx.cfg.mode == w.r.ctx.cfg.mode && w'.r.flags.usePsk
  {
    hide DispatchClear, SendReceive, HandshakeKeys, ParsePskExchangeRsp, PskExchangeRequest, PskPartial, Fill, Opened, Waiting,
      Negotiated, Th1Over, GetLE;
    PskExchangeSent(e, re, w, v, t);
    var req, w2 := PskRequest(e, w, v), PskAsking(e, w, v);
    PskRequestFields(v, w.x.cfg.reqSid, w.x.cfg.pskHint, e.rnd(w.x.draws, RANDOM_SIZE));
    PskDispatched(re, w, v, t, req, w.x.cfg.reqSid);
    var random := re.e.rnd(w.r.ctx.draws, RANDOM_SIZE);
    PskPartialFields(v, random);
    var o := DispatchClear(re, Bound(w), req, RECORD_BUF);
    PskParsed(e, w2.x, v, t + req, random, w.x.psk);
    var th1 := e.c.hash(t + req + PskPartial(v, random));
    OpenedAlike(e.c, w2.x, ParsePskExchangeRsp(e, w2.x, o.out).0, Bound(w), o.r, v, t + req + PskPartial(v, random),
                e.c.hmac(PskKeys(e.c, v, w.x.psk, th1).rspFinished, th1), e.c.extract(Fill(0xFF, HASH_SIZE), w.x.psk), w.x.cfg.reqSid, false);
  }

  /** The same for a pre-shared key: both ends derive the same session from it, whatever their hints say. */
  lemma PskHandshakeAgrees(e: Env, re: RespEnv, w: World)
    requires Both(e, re) && w.Valid() && Shared(w)
    ensures
      var (w', rc) := Connect(e, Ours(re), w);
      rc == Success && w'.x.state == Connected && Established(e.c, w', Common(w.x), false) && w'.x.cfg == w.x.cfg
  {
    hide GetVersionStep, PskExchangeStep, PskFinishStep, AppKeys;
    var w0 := Started(w.(x := ResetSession(w.x)));
    var v := Common(w.x);
    VersionAgreed(re, w0);
    var w1 := GetVersionStep(Ours(re), w0).0;
    assert Greeting(w1, v, GREETING);
    PskExchangeAgreed(e, re, w1, v, GREETING);
    var w2 := PskExchangeStep(e, Ours(re), w1).0;
    assert Paired(w2, w2.x.keys);
    FinishAgreed(e, re, w2, v, w2.x.transcript, w2.x.hashes.th1, false);
  }

  /** The session that either handshake leaves, as a channel between the two ends. */
  function SessionOf(w: World): Channel.Pair {
    Channel.Pair(Channel.End(w.x.keys.req, w.x.keys.rsp), Channel.End(w.r.ctx.keys.req, w.r.ctx.keys.rsp))
  }

  /**
   * From any state of two ends that share an identity or a key, one Connect and then any exchanges: the ends stay in
   * step, and every message of a permitted length arrives unchanged.
   */
  lemma ConnectedEndsStayInStep(e: Env, re: RespEnv, w: World, xs: seq<Channel.Exchange>)
    requires Both(e, re) && w.Valid() && (Configured(e.c, w) || Shared(w))
    requires Channel.Padded(Tcg, xs)
    ensures
      var (w', rc) := Connect(e, Ours(re), w);
      && rc == Success && Channel.Mirrored(SessionOf(w')) && w'.x.sess.sid < 0x1_0000_0000
      && var (s, heard) := Channel.IdealRun(Tcg, SessionOf(w').requester, xs);
         Channel.TransactAll(e.c, Tcg, w'.x.sess.sid, SessionOf(w'), xs) == (Channel.Pair(s, s), heard)
  {
    hide Connect, AppKeys;
    var asym := Configured(e.c, w);
    if asym {
      TcgHandshakeAgrees(e, re, w);
    } else {
      PskHandshakeAgrees(e, re, w);
    }
    var w' := Connect(e, Ours(re), w).0;
    SessionValid(e.c, w', Common(w.x), asym);
    Channel.ExchangesStayMirrored(e.c, Tcg, w'.x.sess.sid, SessionOf(w'), xs);
  }

  lemma SessionValid(c: Crypto, w: World, v: byte, asym: bool)
    requires c.Sizes() && Established(c, w, v, asym)
    ensures Channel.Mirrored(SessionOf(w))
  {
  }
}
