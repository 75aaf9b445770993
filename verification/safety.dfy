/**
 * What every run of the responder keeps, whatever arrives on the wire: the joint invariant of its state, the
 * provisioning of its PSK, and the authentication that precedes every TPM command and lock change.
 */
module ResponderSafety {
  import opened Bytes
  import opened Codes
  import opened Crypto
  import opened Records
  import opened Context
  import opened ResponderSpec

  /** One call into the responder: a message from the wire, or a call of its configuration interface. */
  datatype Op =
    | Message(msg: bytes, cap: nat)
    | ConfigurePsk(psk: bytes, hint: bytes)
    | ConfigureIdentity(priv: bytes, pub: bytes)
    | ConfigureMode(useTcg: bool, usePsk: bool)
    | Restart

  /** The responder and everything it has done so far. */
  datatype Sys = Sys(r: Resp, trace: seq<Event>)

  // ----- The joint invariant -----

  predicate VersionInRange(ver: byte) {
    MIN_VERSION <= ver <= RESP_MAX_VERSION
  }

  predicate InSession(x: Ctx) {
    x.state == KeyEx || x.state == Connected
  }

  predicate Joint(r: Resp) {
    && (InSession(r.ctx) || r.ctx.state == Init || r.ctx.state == Version)
    && (r.ctx.ver == 0 || VersionInRange(r.ctx.ver))
    && (InSession(r.ctx) ==> r.ctx.ver != 0 && r.ctx.sess.sid != 0)
    && (!InSession(r.ctx) ==> r.ctx.keys.req.num == 0 && r.ctx.keys.rsp.num == 0)
    && (r.flags.sessionAsym ==> r.ctx.state == Connected && r.flags.pendingAsym)
    && (r.flags.pendingAsym ==> InSession(r.ctx))
    && (r.flags.provisioned <==> r.pskStore != [])
    && (r.flags.clearAuthSet ==> r.flags.provisioned)
  }

  // ----- Authentication as recorded in the trace -----

  /** What a trace proves about its last exchange: nothing, an unfinished one, or one finished by the requester. */
  datatype Auth =
    | Closed
    | Pending(start: nat, asym: bool, key: bytes)
    | Live(start: nat, done: nat, asym: bool, key: bytes)

  function Advance(a: Auth, n: nat, ev: Event): Auth {
    match ev
    case ResetEvent => Closed
    case ExchangeEvent(asym, key, _) => Pending(n, asym, key)
    case FinishEvent(_, _, _, _) => if a.Pending? then Live(a.start, n, a.asym, a.key) else a
    case _ => a
  }

  function Scan(t: seq<Event>): Auth {
    if t == [] then Closed else Advance(Scan(t[..|t| - 1]), |t| - 1, t[|t| - 1])
  }

  /** What a trace says of the response direction: the keys in force after its first start events, the records sealed since. */
  datatype Seals = Seals(start: nat, how: Option<Derivation>, count: nat)

  function Follow(s: Seals, n: nat, ev: Event): Seals {
    match ev
    case ResetEvent => Seals(n + 1, None, 0)
    case ExchangeEvent(_, _, how) => Seals(n + 1, Some(how), 0)
    case KeysEvent(how) => Seals(n + 1, Some(how), 0)
    case SealedEvent(_) => s.(count := s.count + 1)
    case _ => s
  }

  function Since(t: seq<Event>): Seals {
    if t == [] then Seals(0, None, 0) else Follow(Since(t[..|t| - 1]), |t| - 1, t[|t| - 1])
  }

  /** d is the response direction that the trace explains: its keys, and the number after the records sealed so far. */
  predicate Explains(c: Crypto, s: Seals, d: Dir) {
    s.how.Some? && d == Generated(c, s.how.value, s.count % TWO64)
  }

  /** ev may follow trace t. */
  predicate Allowed(c: Crypto, t: seq<Event>, ev: Event) {
    match ev
    case FinishEvent(asym, key, th2, mac) =>
      Scan(t).Pending? && asym == Scan(t).asym && key == Scan(t).key && mac == c.hmac(key, th2)
    case TpmEvent(_) => t != [] && t[|t| - 1] == OpenedEvent(true) && Scan(t).Live?
    case LockEvent(_) => t != [] && t[|t| - 1] == OpenedEvent(true) && Scan(t).Live?
    case SealedEvent(d) => Explains(c, Since(t), d)
    case _ => true
  }

  predicate Authentic(c: Crypto, t: seq<Event>) {
    t == [] || (Authentic(c, t[..|t| - 1]) && Allowed(c, t[..|t| - 1], t[|t| - 1]))
  }

  lemma Extend(c: Crypto, t: seq<Event>, ev: Event)
    requires Authentic(c, t) && Allowed(c, t, ev)
    ensures Authentic(c, t + [ev]) && Scan(t + [ev]) == Advance(Scan(t), |t|, ev)
    ensures Since(t + [ev]) == Follow(Since(t), |t|, ev)
  {
    assert (t + [ev])[..|t|] == t;
  }

  /** The responder's state is backed by what the trace proves. */
  predicate Backed(r: Resp, a: Auth) {
    && (r.ctx.state == KeyEx ==> a.Pending? && a.asym == r.flags.pendingAsym && a.key == r.ctx.keys.reqFinished)
    && (r.ctx.state == Connected ==> a.Live? && a.asym == r.flags.pendingAsym)
  }

  /** The last recorded value of the lock. */
  function LastLock(lock: bool, t: seq<Event>): bool {
    if t == [] then lock
    else if t[|t| - 1].LockEvent? then t[|t| - 1].locked
    else LastLock(lock, t[..|t| - 1])
  }

  /** How many TPM commands were run. */
  function TpmCount(t: seq<Event>): nat {
    if t == [] then 0 else TpmCount(t[..|t| - 1]) + if t[|t| - 1].TpmEvent? then 1 else 0
  }

  lemma LedgerExtend(lock: bool, t: seq<Event>, ev: Event)
    ensures LastLock(lock, t + [ev]) == if ev.LockEvent? then ev.locked else LastLock(lock, t)
    ensures TpmCount(t + [ev]) == TpmCount(t) + if ev.TpmEvent? then 1 else 0
  {
    assert (t + [ev])[..|t|] == t;
  }

  // ----- One message -----

  /** A clear frame that carries GET_VERSION, the only message that unpins the version. */
  predicate IsGetVersion(msg: bytes) {
    && |msg| >= TCG_HEADER_SIZE + 2
    && GetBE(msg, 0, 2) == TAG_CLEAR && TCG_HEADER_SIZE + 2 <= GetBE(msg, 2, 4) <= |msg|
    && msg[TCG_HEADER_SIZE + 1] == GET_VERSION
  }

  /** What a handler leaves alone: identity, mode and, except for the vendor commands, provisioning and lock. */
  predicate Keeps(r: Resp, r': Resp) {
    && r'.id == r.id && r'.flags.useTcg == r.flags.useTcg && r'.flags.usePsk == r.flags.usePsk
    && r'.flags.provisioned == r.flags.provisioned && r'.flags.clearAuthSet == r.flags.clearAuthSet
    && r'.pskStore == r.pskStore && r'.clearAuthDigest == r.clearAuthDigest && r'.hintStore == r.hintStore
    && r'.tpmCalls == r.tpmCalls
  }

  /** Nothing about the session changed: state, version, session id, finished key and response direction. */
  predicate SameSession(r: Resp, r': Resp) {
    && r'.ctx.state == r.ctx.state && r'.ctx.ver == r.ctx.ver && r'.ctx.sess.sid == r.ctx.sess.sid
    && r'.ctx.keys.reqFinished == r.ctx.keys.reqFinished && r'.ctx.keys.rsp == r.ctx.keys.rsp
    && r'.flags.sessionAsym == r.flags.sessionAsym && r'.flags.pendingAsym == r.flags.pendingAsym
  }

  predicate SameNums(r: Resp, r': Resp) {
    r'.ctx.keys.req.num == r.ctx.keys.req.num && r'.ctx.keys.rsp.num == r.ctx.keys.rsp.num
  }

  /** What a handler of the handshake leaves alone. */
  predicate Untouched(r: Resp, r': Resp) {
    && r'.Valid() && Keeps(r, r') && r'.flags.lock == r.flags.lock
    && SameNums(r, r') && r'.ctx.ver == r.ctx.ver
  }

  /** The response direction holds the handshake keys that the context's handshake secret and TH1 give. */
  predicate HandshakeKeyed(c: Crypto, x: Ctx) {
    x.keys.rsp == Generated(c, HandshakeOf(x), x.keys.rsp.num)
  }

  /** An exchange opens the session it announces, or leaves the state and the pending kind alone. */
  predicate Exchanged(c: Crypto, r: Resp, o: Out, asym: bool) {
    && Untouched(r, o.r) && o.r.flags.sessionAsym == r.flags.sessionAsym
    && if o.rc == Success then
         && o.r.ctx.state == KeyEx && o.r.flags.pendingAsym == asym && o.r.ctx.sess.sid != 0
         && o.evs == [ExchangeEvent(asym, o.r.ctx.keys.reqFinished, HandshakeOf(o.r.ctx))]
         && HandshakeKeyed(c, o.r.ctx)
       else o.evs == [] && o.r.ctx.state == r.ctx.state && o.r.flags.pendingAsym == r.flags.pendingAsym
  }

  lemma TailStep(e: Env, r: Resp, body: bytes, asym: bool)
    requires e.Valid() && r.Valid() && r.ctx.sess.sid != 0 && HandshakeKeyed(e.c, r.ctx)
    ensures Exchanged(e.c, r, ExchangeTail(e, r, body, asym), asym)
  {
    hide Generated, AddTo, e.Valid;
    Appended(r, e.c.hmac(r.ctx.keys.rspFinished, r.ctx.hashes.th1));
  }

  /** Nothing about the session has been decided yet: only its id is new. */
  predicate Opening(r: Resp, r': Resp) {
    && Untouched(r, r') && r'.flags == r.flags && r'.ctx.state == r.ctx.state && r'.ctx.sess.sid != 0
  }

  /** An exchange that goes on from an opening, or stops there, is an exchange from the start. */
  lemma ExchangedAfter(c: Crypto, r: Resp, r': Resp, o: Out, asym: bool)
    requires Opening(r, r') && (Exchanged(c, r', o, asym) || (o == Fail(r', o.rc) && o.rc != Success))
    ensures Exchanged(c, r, o, asym)
  {
    hide HandshakeKeyed;
  }

  lemma NotExchanged(c: Crypto, r: Resp, rc: Rc, asym: bool)
    requires r.Valid() && rc != Success
    ensures Exchanged(c, r, Fail(r, rc), asym)
  {
  }

  lemma PskOpenStep(r: Resp, reqSid: nat, data: bytes)
    requires r.Valid() && reqSid < 0x1_0000
    ensures Opening(r, AddTo(r.(ctx := PskOpen(r, reqSid)), data).0)
  {
  }

  lemma HandshakeIsKeyed(c: Crypto, ver: byte, hs: bytes, th1: bytes, k: Keys)
    ensures
      var k' := HandshakeKeys(c, ver, hs, th1, k);
      k'.handshake == hs && k'.rsp == Generated(c, HandshakeSecret(ver, "rsp hs data", hs, th1), k'.rsp.num)
  {
  }

  lemma PskHandshakeStep(e: Env, r: Resp, r': Resp)
    requires e.Valid() && Opening(r, r')
    ensures Opening(r, r'.(ctx := PskHandshake(e, r'.ctx))) && HandshakeKeyed(e.c, PskHandshake(e, r'.ctx))
  {
    hide HandshakeKeys, Fill;
    var x := r'.ctx;
    HandshakeIsKeyed(e.c, x.ver, e.c.extract(Fill(0xFF, HASH_SIZE), x.psk), e.c.hash(x.transcript), x.keys);
    HandshakeKeysKeep(e.c, x.ver, e.c.extract(Fill(0xFF, HASH_SIZE), x.psk), e.c.hash(x.transcript), x.keys);
  }

  lemma OpeningValid(r: Resp, r': Resp)
    requires Opening(r, r')
    ensures r'.Valid() && r'.ctx.sess.sid != 0
  {
  }

  lemma PskExchangeStep(e: Env, r: Resp, req: bytes, cap: nat)
    requires e.Valid() && r.Valid()
    ensures Exchanged(e.c, r, BuildPskExchangeRsp(e, r, req, cap), false)
  {
    hide GetLE, PskPartial, ExchangeTail, AddTo, PskOpen, PskHandshake, Exchanged, Opening, HandshakeKeyed, e.Valid;
    var o := BuildPskExchangeRsp(e, r, req, cap);
    if o == Fail(r, o.rc) && o.rc != Success {
      NotExchanged(e.c, r, o.rc, false);
    } else {
      var partial := PskPartial(r.ctx.ver, e.rnd(r.ctx.draws, RANDOM_SIZE));
      var (r1, rc) := AddTo(r.(ctx := PskOpen(r, Get16(req, 4))), partial);
      var r2 := r1.(ctx := PskHandshake(e, r1.ctx));
      PskOpenStep(r, Get16(req, 4), partial);
      OpeningValid(r, r1);
      PskHandshakeStep(e, r, r1);
      OpeningValid(r, r2);
      TailStep(e, r2, partial, false);
      ExchangedAfter(e.c, r, if rc != Success then r1 else r2, o, false);
    }
  }

  lemma EcdheTailStep(e: Env, r: Resp, priv: bytes, peer: bytes, body: bytes)
    requires e.Valid() && r.Valid() && r.ctx.sess.sid != 0
    ensures Exchanged(e.c, r, EcdheFinishRsp(e, r, priv, peer, body), true)
  {
    hide HandshakeKeys, Zeros, ExchangeTail;
    var shared := e.c.ecShared(priv, peer);
    if shared.Some? {
      HandshakeKeysKeep(e.c, r.ctx.ver, e.c.extract(Zeros(HASH_SIZE), shared.value), e.c.hash(r.ctx.transcript), r.ctx.keys);
      HandshakeIsKeyed(e.c, r.ctx.ver, e.c.extract(Zeros(HASH_SIZE), shared.value), e.c.hash(r.ctx.transcript), r.ctx.keys);
      TailStep(e, r.(ctx := EcdheHandshake(e, r.ctx, shared.value)), body, true);
    }
  }

  lemma EcdheOpenStep(e: Env, r: Resp, reqSid: nat, data: bytes)
    requires r.Valid() && reqSid < 0x1_0000
    ensures Opening(r, AddTo(r.(ctx := EcdheOpen(e, r.ctx, reqSid)), data).0)
  {
  }

  lemma SignatureStep(r: Resp, r': Resp, data: bytes)
    requires Opening(r, r')
    ensures Opening(r, AddTo(r'.(ctx := r'.ctx.(draws := r'.ctx.draws + 1)), data).0)
  {
  }

  lemma SignAndFinishStep(e: Env, r: Resp, r': Resp, idKey: bytes, priv: bytes, peer: bytes, partial: bytes)
    requires e.Valid() && Opening(r, r')
    ensures Exchanged(e.c, r, SignAndFinish(e, r', idKey, priv, peer, partial), true)
  {
    hide SignedHash, EcdheFinishRsp, AddTo;
    var sig := e.c.sign(idKey, SignedHash(e.c, r'.ctx.ver, r'.ctx.transcript), e.rnd(r'.ctx.draws, ECC_KEY_SIZE));
    SignatureStep(r, r', sig);
    EcdheTailStep(e, AddTo(r'.(ctx := r'.ctx.(draws := r'.ctx.draws + 1)), sig).0, priv, peer, partial + sig);
  }

  lemma KeyExchangeStep(e: Env, r: Resp, req: bytes, cap: nat)
    requires e.Valid() && r.Valid()
    ensures Exchanged(e.c, r, BuildKeyExchangeRsp(e, r, req, cap), true)
  {
    hide GetLE, KeyExchangePartial, SignAndFinish, AddTo, EcdheOpen;
    if |req| >= 136 && r.id.Some? {
      var priv := e.rnd(r.ctx.draws + 1, ECC_KEY_SIZE);
      var partial := KeyExchangePartial(r.ctx.ver, e.rnd(r.ctx.draws, RANDOM_SIZE), e.c.ecPub(priv));
      EcdheOpenStep(e, r, Get16(req, 4), partial);
      var r1 := AddTo(r.(ctx := EcdheOpen(e, r.ctx, Get16(req, 4))), partial).0;
      SignAndFinishStep(e, r, r1, r.id.value.priv, priv, req[40..136], partial);
    }
  }

  /** A finish connects the session and records the HMAC that it verified, or changes nothing about the session. */
  predicate Finished(c: Crypto, r: Resp, o: Out, asym: bool) {
    && Untouched(r, o.r) && o.r.ctx.sess == r.ctx.sess && o.r.ctx.keys == r.ctx.keys
    && o.r.flags.pendingAsym == r.flags.pendingAsym
    && if o.rc == Success then
         && o.r.ctx.state == Connected && o.r.flags.sessionAsym == asym
         && |o.evs| == 1 && o.evs[0].FinishEvent? && o.evs[0].asym == asym
         && o.evs[0].finishedKey == r.ctx.keys.reqFinished
         && o.evs[0].mac == c.hmac(o.evs[0].finishedKey, o.evs[0].th2)
       else o.evs == [] && SameSession(r, o.r)
  }

  /** Appending to the transcript moves nothing else. */
  lemma Appended(r: Resp, data: bytes)
    requires r.Valid()
    ensures var r1 := AddTo(r, data).0; r1.Valid() && r1 == r.(ctx := r.ctx.(transcript := r1.ctx.transcript))
  {
  }

  lemma FinishTailStep(c: Crypto, r: Resp, asym: bool, th2: bytes, mac: bytes)
    requires r.Valid() && mac == c.hmac(r.ctx.keys.reqFinished, th2)
    ensures Finished(c, r, FinishTail(r, asym, th2, mac), asym)
  {
    hide AddTo;
    Appended(r, mac);
    Appended(AddTo(r, mac).0, [r.ctx.ver, if asym then FINISH_RSP else PSK_FINISH_RSP, 0, 0]);
  }

  lemma FinishStep(e: Env, r: Resp, asym: bool, req: bytes, cap: nat)
    requires e.Valid() && r.Valid()
    ensures Finished(e.c, r, HandleFinish(e, r, asym, req, cap), asym)
  {
    hide FinishTail, AddTo, e.Valid;
    if |req| >= 4 + HASH_SIZE {
      Appended(r, req[..4]);
      var r1 := AddTo(r, req[..4]).0;
      var th2 := e.c.hash(r1.ctx.transcript);
      var r2 := r1.(ctx := r1.ctx.(hashes := r1.ctx.hashes.(th2 := th2)));
      var mac := req[4..4 + HASH_SIZE];
      if e.c.hmac(r2.ctx.keys.reqFinished, th2) == mac {
        FinishTailStep(e.c, r2, asym, th2, mac);
      }
    }
  }

  /** The store and its flags after a command: unchanged, newly set or confirmed, or emptied by the right ClearAuth. */
  predicate Provisioned(c: Crypto, r: Resp, r': Resp, code: bytes, p: bytes) {
    || (r'.pskStore == r.pskStore && r'.flags.provisioned == r.flags.provisioned
        && r'.flags.clearAuthSet == r.flags.clearAuthSet && r'.clearAuthDigest == r.clearAuthDigest)
    || (code == PskSetCode() && !r.flags.clearAuthSet && (r.pskStore == [] || r'.pskStore == r.pskStore)
        && r'.pskStore != [] && r'.flags.provisioned && r'.flags.clearAuthSet)
    || (code == PskClrCode() && r.flags.provisioned && c.hash(p) == r.clearAuthDigest
        && r'.pskStore == [] && !r'.flags.provisioned && !r'.flags.clearAuthSet)
  }

  /** A vendor command leaves the session alone; it runs a TPM command or moves the lock only when connected. */
  predicate Commanded(c: Crypto, r: Resp, f: Effect, v: Vendor, secured: bool) {
    && f.r.Valid() && f.r.id == r.id && f.r.flags.useTcg == r.flags.useTcg && f.r.flags.usePsk == r.flags.usePsk
    && SameSession(r, f.r) && SameNums(r, f.r)
    && Provisioned(c, r, f.r, v.code, v.payload)
    && |f.evs| <= 1
    && f.r.tpmCalls == r.tpmCalls + (if f.evs != [] && f.evs[0].TpmEvent? then 1 else 0)
    && (f.evs == [] ==> f.r.flags.lock == r.flags.lock)
    && (f.evs != [] ==>
          && secured && r.ctx.state == Connected && (f.evs[0].TpmEvent? || f.evs[0].LockEvent?)
          && f.r.flags.lock == if f.evs[0].LockEvent? then f.evs[0].locked else r.flags.lock)
  }

  lemma PskSetStep(c: Crypto, r: Resp, p: bytes, secured: bool)
    requires r.Valid()
    ensures Commanded(c, r, PskSet(r, p), Vendor(PskSetCode(), p), secured)
  {
    hide PskSetCode, PskClrCode;
  }

  lemma PskClearStep(e: Env, r: Resp, p: bytes, secured: bool)
    requires r.Valid()
    ensures Commanded(e.c, r, PskClear(e, r, p), Vendor(PskClrCode(), p), secured)
  {
    hide PskSetCode, PskClrCode;
  }

  lemma SilentStep(c: Crypto, r: Resp, rc: Rc, out: bytes, v: Vendor, secured: bool)
    requires r.Valid()
    ensures Commanded(c, r, Effect(r, rc, out, []), v, secured)
    ensures Commanded(c, r, GivePub(r, v.payload), v, secured)
  {
    hide PskSetCode, PskClrCode;
  }

  lemma LockStep(c: Crypto, r: Resp, v: Vendor)
    requires r.Valid() && r.ctx.state == Connected
    ensures Commanded(c, r, SetLock(r, v.payload), v, true)
  {
    hide PskSetCode, PskClrCode;
  }

  lemma TpmStep(re: RespEnv, r: Resp, v: Vendor)
    requires r.Valid() && r.ctx.state == Connected
    ensures Commanded(re.e.c, r, TpmCommand(re, r, v.payload), v, true)
  {
    hide PskSetCode, PskClrCode;
  }

  lemma VendorStep(re: RespEnv, r: Resp, v: Vendor, secured: bool)
    requires r.Valid()
    ensures Commanded(re.e.c, r, VendorEffect(re, r, v, secured), v, secured)
  {
    hide Tpm2CmdCode, GetPubkCode, GivePubCode, GetStsCode, SpdmOnlyCode, PskSetCode, PskClrCode, PskSet, PskClear, GivePub,
      SetLock, TpmCommand, Commanded;
    CodesDiffer();
    PskSetStep(re.e.c, r, v.payload, secured);
    PskClearStep(re.e, r, v.payload, secured);
    var f := VendorEffect(re, r, v, secured);
    SilentStep(re.e.c, r, f.rc, f.payload, v, secured);
    if secured && r.ctx.state == Connected {
      LockStep(re.e.c, r, v);
      TpmStep(re, r, v);
    }
    assert v == Vendor(v.code, v.payload);
  }

  /** The trace explains the responder's state: who was authenticated and how the lock came to its value. */
  predicate Tracks(c: Crypto, lock: bool, r: Resp, t: seq<Event>) {
    && Authentic(c, t) && Backed(r, Scan(t)) && r.flags.lock == LastLock(lock, t) && r.tpmCalls == TpmCount(t)
    && (InSession(r.ctx) ==> Explains(c, Since(t), r.ctx.keys.rsp))
  }

  lemma ResetTracked(c: Crypto, lock: bool, r: Resp, t: seq<Event>)
    requires Tracks(c, lock, r, t)
    ensures Tracks(c, lock, Reset(r), t + [ResetEvent])
  {
    Extend(c, t, ResetEvent);
    LedgerExtend(lock, t, ResetEvent);
  }

  lemma OpenedTracked(c: Crypto, lock: bool, r: Resp, r': Resp, t: seq<Event>, connected: bool)
    requires Tracks(c, lock, r, t) && SameSession(r, r') && r'.flags.lock == r.flags.lock && r'.tpmCalls == r.tpmCalls
    ensures Tracks(c, lock, r', t + [OpenedEvent(connected)])
  {
    Extend(c, t, OpenedEvent(connected));
    LedgerExtend(lock, t, OpenedEvent(connected));
  }

  lemma ExchangeTracked(c: Crypto, lock: bool, r: Resp, o: Out, asym: bool, t: seq<Event>)
    requires Tracks(c, lock, r, t) && Exchanged(c, r, o, asym) && Joint(r) && !InSession(r.ctx)
    ensures Tracks(c, lock, o.r, t + o.evs)
  {
    if o.rc == Success {
      Extend(c, t, o.evs[0]);
      LedgerExtend(lock, t, o.evs[0]);
    } else {
      assert t + o.evs == t;
    }
  }

  lemma FinishTracked(c: Crypto, lock: bool, r: Resp, o: Out, asym: bool, t: seq<Event>)
    requires Tracks(c, lock, r, t) && Finished(c, r, o, asym)
    requires r.ctx.state == KeyEx && r.flags.pendingAsym == asym
    ensures Tracks(c, lock, o.r, t + o.evs)
  {
    if o.rc == Success {
      Extend(c, t, o.evs[0]);
      LedgerExtend(lock, t, o.evs[0]);
    } else {
      assert t + o.evs == t;
    }
  }

  lemma CommandTracked(c: Crypto, lock: bool, r: Resp, f: Effect, v: Vendor, secured: bool, t: seq<Event>)
    requires Tracks(c, lock, r, t) && Commanded(c, r, f, v, secured)
    requires secured ==> t != [] && t[|t| - 1] == OpenedEvent(r.ctx.state == Connected)
    ensures Tracks(c, lock, f.r, t + f.evs)
  {
    hide Provisioned;
    if f.evs != [] {
      assert f.evs == [f.evs[0]];
      Extend(c, t, f.evs[0]);
      LedgerExtend(lock, t, f.evs[0]);
    } else {
      assert t + f.evs == t;
    }
  }

  /** The store changes only as the vendor command v allows. */
  predicate StoreRule(c: Crypto, r: Resp, r': Resp, v: Option<Vendor>) {
    if v.Some? then Provisioned(c, r, r', v.value.code, v.value.payload)
    else r'.pskStore == r.pskStore && r'.clearAuthDigest == r.clearAuthDigest
  }

  /** What handling a message guarantees, given the vendor command that it carries. */
  predicate Handled(c: Crypto, lock: bool, r: Resp, o: Out, t: seq<Event>, v: Option<Vendor>) {
    && o.r.Valid() && Joint(o.r) && o.r.id == r.id
    && Tracks(c, lock, o.r, t + o.evs)
    && StoreRule(c, r, o.r, v)
  }

  lemma CommandJoint(c: Crypto, r: Resp, f: Effect, v: Vendor, secured: bool)
    requires Joint(r) && Commanded(c, r, f, v, secured)
    ensures Joint(f.r)
  {
    hide PskSetCode, PskClrCode;
  }

  lemma VendorHandled(re: RespEnv, lock: bool, r: Resp, t: seq<Event>, req: bytes, cap: nat, secured: bool)
    requires re.e.Valid() && r.Valid() && Joint(r) && Tracks(re.e.c, lock, r, t)
    requires secured ==> t != [] && t[|t| - 1] == OpenedEvent(r.ctx.state == Connected)
    ensures Handled(re.e.c, lock, r, HandleVendor(re, r, req, cap, secured), t, ParseVendor(req, MAX_MSG_SIZE))
    ensures SameSession(r, HandleVendor(re, r, req, cap, secured).r)
  {
    hide VendorEffect, ParseVendor, VendorReply, Tracks, Provisioned, Joint;
    match ParseVendor(req, MAX_MSG_SIZE)
    case None =>
      assert t + [] == t;
    case Some(v) =>
      VendorStep(re, r, v, secured);
      CommandTracked(re.e.c, lock, r, VendorEffect(re, r, v, secured), v, secured, t);
      CommandJoint(re.e.c, r, VendorEffect(re, r, v, secured), v, secured);
  }

  predicate Pinned(r: Resp, r': Resp) {
    r.ctx.ver != 0 ==> r'.ctx.ver == r.ctx.ver
  }

  /** The vendor command in a request body, if it is one. */
  function CommandOf(body: bytes): Option<Vendor> {
    if |body| >= 2 && body[1] == VENDOR_DEFINED_REQUEST then ParseVendor(body, MAX_MSG_SIZE) else None
  }

  lemma TranscriptOnly(c: Crypto, lock: bool, r: Resp, t: seq<Event>, data: bytes)
    requires r.Valid() && Joint(r) && Tracks(c, lock, r, t)
    ensures var r' := AddTo(r, data).0;
      r'.Valid() && Joint(r') && r'.id == r.id && Tracks(c, lock, r', t) && r' == r.(ctx := r.ctx.(transcript := r'.ctx.transcript))
  {
    hide Authentic, Scan, Since, LastLock, TpmCount;
  }

  lemma VersionHandled(re: RespEnv, lock: bool, r: Resp, t: seq<Event>, req: bytes, cap: nat)
    requires re.e.Valid() && r.Valid() && Joint(r) && Tracks(re.e.c, lock, r, t)
    requires |req| >= 2 && req[1] == GET_VERSION
    ensures Handled(re.e.c, lock, r, DispatchClear(re, r, req, cap), t, None)
  {
    hide Authentic, Scan, Since, LastLock, TpmCount;
    ResetTracked(re.e.c, lock, r, t);
    var r1 := AddTo(Reset(r), req).0;
    TranscriptOnly(re.e.c, lock, Reset(r), t + [ResetEvent], req);
    if AddTo(Reset(r), req).1 == Success && cap >= 10 {
      var r2 := r1.(ctx := r1.ctx.(ver := 0, state := Version));
      Quieter(re.e.c, lock, r1, r2, t + [ResetEvent]);
      TranscriptOnly(re.e.c, lock, r2, t + [ResetEvent], VERSION_MESSAGE);
    }
    assert [ResetEvent] + [] == [ResetEvent];
  }

  /** Outside a session the trace has nothing to explain but the lock. */
  lemma Quieter(c: Crypto, lock: bool, r: Resp, r': Resp, t: seq<Event>)
    requires Tracks(c, lock, r, t) && !InSession(r'.ctx) && r'.flags.lock == r.flags.lock && r'.tpmCalls == r.tpmCalls
    ensures Tracks(c, lock, r', t)
  {
  }

  lemma ClearVendorHandled(re: RespEnv, lock: bool, r: Resp, t: seq<Event>, req: bytes, cap: nat)
    requires re.e.Valid() && r.Valid() && Joint(r) && Tracks(re.e.c, lock, r, t)
    ensures Handled(re.e.c, lock, r, ClearVendor(re, r, req, cap), t, ParseVendor(req, MAX_MSG_SIZE))
    ensures ClearVendor(re, r, req, cap).r.ctx.ver == r.ctx.ver
  {
    hide Tracks, HandleVendor, ParseVendor, GetPubkCode, PskSetCode, PskClrCode, AddTo, Joint;
    VendorHandled(re, lock, r, t, req, cap, false);
    var o := HandleVendor(re, r, req, cap, false);
    if o.r.id.Some? {
      TranscriptOnly(re.e.c, lock, o.r, t + o.evs, re.e.c.hash(o.r.id.value.pub));
    }
  }

  lemma SelectHandled(c: Crypto, lock: bool, r: Resp, t: seq<Event>, ver: byte, vendor: bool)
    requires r.Valid() && Joint(r) && Tracks(c, lock, r, t)
    ensures
      var (x, rc) := SelectVersion(r.ctx, ver, vendor);
      var r1 := r.(ctx := x);
      && r1.Valid() && Joint(r1) && Tracks(c, lock, r1, t) && Pinned(r, r1)
      && x == r.ctx.(ver := x.ver) && (rc == Success && !vendor ==> x.ver != 0)
  {
    hide Authentic, Scan, Since, LastLock, TpmCount;
  }

  /** What was handled after something was recorded in the context, and framed afterwards, was handled from the start. */
  lemma Reframed(c: Crypto, lock: bool, r: Resp, r1: Resp, o: Out, o': Out, t: seq<Event>, v: Option<Vendor>)
    requires r1 == r.(ctx := r1.ctx) && o'.r == o.r && o'.evs == o.evs && Handled(c, lock, r1, o, t, v)
    ensures Handled(c, lock, r, o', t, v)
    ensures Pinned(r, r1) && Pinned(r1, o.r) ==> Pinned(r, o'.r)
  {
    hide Tracks, Joint, PskSetCode, PskClrCode;
  }

  /** A request refused outright leaves everything as it was. */
  lemma Refused(re: RespEnv, lock: bool, r: Resp, o: Out, t: seq<Event>, v: Option<Vendor>)
    requires r.Valid() && Joint(r) && Tracks(re.e.c, lock, r, t) && o.r == r && o.evs == []
    ensures Handled(re.e.c, lock, r, o, t, v) && Pinned(r, o.r)
  {
    hide Tracks, Joint, PskSetCode, PskClrCode;
    assert t + [] == t;
  }

  lemma ExchangeHandled(c: Crypto, lock: bool, r: Resp, t: seq<Event>, o: Out, asym: bool)
    requires r.Valid() && Joint(r) && Tracks(c, lock, r, t) && !InSession(r.ctx) && r.ctx.ver != 0 && Exchanged(c, r, o, asym)
    ensures Handled(c, lock, r, o, t, None) && o.r.ctx.ver == r.ctx.ver
  {
    hide Tracks;
    ExchangeTracked(c, lock, r, o, asym, t);
  }

  /** A fixed response, or none if the buffer is too small for it. */
  lemma ResponseHandled(c: Crypto, lock: bool, r: Resp, t: seq<Event>, msg: bytes, cap: nat)
    requires r.Valid() && Joint(r) && Tracks(c, lock, r, t)
    ensures var o := AddResponse(BuildMessage(r, msg, cap));
      Handled(c, lock, r, o, t, None) && o.r.ctx.ver == r.ctx.ver
  {
    hide Tracks, Joint, AddTo;
    TranscriptOnly(c, lock, r, t, msg);
    assert t + [] == t;
  }

  lemma CommandIs(req: bytes)
    requires |req| >= 2
    ensures CommandOf(req) == if req[1] == VENDOR_DEFINED_REQUEST then ParseVendor(req, MAX_MSG_SIZE) else None
  {
  }

  /** A request other than GET_VERSION once its version is accepted. */
  lemma BodyHandled(re: RespEnv, lock: bool, r: Resp, t: seq<Event>, req: bytes, cap: nat)
    requires re.e.Valid() && r.Valid() && Joint(r) && Tracks(re.e.c, lock, r, t)
    requires |req| >= 2 && req[1] != GET_VERSION
    requires req[1] == KEY_EXCHANGE || req[1] == PSK_EXCHANGE ==> !InSession(r.ctx) && r.ctx.ver != 0
    ensures Handled(re.e.c, lock, r, ClearBody(re, r, req, cap), t, CommandOf(req))
    ensures ClearBody(re, r, req, cap).r.ctx.ver == r.ctx.ver && Pinned(r, ClearBody(re, r, req, cap).r)
  {
    hide Tracks, Joint, Handled, AddTo, AddResponse, BuildMessage, ClearVendor, CommandOf, ParseVendor, BuildPskExchangeRsp,
      BuildKeyExchangeRsp, CapabilitiesMessage, AlgorithmsMessage, re.e.Valid;
    var c, o := re.e.c, ClearBody(re, r, req, cap);
    CommandIs(req);
    if req[1] == VENDOR_DEFINED_REQUEST {
      ClearVendorHandled(re, lock, r, t, req, cap);
    } else {
      var (r1, rc) := AddTo(r, req);
      TranscriptOnly(c, lock, r, t, req);
      if rc == Success && req[1] == PSK_EXCHANGE {
        PskExchangeStep(re.e, r1, req, cap);
        ExchangeHandled(c, lock, r1, t, o, false);
      } else if rc == Success && req[1] == KEY_EXCHANGE {
        KeyExchangeStep(re.e, r1, req, cap);
        ExchangeHandled(c, lock, r1, t, o, true);
      } else if rc == Success && req[1] == GET_CAPABILITIES {
        ResponseHandled(c, lock, r1, t, CapabilitiesMessage(r1.ctx.ver, r1.flags.usePsk), cap);
      } else if rc == Success && req[1] == NEGOTIATE_ALGORITHMS {
        ResponseHandled(c, lock, r1, t, AlgorithmsMessage(r1.ctx.ver), cap);
      } else {
        Refused(re, lock, r1, o, t, None);
      }
      Reframed(c, lock, r, r1, o, o, t, None);
    }
  }

  lemma ClearHandled(re: RespEnv, lock: bool, r: Resp, t: seq<Event>, req: bytes, cap: nat)
    requires re.e.Valid() && r.Valid() && Joint(r) && Tracks(re.e.c, lock, r, t)
    ensures Handled(re.e.c, lock, r, DispatchClear(re, r, req, cap), t, CommandOf(req))
    ensures |req| < 2 || req[1] != GET_VERSION ==> Pinned(r, DispatchClear(re, r, req, cap).r)
  {
    hide Tracks, Joint, Handled, Pinned, ClearBody, SelectVersion, CommandOf, re.e.Valid;
    var o := DispatchClear(re, r, req, cap);
    var v := CommandOf(req);
    if |req| < 2 {
      Refused(re, lock, r, o, t, v);
    } else if req[1] == GET_VERSION {
      CommandIs(req);
      VersionHandled(re, lock, r, t, req, cap);
    } else {
      SelectHandled(re.e.c, lock, r, t, req[0], req[1] == VENDOR_DEFINED_REQUEST);
      var (x, rc) := SelectVersion(r.ctx, req[0], req[1] == VENDOR_DEFINED_REQUEST);
      var r1 := r.(ctx := x);
      if o.r == r1 && o.evs == [] {
        Refused(re, lock, r1, o, t, v);
      } else {
        BodyHandled(re, lock, r1, t, req, cap);
      }
      Reframed(re.e.c, lock, r, r1, o, o, t, v);
    }
  }

  /** A decrypted request: t ends with the record's OpenedEvent. */
  lemma SecuredBodyHandled(re: RespEnv, lock: bool, r: Resp, t: seq<Event>, plain: bytes)
    requires re.e.Valid() && r.Valid() && Joint(r) && InSession(r.ctx) && |plain| >= 2
    requires Tracks(re.e.c, lock, r, t) && t != [] && t[|t| - 1] == OpenedEvent(r.ctx.state == Connected)
    ensures Handled(re.e.c, lock, r, SecuredBody(re, r, plain).0, t, CommandOf(plain))
    ensures SecuredBody(re, r, plain).0.r.ctx.ver == r.ctx.ver
  {
    hide Tracks, HandleVendor, ParseVendor, PskSetCode, PskClrCode, HandleFinish;
    assert t + [] == t;
    if plain[1] == FINISH || plain[1] == PSK_FINISH {
      FinishStep(re.e, r, plain[1] == FINISH, plain, MAX_MSG_SIZE);
      if r.ctx.state == KeyEx && r.flags.pendingAsym == (plain[1] == FINISH) {
        FinishTracked(re.e.c, lock, r, HandleFinish(re.e, r, plain[1] == FINISH, plain, MAX_MSG_SIZE), plain[1] == FINISH, t);
      }
    } else if plain[1] == VENDOR_DEFINED_REQUEST {
      VendorHandled(re, lock, r, t, plain, MAX_MSG_SIZE, true);
    }
  }

  /** Sealing a reply and deriving application keys move only keys, counters and randomness. */
  predicate KeysOnly(r: Resp, r': Resp) {
    && r'.Valid() && r' == r.(ctx := r.ctx.(keys := r'.ctx.keys, draws := r'.ctx.draws))
    && r'.ctx.keys.reqFinished == r.ctx.keys.reqFinished
  }

  lemma SealKeysOnly(re: RespEnv, r: Resp, p: bytes, cap: nat)
    requires re.e.Valid() && r.Valid()
    ensures
      var (x, rec) := RespEncrypt(re.e, r.ctx, p, cap);
      var x' := x.(keys := AppKeys(re.e.c, x.ver, x.transcript, x.keys));
      && KeysOnly(r, r.(ctx := x)) && KeysOnly(r.(ctx := x), r.(ctx := x'))
      && x'.keys.rsp == Generated(re.e.c, ApplicationOf(x), 0)
      && x.keys.rsp == (if rec.Ok? then r.ctx.keys.rsp.Next() else r.ctx.keys.rsp)
  {
    hide Seal, AppKeys;
    var x := RespEncrypt(re.e, r.ctx, p, cap).0;
    AppKeysKeyed(re.e, x);
  }

  lemma AppKeysKeyed(e: Env, x: Ctx)
    requires e.Valid() && x.Valid()
    ensures
      var k := AppKeys(e.c, x.ver, x.transcript, x.keys);
      k.Valid() && k.rsp == Generated(e.c, ApplicationOf(x), 0) && k.reqFinished == x.keys.reqFinished
  {
    hide MasterSecret;
  }

  lemma OpenKeysOnly(re: RespEnv, r: Resp, rec: bytes)
    requires re.e.Valid() && r.Valid()
    ensures var (x, plain) := RespDecrypt(re.e, r.ctx, rec, MAX_MSG_SIZE);
      && KeysOnly(r, r.(ctx := x)) && x.keys.rsp == r.ctx.keys.rsp && (!Opens(re, r, rec) ==> x == r.ctx && plain.Err?)
  {
    hide Open;
  }

  lemma KeysOnlyHandled(c: Crypto, lock: bool, r: Resp, r': Resp, t: seq<Event>)
    requires Joint(r) && InSession(r.ctx) && Tracks(c, lock, r, t) && KeysOnly(r, r')
    ensures Joint(r') && (r'.ctx.keys.rsp == r.ctx.keys.rsp ==> Tracks(c, lock, r', t))
  {
    hide Authentic, Scan, Since, LastLock, TpmCount, Explains;
  }

  /** A sealed reply: the direction was the one that the trace explains, and its number moves with the trace. */
  lemma SealTracked(c: Crypto, lock: bool, r: Resp, r': Resp, t: seq<Event>)
    requires Joint(r) && InSession(r.ctx) && Tracks(c, lock, r, t) && KeysOnly(r, r') && r'.ctx.keys.rsp == r.ctx.keys.rsp.Next()
    ensures Joint(r') && Tracks(c, lock, r', t + [SealedEvent(r.ctx.keys.rsp)])
  {
    hide Authentic, Scan, Since, LastLock, TpmCount, Secret, TrafficKey, TrafficIv;
    var ev := SealedEvent(r.ctx.keys.rsp);
    MayAppend(c, t, ev);
    Extend(c, t, ev);
    LedgerExtend(lock, t, ev);
  }

  lemma MayAppend(c: Crypto, t: seq<Event>, ev: Event)
    requires ev.SealedEvent? ==> Explains(c, Since(t), ev.d)
    requires ev.SealedEvent? || ev.KeysEvent?
    ensures Allowed(c, t, ev)
  {
  }

  /** Application keys in force: the trace explains them from here on. */
  lemma KeysTracked(c: Crypto, lock: bool, r: Resp, r': Resp, t: seq<Event>)
    requires Joint(r) && InSession(r.ctx) && Tracks(c, lock, r, t) && KeysOnly(r, r')
    requires r'.ctx.keys.rsp == Generated(c, ApplicationOf(r.ctx), 0)
    ensures Joint(r') && Tracks(c, lock, r', t + [KeysEvent(ApplicationOf(r.ctx))])
  {
    hide Authentic, Scan, Since, LastLock, TpmCount, Secret, TrafficKey, TrafficIv;
    var ev := KeysEvent(ApplicationOf(r.ctx));
    MayAppend(c, t, ev);
    Extend(c, t, ev);
    LedgerExtend(lock, t, ev);
  }

  lemma RespondHandled(re: RespEnv, lock: bool, r: Resp, t: seq<Event>, plain: bytes, cap: nat, evs: seq<Event>)
    requires re.e.Valid() && r.Valid() && Joint(r) && InSession(r.ctx) && |plain| >= 2
    requires Tracks(re.e.c, lock, r, t + evs) && evs == [OpenedEvent(r.ctx.state == Connected)]
    ensures Handled(re.e.c, lock, r, Respond(re, r, plain, cap, evs), t, CommandOf(plain))
    ensures Respond(re, r, plain, cap, evs).r.ctx.ver == r.ctx.ver
  {
    hide Tracks, SecuredBody, RespEncrypt, AppKeys, ParseVendor, PskSetCode, PskClrCode, Joint;
    var (o, derived) := SecuredBody(re, r, plain);
    SecuredBodyHandled(re, lock, r, t + evs, plain);
    assert t + (evs + o.evs) == (t + evs) + o.evs;
    if o.rc == Success {
      StaysInSession(re, r, plain);
      SealKeysOnly(re, o.r, o.out, cap);
      var (x, rec) := RespEncrypt(re.e, o.r.ctx, o.out, cap);
      if rec.Err? {
        KeysOnlyHandled(re.e.c, lock, o.r, o.r.(ctx := x), t + (evs + o.evs));
      } else {
        ReplySealed(re, lock, o.r, x, t, evs + o.evs, derived);
      }
    }
  }

  /** After the reply has been sealed: nothing more, application keys, or the end of the session. */
  lemma ReplySealed(re: RespEnv, lock: bool, r: Resp, x: Ctx, t: seq<Event>, evs: seq<Event>, derived: bool)
    requires re.e.Valid() && r.Valid() && Joint(r) && InSession(r.ctx) && Tracks(re.e.c, lock, r, t + evs)
    requires KeysOnly(r, r.(ctx := x)) && x.keys.rsp == r.ctx.keys.rsp.Next()
    requires
      var x' := x.(keys := AppKeys(re.e.c, x.ver, x.transcript, x.keys));
      KeysOnly(r.(ctx := x), r.(ctx := x')) && x'.keys.rsp == Generated(re.e.c, ApplicationOf(x), 0)
    ensures
      var sealed := evs + [SealedEvent(r.ctx.keys.rsp)];
      var r1 := r.(ctx := x);
      var r2 := r.(ctx := x.(keys := AppKeys(re.e.c, x.ver, x.transcript, x.keys)));
      && r1.Valid() && r2.Valid() && Joint(r1) && Joint(r2) && Tracks(re.e.c, lock, r1, t + sealed)
      && Tracks(re.e.c, lock, r2, t + (sealed + [KeysEvent(ApplicationOf(x))]))
      && Reset(r1).Valid() && Joint(Reset(r1)) && Tracks(re.e.c, lock, Reset(r1), t + (sealed + [ResetEvent]))
  {
    hide Tracks, AppKeys, Joint, Generated, re.e.Valid;
    var sealed := evs + [SealedEvent(r.ctx.keys.rsp)];
    var r1 := r.(ctx := x);
    SealTracked(re.e.c, lock, r, r1, t + evs);
    assert (t + evs) + [SealedEvent(r.ctx.keys.rsp)] == t + sealed;
    KeysTracked(re.e.c, lock, r1, r.(ctx := x.(keys := AppKeys(re.e.c, x.ver, x.transcript, x.keys))), t + sealed);
    assert (t + sealed) + [KeysEvent(ApplicationOf(x))] == t + (sealed + [KeysEvent(ApplicationOf(x))]);
    ResetHandled(re.e.c, lock, r1, t + sealed);
    assert (t + sealed) + [ResetEvent] == t + (sealed + [ResetEvent]);
  }

  lemma ResetHandled(c: Crypto, lock: bool, r: Resp, t: seq<Event>)
    requires r.Valid() && Joint(r) && Tracks(c, lock, r, t)
    ensures Reset(r).Valid() && Joint(Reset(r)) && Tracks(c, lock, Reset(r), t + [ResetEvent])
    ensures Reset(r).id == r.id && Reset(r).pskStore == r.pskStore && Reset(r).clearAuthDigest == r.clearAuthDigest
    ensures Reset(r).flags.provisioned == r.flags.provisioned && Reset(r).flags.clearAuthSet == r.flags.clearAuthSet
    ensures Reset(r).ctx.ver == r.ctx.ver
  {
    ResetTracked(c, lock, r, t);
  }

  lemma StaysInSession(re: RespEnv, r: Resp, plain: bytes)
    requires re.e.Valid() && r.Valid() && InSession(r.ctx) && |plain| >= 2
    ensures InSession(SecuredBody(re, r, plain).0.r.ctx)
  {
    hide HandleVendor, HandleFinish;
    FinishStep(re.e, r, plain[1] == FINISH, plain, MAX_MSG_SIZE);
    VendorStays(re, r, plain, true);
  }

  lemma VendorStays(re: RespEnv, r: Resp, req: bytes, secured: bool)
    requires r.Valid()
    ensures SameSession(r, HandleVendor(re, r, req, MAX_MSG_SIZE, secured).r)
  {
    hide VendorEffect, ParseVendor, VendorReply, PskSetCode, PskClrCode;
    if ParseVendor(req, MAX_MSG_SIZE).Some? {
      VendorStep(re, r, ParseVendor(req, MAX_MSG_SIZE).value, secured);
    }
  }

  lemma SecuredHandled(re: RespEnv, lock: bool, r: Resp, t: seq<Event>, rec: bytes, cap: nat)
    requires re.e.Valid() && r.Valid() && Joint(r) && Tracks(re.e.c, lock, r, t)
    ensures
      var plain := RespDecrypt(re.e, r.ctx, rec, MAX_MSG_SIZE).1;
      Handled(re.e.c, lock, r, DispatchSecured(re, r, rec, cap), t, if plain.Ok? then CommandOf(plain.value) else None)
    ensures DispatchSecured(re, r, rec, cap).r.ctx.ver == r.ctx.ver && Pinned(r, DispatchSecured(re, r, rec, cap).r)
  {
    hide Tracks, Respond, RespDecrypt, ParseVendor, PskSetCode, PskClrCode;
    assert t + [] == t;
    if InSession(r.ctx) {
      OpenKeysOnly(re, r, rec);
      var (x, plain) := RespDecrypt(re.e, r.ctx, rec, MAX_MSG_SIZE);
      var r1 := r.(ctx := x);
      KeysOnlyHandled(re.e.c, lock, r, r1, t);
      OpenedTracked(re.e.c, lock, r, r1, t, r.ctx.state == Connected);
      if plain.Ok? && |plain.value| >= 2 {
        RespondHandled(re, lock, r1, t, plain.value, cap, [OpenedEvent(r.ctx.state == Connected)]);
      }
    }
  }

  /** The vendor command that a frame delivers: in the clear, or in a record that opens. */
  ghost function Carries(re: RespEnv, r: Resp, msg: bytes): Option<Vendor>
    requires re.e.Valid() && r.Valid()
  {
    if |msg| < TCG_HEADER_SIZE || !(TCG_HEADER_SIZE <= GetBE(msg, 2, 4) <= |msg|) then None
    else
      var body := msg[TCG_HEADER_SIZE..GetBE(msg, 2, 4)];
      if GetBE(msg, 0, 2) == TAG_CLEAR then CommandOf(body)
      else
        var plain := RespDecrypt(re.e, r.ctx, body, MAX_MSG_SIZE).1;
        if plain.Ok? then CommandOf(plain.value) else None
  }

  /** Handled, for a message that may also have been refused outright. */
  ghost predicate MessageSafe(re: RespEnv, lock: bool, r: Resp, t: seq<Event>, msg: bytes, cap: nat)
    requires re.e.Valid() && r.Valid()
  {
    var o := HandleMessage(re, r, msg, cap);
    && Handled(re.e.c, lock, r, o, t, Carries(re, r, msg))
    && (!IsGetVersion(msg) ==> Pinned(r, o.r))
  }

  /** The binding header is recorded before the message is looked at. */
  lemma BindingOnly(re: RespEnv, lock: bool, r: Resp, t: seq<Event>, b: Binding, body: bytes)
    requires re.e.Valid() && r.Valid() && Joint(r) && Tracks(re.e.c, lock, r, t)
    requires b.handle < 0x1_0000_0000 && b.fips < 0x1_0000
    ensures var r1 := r.(ctx := r.ctx.(binding := b));
      && r1.Valid() && Joint(r1) && Tracks(re.e.c, lock, r1, t) && Pinned(r, r1)
      && RespDecrypt(re.e, r1.ctx, body, MAX_MSG_SIZE).1 == RespDecrypt(re.e, r.ctx, body, MAX_MSG_SIZE).1
  {
    hide Open, Authentic, Scan, Since, LastLock, Unframe;
  }

  lemma MessageHandled(re: RespEnv, lock: bool, r: Resp, t: seq<Event>, msg: bytes, cap: nat)
    requires re.e.Valid() && r.Valid() && Joint(r) && Tracks(re.e.c, lock, r, t)
    ensures MessageSafe(re, lock, r, t, msg, cap)
  {
    hide Tracks, RespDecrypt, DispatchClear, DispatchSecured, CommandOf, TcgHeader, Joint, GetBE, Handled, Pinned, re.e.Valid;
    var v := Carries(re, r, msg);
    var o' := HandleMessage(re, r, msg, cap);
    if (r.flags.useTcg || r.flags.usePsk) && |msg| >= TCG_HEADER_SIZE && TCG_HEADER_SIZE <= GetBE(msg, 2, 4) <= |msg| {
      var body := msg[TCG_HEADER_SIZE..GetBE(msg, 2, 4)];
      var b := Binding(GetBE(msg, 6, 4), GetBE(msg, 10, 2));
      BindingValid(msg);
      var r1 := r.(ctx := r.ctx.(binding := b));
      BindingOnly(re, lock, r, t, b, body);
      if GetBE(msg, 0, 2) != TAG_CLEAR && GetBE(msg, 0, 2) != TAG_SECURED {
        Refused(re, lock, r, o', t, v);
      } else if cap < TCG_HEADER_SIZE {
        Refused(re, lock, r1, o', t, v);
        Reframed(re.e.c, lock, r, r1, o', o', t, v);
      } else if GetBE(msg, 0, 2) == TAG_CLEAR {
        ClearHandled(re, lock, r1, t, body, cap - TCG_HEADER_SIZE);
        Reframed(re.e.c, lock, r, r1, DispatchClear(re, r1, body, cap - TCG_HEADER_SIZE), o', t, v);
      } else {
        SecuredHandled(re, lock, r1, t, body, cap - TCG_HEADER_SIZE);
        Reframed(re.e.c, lock, r, r1, DispatchSecured(re, r1, body, cap - TCG_HEADER_SIZE), o', t, v);
      }
    } else {
      Refused(re, lock, r, o', t, v);
    }
  }

  // ----- Well-formedness alone, from any state -----

  lemma VendorValid(re: RespEnv, r: Resp, req: bytes, cap: nat, secured: bool)
    requires r.Valid()
    ensures HandleVendor(re, r, req, cap, secured).r.Valid()
  {
    hide VendorEffect, ParseVendor, VendorReply, Provisioned;
    if ParseVendor(req, MAX_MSG_SIZE).Some? {
      VendorStep(re, r, ParseVendor(req, MAX_MSG_SIZE).value, secured);
    }
  }

  lemma ClearBodyValid(re: RespEnv, r: Resp, req: bytes, cap: nat)
    requires re.e.Valid() && r.Valid() && |req| >= 2
    ensures ClearBody(re, r, req, cap).r.Valid()
  {
    hide HandleVendor, ParseVendor, GetPubkCode, AddTo, BuildPskExchangeRsp, BuildKeyExchangeRsp, CapabilitiesMessage,
      AlgorithmsMessage, re.e.Valid;
    VendorValid(re, r, req, cap, false);
    var o := HandleVendor(re, r, req, cap, false);
    if o.r.id.Some? {
      Appended(o.r, re.e.c.hash(o.r.id.value.pub));
    }
    Appended(r, req);
    var r1 := AddTo(r, req).0;
    Appended(r1.(ctx := r1.ctx.(ver := 0, state := Version)), VERSION_MESSAGE);
    Appended(r1, CapabilitiesMessage(r1.ctx.ver, r1.flags.usePsk));
    Appended(r1, AlgorithmsMessage(r1.ctx.ver));
    PskExchangeStep(re.e, r1, req, cap);
    KeyExchangeStep(re.e, r1, req, cap);
  }

  lemma ClearValid(re: RespEnv, r: Resp, req: bytes, cap: nat)
    requires re.e.Valid() && r.Valid()
    ensures DispatchClear(re, r, req, cap).r.Valid()
  {
    hide ClearBody;
    if |req| >= 2 {
      ClearBodyValid(re, Reset(r), req, cap);
      ClearBodyValid(re, r.(ctx := SelectVersion(r.ctx, req[0], req[1] == VENDOR_DEFINED_REQUEST).0), req, cap);
    }
  }

  lemma SecuredValid(re: RespEnv, r: Resp, rec: bytes, cap: nat)
    requires re.e.Valid() && r.Valid()
    ensures DispatchSecured(re, r, rec, cap).r.Valid()
  {
    hide SecuredBody, RespEncrypt, RespDecrypt, AppKeys, re.e.Valid;
    OpenKeysOnly(re, r, rec);
    var (x, plain) := RespDecrypt(re.e, r.ctx, rec, MAX_MSG_SIZE);
    var r1 := r.(ctx := x);
    if plain.Ok? && |plain.value| >= 2 {
      SecuredBodyValid(re, r1, plain.value);
      var o := SecuredBody(re, r1, plain.value).0;
      SealKeysOnly(re, o.r, o.out, cap);
    }
  }

  lemma MessageValid(re: RespEnv, r: Resp, msg: bytes, cap: nat)
    requires re.e.Valid() && r.Valid()
    ensures HandleMessage(re, r, msg, cap).r.Valid()
  {
    hide DispatchClear, DispatchSecured, TcgHeader;
    if |msg| >= TCG_HEADER_SIZE {
      BindingValid(msg);
    }
    if |msg| >= TCG_HEADER_SIZE && TCG_HEADER_SIZE <= GetBE(msg, 2, 4) <= |msg| && cap >= TCG_HEADER_SIZE {
      var r1 := r.(ctx := r.ctx.(binding := Binding(GetBE(msg, 6, 4), GetBE(msg, 10, 2))));
      ClearValid(re, r1, msg[TCG_HEADER_SIZE..GetBE(msg, 2, 4)], cap - TCG_HEADER_SIZE);
      SecuredValid(re, r1, msg[TCG_HEADER_SIZE..GetBE(msg, 2, 4)], cap - TCG_HEADER_SIZE);
    }
  }

  // ----- Whole runs -----

  predicate Safe(c: Crypto, s: Sys) {
    s.r.Valid() && Joint(s.r) && Tracks(c, false, s.r, s.trace)
  }

  ghost function Step(re: RespEnv, s: Sys, op: Op): Sys
    requires re.e.Valid() && Safe(re.e.c, s)
  {
    match op
    case Message(msg, cap) =>
      var o := HandleMessage(re, s.r, msg, cap);
      Sys(o.r, s.trace + o.evs)
    case ConfigurePsk(psk, hint) => s.(r := SetPsk(s.r, psk, hint).0)
    case ConfigureIdentity(priv, pub) => s.(r := SetIdentityKey(s.r, priv, pub).0)
    case ConfigureMode(useTcg, usePsk) => s.(r := SetMode(s.r, useTcg, usePsk).0)
    case Restart => Sys(Reset(s.r), s.trace + [ResetEvent])
  }

  lemma StepSafe(re: RespEnv, s: Sys, op: Op)
    requires re.e.Valid() && Safe(re.e.c, s)
    ensures Safe(re.e.c, Step(re, s, op))
    ensures s.trace <= Step(re, s, op).trace
  {
    hide HandleMessage, Authentic, Scan, Since, LastLock, TpmCount, Carries, IsGetVersion, StoreRule;
    match op
    case Message(msg, cap) => MessageHandled(re, false, s.r, s.trace, msg, cap);
    case Restart => ResetHandled(re.e.c, false, s.r, s.trace);
    case _ =>
  }

  ghost function Run(re: RespEnv, s: Sys, ops: seq<Op>): (t: Sys)
    requires re.e.Valid() && Safe(re.e.c, s)
    ensures Safe(re.e.c, t) && s.trace <= t.trace
    decreases |ops|
  {
    if ops == [] then s
    else
      StepSafe(re, s, ops[0]);
      Run(re, Step(re, s, ops[0]), ops[1..])
  }

  const NEW_SYS := Sys(NEW_RESP, [])

  /** Every state the responder can reach, whatever is sent to it, satisfies the joint invariant. */
  lemma ReachableJoint(re: RespEnv, ops: seq<Op>)
    requires re.e.Valid()
    ensures Safe(re.e.c, NEW_SYS) && Joint(Run(re, NEW_SYS, ops).r)
  {
    assert Authentic(re.e.c, []) && Scan([]) == Closed && LastLock(false, []) == false;
  }

  /** Where a trace says its exchange and finish are, there they are, and no reset has happened since. */
  lemma {:induction false} ScanMeans(c: Crypto, t: seq<Event>)
    requires Authentic(c, t)
    ensures Scan(t).Pending? ==>
              Scan(t).start < |t| && t[Scan(t).start].ExchangeEvent?
              && t[Scan(t).start].asym == Scan(t).asym && t[Scan(t).start].finishedKey == Scan(t).key
    ensures Scan(t).Live? ==>
              var l := Scan(t);
              && l.start < l.done < |t| && t[l.start].ExchangeEvent? && t[l.start].asym == l.asym && t[l.start].finishedKey == l.key
              && t[l.done].FinishEvent? && t[l.done].asym == l.asym && t[l.done].finishedKey == l.key
              && t[l.done].mac == c.hmac(l.key, t[l.done].th2)
    ensures !Scan(t).Closed? ==> forall i :: Scan(t).start < i < |t| ==> t[i] != ResetEvent
  {
    if t != [] {
      ScanMeans(c, t[..|t| - 1]);
    }
  }

  lemma {:induction false} PrefixAuthentic(c: Crypto, t: seq<Event>, i: nat)
    requires Authentic(c, t) && i < |t|
    ensures Authentic(c, t[..i]) && Allowed(c, t[..i], t[i])
  {
    if i < |t| - 1 {
      PrefixAuthentic(c, t[..|t| - 1], i);
      assert t[..|t| - 1][..i] == t[..i];
    }
  }

  /**
   * The event at i happened while handling a record that opened in state Connected, after an exchange at j and
   * a finish of the same kind at k whose HMAC matched under that exchange's finished key, with no reset since.
   */
  ghost predicate Authenticated(c: Crypto, t: seq<Event>, i: nat)
    requires i < |t|
  {
    && i > 0 && t[i - 1] == OpenedEvent(true)
    && exists j, k :: 0 <= j < k < i && t[j].ExchangeEvent? && t[k].FinishEvent?
         && t[k].asym == t[j].asym && t[k].finishedKey == t[j].finishedKey
         && t[k].mac == c.hmac(t[k].finishedKey, t[k].th2)
         && forall m :: j < m < i ==> t[m] != ResetEvent
  }

  /** In every run, each TPM command and each lock change is authenticated, and the trace misses none of them. */
  lemma CommandsAuthenticated(re: RespEnv, ops: seq<Op>)
    requires re.e.Valid()
    ensures Safe(re.e.c, NEW_SYS)
    ensures
      var s := Run(re, NEW_SYS, ops);
      && (forall i :: 0 <= i < |s.trace| && (s.trace[i].TpmEvent? || s.trace[i].LockEvent?) ==> Authenticated(re.e.c, s.trace, i))
      && s.r.flags.lock == LastLock(false, s.trace) && s.r.tpmCalls == TpmCount(s.trace)
  {
    hide Run, Authentic, Scan, Since, LastLock, TpmCount;
    ReachableJoint(re, ops);
    var t := Run(re, NEW_SYS, ops).trace;
    forall i | 0 <= i < |t| && (t[i].TpmEvent? || t[i].LockEvent?)
      ensures Authenticated(re.e.c, t, i)
    {
      PrefixAuthentic(re.e.c, t, i);
      ScanMeans(re.e.c, t[..i]);
      var l := Scan(t[..i]);
      assert t[..i][l.start] == t[l.start] && t[..i][l.done] == t[l.done];
      forall m | l.start < m < i
        ensures t[m] != ResetEvent
      {
        assert t[m] == t[..i][m];
      }
    }
  }

  // ----- The responder's own nonces -----

  /** Where a trace says its keys came into force, they did. */
  lemma {:induction false} SinceMeans(t: seq<Event>)
    ensures
      var s := Since(t);
      && s.start <= |t| && s.count <= |t|
      && (s.how.Some? ==>
            && s.start > 0
            && ((t[s.start - 1].ExchangeEvent? && t[s.start - 1].how == s.how.value)
                || (t[s.start - 1].KeysEvent? && t[s.start - 1].how == s.how.value)))
  {
    if t != [] {
      SinceMeans(t[..|t| - 1]);
    }
  }

  /** While the keys stay, every sealed record moves the count. */
  lemma {:induction false} SealsGrow(t: seq<Event>, i: nat)
    requires i <= |t| && Since(t).start == Since(t[..i]).start
    ensures Since(t).count >= Since(t[..i]).count && (i < |t| && t[i].SealedEvent? ==> Since(t).count > Since(t[..i]).count)
  {
    SinceMeans(t[..i]);
    if i < |t| {
      var u := t[..|t| - 1];
      assert u[..i] == t[..i];
      if i < |u| {
        SealsGrow(u, i);
      } else {
        assert t[..i] == u;
      }
    } else {
      assert t[..i] == t;
    }
  }

  /** The record sealed at i used the keys in force there. */
  ghost predicate GenuineSeal(c: Crypto, t: seq<Event>, i: nat)
    requires i < |t| && t[i].SealedEvent?
  {
    && t[i].d.Valid() && Since(t[..i]).how.Some?
    && t[i].d.key == Generated(c, Since(t[..i]).how.value, 0).key && t[i].d.iv == Generated(c, Since(t[..i]).how.value, 0).iv
  }

  /** No two sealed replies share keys that came into force at one place and an IV. */
  ghost predicate FreshSeals(c: Crypto, t: seq<Event>) {
    && (forall i :: 0 <= i < |t| && t[i].SealedEvent? ==> GenuineSeal(c, t, i))
    && (forall i, j :: 0 <= i < j < |t| && t[i].SealedEvent? && t[j].SealedEvent? && Since(t[..i]).start == Since(t[..j]).start ==>
          RecordIV(t[i].d.iv, t[i].d.num) != RecordIV(t[j].d.iv, t[j].d.num))
  }

  lemma SealIsGenuine(c: Crypto, t: seq<Event>, i: nat)
    requires c.Sizes() && Authentic(c, t) && i < |t| && t[i].SealedEvent?
    ensures GenuineSeal(c, t, i) && t[i].d.num == Since(t[..i]).count % TWO64
  {
    hide Authentic, Since, Secret;
    PrefixAuthentic(c, t, i);
  }

  lemma SealsDiffer(c: Crypto, t: seq<Event>, i: nat, j: nat)
    requires c.Sizes() && Authentic(c, t) && |t| < TWO64
    requires i < j < |t| && t[i].SealedEvent? && t[j].SealedEvent? && Since(t[..i]).start == Since(t[..j]).start
    ensures GenuineSeal(c, t, i) && GenuineSeal(c, t, j)
    ensures RecordIV(t[i].d.iv, t[i].d.num) != RecordIV(t[j].d.iv, t[j].d.num)
  {
    hide RecordIV, Authentic, Secret, Since, TrafficKey, TrafficIv;
    SealIsGenuine(c, t, i);
    SealIsGenuine(c, t, j);
    SinceMeans(t[..i]);
    SinceMeans(t[..j]);
    assert t[..j][..i] == t[..i] && t[..j][i] == t[i];
    SealsGrow(t[..j], i);
    SameHow(t, i, j);
    if RecordIV(t[i].d.iv, t[i].d.num) == RecordIV(t[j].d.iv, t[j].d.num) {
      RecordIVInjective(t[i].d.iv, t[i].d.num, t[j].d.num);
    }
  }

  /** Keys that came into force at one place are the same keys. */
  lemma SameHow(t: seq<Event>, i: nat, j: nat)
    requires i < j < |t| && Since(t[..i]).start == Since(t[..j]).start && Since(t[..i]).how.Some? && Since(t[..j]).how.Some?
    ensures Since(t[..i]).how == Since(t[..j]).how
  {
    hide Since;
    SinceMeans(t[..i]);
    SinceMeans(t[..j]);
    var k := Since(t[..i]).start - 1;
    assert t[..i][k] == t[k] && t[..j][k] == t[k];
  }

  /**
   * Nonce uniqueness of the responder. In every run, whatever arrives, each reply is sealed under the keys that the
   * exchange or finish before it derived, and no two under the same ones with the same IV.
   */
  lemma ResponderNonces(re: RespEnv, ops: seq<Op>)
    requires re.e.Valid()
    ensures Safe(re.e.c, NEW_SYS)
    ensures var t := Run(re, NEW_SYS, ops).trace; |t| < TWO64 ==> FreshSeals(re.e.c, t)
  {
    hide Run, RecordIV, Since, Generated;
    ReachableJoint(re, ops);
    var c, t := re.e.c, Run(re, NEW_SYS, ops).trace;
    if |t| < TWO64 {
      forall i | 0 <= i < |t| && t[i].SealedEvent?
        ensures GenuineSeal(c, t, i)
      {
        SealIsGenuine(c, t, i);
      }
      forall i, j | 0 <= i < j < |t| && t[i].SealedEvent? && t[j].SealedEvent? && Since(t[..i]).start == Since(t[..j]).start
        ensures GenuineSeal(c, t, i) && GenuineSeal(c, t, j) && RecordIV(t[i].d.iv, t[i].d.num) != RecordIV(t[j].d.iv, t[j].d.num)
      {
        SealsDiffer(c, t, i, j);
      }
    }
  }

  // ----- Version, identity and store -----

  /** Once chosen, the version stays until the next GET_VERSION, across resets and configuration calls. */
  lemma {:induction false} VersionPinned(re: RespEnv, s: Sys, ops: seq<Op>)
    requires re.e.Valid() && Safe(re.e.c, s) && s.r.ctx.ver != 0
    requires forall i :: 0 <= i < |ops| && ops[i].Message? ==> !IsGetVersion(ops[i].msg)
    ensures Run(re, s, ops).r.ctx.ver == s.r.ctx.ver
    decreases |ops|
  {
    hide HandleMessage, IsGetVersion, Authentic, Scan, Since, LastLock, TpmCount, Carries, re.e.Valid;
    if ops != [] {
      if ops[0].Message? {
        MessageHandled(re, false, s.r, s.trace, ops[0].msg, ops[0].cap);
      }
      StepSafe(re, s, ops[0]);
      assert forall i :: 0 <= i < |ops[1..]| ==> ops[1..][i] == ops[i + 1];
      VersionPinned(re, Step(re, s, ops[0]), ops[1..]);
    }
  }

  /** The identity key changes only by configuration, and then only in state Init. */
  lemma IdentityPinned(re: RespEnv, s: Sys, op: Op)
    requires re.e.Valid() && Safe(re.e.c, s)
    requires s.r.ctx.state != Init || !op.ConfigureIdentity?
    ensures Step(re, s, op).r.id == s.r.id
  {
    hide HandleMessage, IsGetVersion, Authentic, Scan, Since, LastLock, TpmCount, Carries;
    if op.Message? {
      MessageHandled(re, false, s.r, s.trace, op.msg, op.cap);
    }
  }

  /** The message delivers PSK_CLR_ with a ClearAuth whose hash is the stored digest. */
  ghost predicate ClearsPsk(re: RespEnv, r: Resp, msg: bytes)
    requires re.e.Valid() && r.Valid()
  {
    var v := Carries(re, r, msg);
    v.Some? && v.value.code == PskClrCode() && re.e.c.hash(v.value.payload) == r.clearAuthDigest
  }

  /** No message of the run clears the PSK and no configuration call replaces it. */
  ghost predicate NeverCleared(re: RespEnv, s: Sys, ops: seq<Op>)
    requires re.e.Valid() && Safe(re.e.c, s)
    decreases |ops|
  {
    ops == [] ||
    (StepSafe(re, s, ops[0]);
     && !ops[0].ConfigurePsk?
     && (ops[0].Message? ==> !ClearsPsk(re, s.r, ops[0].msg))
     && NeverCleared(re, Step(re, s, ops[0]), ops[1..]))
  }

  /** One message never replaces a stored PSK: it keeps the bytes or, with the right ClearAuth, empties the store. */
  lemma StoreStep(re: RespEnv, s: Sys, msg: bytes, cap: nat)
    requires re.e.Valid() && Safe(re.e.c, s) && s.r.pskStore != []
    ensures
      var r' := Step(re, s, Message(msg, cap)).r;
      r'.pskStore == s.r.pskStore || (r'.pskStore == [] && ClearsPsk(re, s.r, msg))
  {
    hide HandleMessage, IsGetVersion, Authentic, Scan, Since, LastLock, TpmCount, Carries, PskSetCode, PskClrCode;
    CodesDiffer();
    MessageHandled(re, false, s.r, s.trace, msg, cap);
  }

  /** However long the run, a provisioned PSK stays byte for byte until it is cleared. */
  lemma {:induction false} StorePersists(re: RespEnv, s: Sys, ops: seq<Op>)
    requires re.e.Valid() && Safe(re.e.c, s) && s.r.pskStore != []
    requires NeverCleared(re, s, ops)
    ensures Run(re, s, ops).r.pskStore == s.r.pskStore
    decreases |ops|
  {
    hide HandleMessage, IsGetVersion, Authentic, Scan, Since, LastLock, TpmCount, Carries, ClearsPsk, Safe;
    if ops != [] {
      StepSafe(re, s, ops[0]);
      if ops[0].Message? {
        StoreStep(re, s, ops[0].msg, ops[0].cap);
      }
      StorePersists(re, Step(re, s, ops[0]), ops[1..]);
    }
  }

  /** A PSK_EXCHANGE wipes the inner PSK, but the next one does not depend on it: it reloads the store. */
  lemma StoreReused(e: Env, r: Resp, psk: bytes, req: bytes, cap: nat)
    requires e.Valid() && r.Valid()
    ensures
      var o := BuildPskExchangeRsp(e, r, req, cap);
      var o' := BuildPskExchangeRsp(e, r.(ctx := r.ctx.(psk := psk)), req, cap);
      && o'.rc == o.rc && o'.out == o.out && o'.evs == o.evs
      && (o.rc == Success ==> o'.r == o.r && o.r.ctx.psk == [] && o.r.pskStore == r.pskStore != [])
  {
    hide HandshakeKeys, ExchangeTail, PskPartial, GetLE;
    assert PskOpen(r.(ctx := r.ctx.(psk := psk)), 0).psk == r.pskStore;
    if |req| >= 12 {
      var partial := PskPartial(r.ctx.ver, e.rnd(r.ctx.draws, RANDOM_SIZE));
      var r1 := AddTo(r.(ctx := PskOpen(r, Get16(req, 4))), partial).0;
      var r2 := r1.(ctx := PskHandshake(e, r1.ctx));
      TailKeepsPsk(e, r2, partial);
    }
  }

  lemma TailKeepsPsk(e: Env, r: Resp, body: bytes)
    ensures ExchangeTail(e, r, body, false).r.ctx.psk == r.ctx.psk && ExchangeTail(e, r, body, false).r.pskStore == r.pskStore
  {
  }
}
