/** KEY_UPDATE with speculative rotation and rollback (spdm_session.c, spdm_kdf.c). */
module KeyUpdates {
  import opened Bytes
  import opened Codes
  import opened Crypto
  import opened Records
  import opened Context
  import Channel

  const OP_UPDATE_KEY: byte := 1
  const OP_UPDATE_ALL_KEYS: byte := 2
  const OP_VERIFY_NEW_KEY: byte := 3
  const XFER_BUF: nat := XFER_MSG_SIZE + 80

  /** What the transport brings back for a record, if anything. */
  type Reply = Option<bytes>

  /** wolfSPDM_SendReceive: a reply larger than the caller's buffer is an error. */
  function Transfer(f: Format, reply: Reply, cap: nat): (r: Result<bytes>)
    ensures r.Err? ==> r.rc != Success
    ensures r.Ok? ==> |r.value| <= cap
  {
    match reply
    case None => Err(IoFail)
    case Some(raw) => if |raw| <= cap then Ok(raw) else Err(if f.Tcg? then BufferSmall else IoFail)
  }

  function ParseAck(ver: byte, buf: bytes, op: byte, tag: byte): Rc {
    if |buf| < 4 then InvalidArg
    else if buf[1] != KEY_UPDATE_ACK then (if buf[1] == SPDM_ERROR then PeerError else KeyUpdateErr)
    else if |buf| != 4 || buf[0] != ver || buf[2] != op || buf[3] != tag then KeyUpdateErr
    else Success
  }

  function Restarted(k: Keys): Keys {
    k.(req := k.req.(num := 0), rsp := k.rsp.(num := 0))
  }

  function RestartedReq(k: Keys): Keys {
    k.(req := k.req.(num := 0))
  }

  /** The outcome of a call: final context, return code, and the directions it sealed a record under. */
  datatype Outcome = Outcome(x: Ctx, rc: Rc, sealed: seq<Dir>)

  /** The MCTP binding carries 16-bit record numbers. */
  predicate Room(f: Format, d: Dir) {
    f.Mctp? ==> d.num <= 0xFFFF
  }

  /** KEY_UPDATE with a fresh random tag, sealed under the current keys. */
  ghost function Announce(e: Env, x: Ctx, op: byte, cap: nat): (r: (Ctx, Result<bytes>, byte))
    requires e.Valid() && x.Valid()
    ensures r.0.Valid() && r.0.cfg == x.cfg && r.0.sess == x.sess && r.0.ver == x.ver && r.0.state == x.state
    ensures r.1.Err? ==> r.1.rc != Success && r.0.keys == x.keys
    ensures r.1.Ok? ==> r.0.keys == x.keys.(req := x.keys.req.Next()) && Room(x.Format(), x.keys.req)
  {
    var tag := e.rnd(x.draws, 1)[0];
    var (x1, rec) := Encrypt(e, x.(draws := x.draws + 1), [x.ver, KEY_UPDATE, op, tag], cap);
    (x1, rec, tag)
  }

  /** The second half: VERIFY_NEW_KEY through wolfSPDM_SecuredExchange. */
  ghost function VerifyNewKey(e: Env, x: Ctx, sealed: seq<Dir>, reply: Reply): Outcome
    requires e.Valid() && x.Valid()
  {
    if x.sess.sid == 0 then Outcome(x.(draws := x.draws + 1), NotConnected, sealed)
    else
      var (x1, rec, tag) := Announce(e, x, OP_VERIFY_NEW_KEY, XFER_BUF);
      if rec.Err? then Outcome(x1, rec.rc, sealed)
      else
        var sealed1 := sealed + [x.keys.req];
        var raw := Transfer(x.Format(), reply, XFER_BUF);
        if raw.Err? then Outcome(x1, raw.rc, sealed1)
        else
          var (x2, rsp) := Decrypt(e, x1, raw.value, 32);
          Outcome(x2, if rsp.Err? then rsp.rc else ParseAck(x.ver, rsp.value, OP_VERIFY_NEW_KEY, tag), sealed1)
  }

  /** The reply under the current keys or, for UpdateAllKeys, under the next ones; keys move only in the latter case. */
  ghost function OpenReply(e: Env, x: Ctx, all: bool, raw: bytes): (r: (Ctx, Result<bytes>, bool))
    requires e.Valid() && x.Valid()
    ensures r.0.Valid() && r.0.ver == x.ver && (r.1.Err? ==> r.1.rc != Success)
  {
    var (x1, d) := Decrypt(e, x, raw, 32);
    if d.Err? && all then
      var y := x1.(keys := Restarted(UpdatedKeys(e.c, x.ver, x1.keys, true)));
      var (y1, d1) := Decrypt(e, y, raw, 32);
      if d1.Err? then (x1, d1, false) else (y1, d1, true)
    else (x1, d, false)
  }

  /** The first half: announce, read the reply, rotate; Success only once the peer has proved that it rotated. */
  ghost function Begin(e: Env, x: Ctx, all: bool, reply: Reply): (o: Outcome)
    requires e.Valid() && x.Valid()
    ensures o.x.Valid()
  {
    var op := if all then OP_UPDATE_ALL_KEYS else OP_UPDATE_KEY;
    var (x1, rec, tag) := Announce(e, x, op, 64);
    if rec.Err? then Outcome(x1, rec.rc, [])
    else
      var raw := Transfer(x.Format(), reply, 64);
      if raw.Err? then Outcome(x1, raw.rc, [x.keys.req])
      else
        var (x2, rsp, rotated) := OpenReply(e, x1, all, raw.value);
        if rsp.Err? then Outcome(x2, rsp.rc, [x.keys.req])
        else
          var rc := ParseAck(x.ver, rsp.value, op, tag);
          if rc != Success then Outcome(x2, rc, [x.keys.req])
          else if all then Outcome(x2, if rotated then Success else KeyUpdateErr, [x.keys.req])
          else Outcome(x2.(keys := RestartedReq(UpdatedKeys(e.c, x.ver, x2.keys, false))), Success, [x.keys.req])
  }

  predicate Ready(x: Ctx, capable: bool) {
    x.state == Connected && (x.Format().Mctp? ==> capable)
  }

  /** wolfSPDM_KeyUpdate against any transport. */
  ghost function Update(e: Env, x: Ctx, all: bool, capable: bool, reply1: Reply, reply2: Reply): Outcome
    requires e.Valid() && x.Valid()
  {
    if x.state != Connected then Outcome(x, NotConnected, [])
    else if x.Format().Mctp? && !capable then Outcome(x, CapsMismatch, [])
    else
      var o := Begin(e, x, all, reply1);
      if o.rc != Success then o else VerifyNewKey(e, o.x, o.sealed, reply2)
  }

  // ----- The method -----

  method SendReceive(f: Format, reply: Reply, cap: nat) returns (r: Result<bytes>)
    ensures r == Transfer(f, reply, cap)
  {
    if reply == None {
      return Err(IoFail);
    }
    if |reply.value| > cap {
      return Err(if f == Tcg then BufferSmall else IoFail);
    }
    r := Ok(reply.value);
  }

  method AnnounceUpdate(ctx: SpdmContext, op: byte, cap: nat) returns (rec: Result<bytes>, tag: byte)
    requires ctx.Valid()
    modifies ctx
    ensures ctx.Valid() && (ctx.Snap(), rec, tag) == Announce(ctx.env, old(ctx.Snap()), op, cap)
  {
    hide Seal;
    var random := ctx.GetRandom(1);
    tag := random[0];
    rec := ctx.EncryptInternal([ctx.spdmVersion, KEY_UPDATE, op, tag], cap);
  }

  method SecuredVerify(ctx: SpdmContext, reply: Reply, ghost before: seq<Dir>) returns (rc: Rc, ghost sealed: seq<Dir>)
    requires ctx.Valid()
    modifies ctx
    ensures ctx.Valid() && Outcome(ctx.Snap(), rc, sealed) == VerifyNewKey(ctx.env, old(ctx.Snap()), before, reply)
  {
    hide Announce, Open, Seal, ParseAck;
    sealed := before;
    if ctx.sess.sid == 0 {
      var _ := ctx.GetRandom(1);
      return NotConnected, sealed;
    }
    ghost var d := ctx.keys.req;
    var rec, tag := AnnounceUpdate(ctx, OP_VERIFY_NEW_KEY, XFER_BUF);
    if rec.Err? {
      return rec.rc, sealed;
    }
    sealed := sealed + [d];
    var raw := SendReceive(ctx.cfg.mode.Format(), reply, XFER_BUF);
    if raw.Err? {
      return raw.rc, sealed;
    }
    var rsp := ctx.DecryptInternal(raw.value, 32);
    if rsp.Err? {
      return rsp.rc, sealed;
    }
    rc := ParseAck(ctx.spdmVersion, rsp.value, OP_VERIFY_NEW_KEY, tag);
  }

  /** Decrypts; if that fails rotates on trial, decrypts again, and rolls back when that fails too. */
  method DecryptOrRotate(ctx: SpdmContext, all: bool, raw: bytes) returns (rsp: Result<bytes>, rotated: bool)
    requires ctx.Valid()
    modifies ctx
    ensures ctx.Valid() && (ctx.Snap(), rsp, rotated) == OpenReply(ctx.env, old(ctx.Snap()), all, raw)
  {
    hide Open, Unframe, NextSecret, TrafficKey, TrafficIv;
    rotated := false;
    rsp := ctx.DecryptInternal(raw, 32);
    if rsp.Err? && all {
      var saved := ctx.keys;
      rotated := true;
      ctx.DeriveUpdatedKeys(true);
      ctx.keys := ctx.keys.(req := ctx.keys.req.(num := 0));
      ctx.keys := ctx.keys.(rsp := ctx.keys.rsp.(num := 0));
      rsp := ctx.DecryptInternal(raw, 32);
      if rsp.Err? {
        ctx.keys := ctx.keys.(req := saved.req);
        ctx.keys := ctx.keys.(rsp := saved.rsp);
        ctx.keys := ctx.keys.(reqApp := saved.reqApp, rspApp := saved.rspApp);
        rotated := false;
      }
    }
  }

  method BeginUpdate(ctx: SpdmContext, updateAll: bool, reply: Reply) returns (rc: Rc, ghost sealed: seq<Dir>)
    requires ctx.Valid()
    modifies ctx
    ensures ctx.Valid() && Outcome(ctx.Snap(), rc, sealed) == Begin(ctx.env, old(ctx.Snap()), updateAll, reply)
  {
    hide Announce, OpenReply, UpdatedKeys, ParseAck;
    sealed := [];
    var op := if updateAll then OP_UPDATE_ALL_KEYS else OP_UPDATE_KEY;
    ghost var d := ctx.keys.req;
    var rec, tag := AnnounceUpdate(ctx, op, 64);
    if rec.Err? {
      return rec.rc, sealed;
    }
    sealed := [d];
    var raw := SendReceive(ctx.cfg.mode.Format(), reply, 64);
    if raw.Err? {
      return raw.rc, sealed;
    }
    var rsp, rotated := DecryptOrRotate(ctx, updateAll, raw.value);
    if rsp.Err? {
      return rsp.rc, sealed;
    }
    rc := ParseAck(ctx.spdmVersion, rsp.value, op, tag);
    if rc == Success && updateAll && !rotated {
      rc := KeyUpdateErr;
    }
    if rc == Success && !updateAll {
      ctx.DeriveUpdatedKeys(false);
      ctx.keys := ctx.keys.(req := ctx.keys.req.(num := 0));
    }
  }

  method KeyUpdate(ctx: SpdmContext, updateAll: bool, capable: bool, reply1: Reply, reply2: Reply)
    returns (rc: Rc, ghost sealed: seq<Dir>)
    requires ctx.Valid()
    modifies ctx
    ensures ctx.Valid()
    ensures Outcome(ctx.Snap(), rc, sealed) == Update(ctx.env, old(ctx.Snap()), updateAll, capable, reply1, reply2)
  {
    hide Begin, VerifyNewKey, ctx.env.Valid;
    if ctx.state != Connected {
      return NotConnected, [];
    }
    if ctx.cfg.mode == Auto && !capable {
      return CapsMismatch, [];
    }
    rc, sealed := BeginUpdate(ctx, updateAll, reply1);
    if rc == Success {
      rc, sealed := SecuredVerify(ctx, reply2, sealed);
    }
  }

  // ----- All or nothing -----

  /** The same key, base IV and application secret in both directions; only counters may differ. */
  predicate SameGeneration(k: Keys, k': Keys) {
    && k'.req.key == k.req.key && k'.req.iv == k.req.iv && k'.reqApp == k.reqApp
    && k'.rsp.key == k.rsp.key && k'.rsp.iv == k.rsp.iv && k'.rspApp == k.rspApp
    && k'.handshake == k.handshake && k'.reqFinished == k.reqFinished && k'.rspFinished == k.rspFinished
  }

  /** The peer has proved that it rotated: what the code requires before it keeps new keys. */
  ghost predicate Proven(e: Env, x: Ctx, all: bool, reply: Reply)
    requires e.Valid() && x.Valid()
  {
    var op := if all then OP_UPDATE_ALL_KEYS else OP_UPDATE_KEY;
    var (x1, rec, tag) := Announce(e, x, op, 64);
    rec.Ok? &&
    var raw := Transfer(x.Format(), reply, 64);
    raw.Ok? &&
    var (x2, current) := Decrypt(e, x1, raw.value, 32);
    if all then
      current.Err? && Decrypt(e, x2.(keys := Restarted(UpdatedKeys(e.c, x.ver, x2.keys, true))), raw.value, 32).1.Ok?
    else
      current.Ok? && ParseAck(x.ver, current.value, op, tag) == Success
  }

  lemma VerifyKeepsGeneration(e: Env, x: Ctx, sealed: seq<Dir>, reply: Reply)
    requires e.Valid() && x.Valid()
    ensures SameGeneration(x.keys, VerifyNewKey(e, x, sealed, reply).x.keys)
  {
    hide RecordIV, Open, Seal;
  }

  /** What the first half does: it seals at most once, under the old direction, and moves the keys only when it may. */
  ghost predicate BeginsRight(e: Env, x: Ctx, all: bool, reply: Reply)
    requires e.Valid() && x.Valid()
  {
    var o := Begin(e, x, all, reply);
    var k := UpdatedKeys(e.c, x.ver, x.keys, all);
    && o.x.state == x.state && o.x.cfg == x.cfg
    && (o.rc == Success ==> Proven(e, x, all, reply))
    && (o.sealed != [] ==> Room(x.Format(), x.keys.req))
    && if Proven(e, x, all, reply) then
         SameGeneration(k, o.x.keys) && o.x.keys.req == RestartedReq(k).req && o.sealed == [x.keys.req]
       else
         && SameGeneration(x.keys, o.x.keys)
         && ((o.sealed == [] && o.x.keys.req == x.keys.req) || (o.sealed == [x.keys.req] && o.x.keys.req == x.keys.req.Next()))
  }

  /** An update sees keys, base IVs and secrets, not counters. */
  lemma UpdateSameGeneration(c: Crypto, ver: byte, k: Keys, k': Keys, all: bool)
    requires SameGeneration(k, k')
    ensures SameGeneration(UpdatedKeys(c, ver, k, all), UpdatedKeys(c, ver, k', all))
    ensures RestartedReq(UpdatedKeys(c, ver, k, all)).req == RestartedReq(UpdatedKeys(c, ver, k', all)).req
  {
    hide TrafficKey, TrafficIv, NextSecret;
  }

  /** Decrypting moves at most the response counter. */
  lemma DecryptSameGeneration(e: Env, x: Ctx, raw: bytes)
    requires e.Valid() && x.Valid()
    ensures
      var y := Decrypt(e, x, raw, 32).0;
      && y.Valid() && SameGeneration(x.keys, y.keys) && y.keys.req == x.keys.req
      && y.state == x.state && y.cfg == x.cfg && y.sess == x.sess && y.ver == x.ver
  {
    hide Open, Unframe, e.Valid;
  }

  lemma UpdateKeepsValid(e: Env, x: Ctx, k: Keys)
    requires e.Valid() && k.Valid()
    ensures Restarted(UpdatedKeys(e.c, x.ver, k, true)).Valid()
  {
  }

  /** The reply opens under the current keys, under the next ones, or under neither. */
  lemma OpenReplyMeans(e: Env, x: Ctx, all: bool, raw: bytes)
    requires e.Valid() && x.Valid()
    ensures
      var (x1, d) := Decrypt(e, x, raw, 32);
      var (y, rsp, rotated) := OpenReply(e, x, all, raw);
      var k := UpdatedKeys(e.c, x.ver, x.keys, true);
      && y.state == x.state && y.cfg == x.cfg && y.ver == x.ver
      && x1.Valid() && Restarted(UpdatedKeys(e.c, x.ver, x1.keys, true)).Valid()
      && rotated == (all && d.Err? && Decrypt(e, x1.(keys := Restarted(UpdatedKeys(e.c, x.ver, x1.keys, true))), raw, 32).1.Ok?)
      && (if rotated then SameGeneration(k, y.keys) && y.keys.req == RestartedReq(k).req
          else SameGeneration(x.keys, y.keys) && y.keys.req == x.keys.req)
      && (rotated ==> rsp.Ok?) && (!all || d.Ok? ==> rsp == d) && (all && d.Err? && !rotated ==> rsp.Err?)
  {
    hide Decrypt, UpdatedKeys, e.Valid;
    DecryptSameGeneration(e, x, raw);
    var x1 := Decrypt(e, x, raw, 32).0;
    UpdateKeepsValid(e, x, x1.keys);
    var y := x1.(keys := Restarted(UpdatedKeys(e.c, x.ver, x1.keys, true)));
    DecryptSameGeneration(e, y, raw);
    UpdateSameGeneration(e.c, x.ver, x.keys, x1.keys, true);
  }

  lemma NotAnnounced(e: Env, x: Ctx, all: bool, reply: Reply)
    requires e.Valid() && x.Valid()
    requires Announce(e, x, if all then OP_UPDATE_ALL_KEYS else OP_UPDATE_KEY, 64).1.Err?
    ensures BeginsRight(e, x, all, reply)
  {
    hide Announce, OpenReply, UpdatedKeys, Decrypt, e.Valid;
    AnnounceKeeps(e, x, if all then OP_UPDATE_ALL_KEYS else OP_UPDATE_KEY);
  }

  /** What Announce leaves alone. */
  lemma AnnounceKeeps(e: Env, x: Ctx, op: byte)
    requires e.Valid() && x.Valid()
    ensures
      var y := Announce(e, x, op, 64).0;
      SameGeneration(x.keys, y.keys) && y.state == x.state && y.cfg == x.cfg && y.ver == x.ver
  {
    hide Encrypt, e.Valid;
  }

  lemma Unreadable(e: Env, x: Ctx, all: bool, reply: Reply)
    requires e.Valid() && x.Valid()
    requires Announce(e, x, if all then OP_UPDATE_ALL_KEYS else OP_UPDATE_KEY, 64).1.Ok? && Transfer(x.Format(), reply, 64).Err?
    ensures BeginsRight(e, x, all, reply)
  {
    hide Announce, OpenReply, UpdatedKeys, Decrypt, Transfer, e.Valid;
    AnnounceKeeps(e, x, if all then OP_UPDATE_ALL_KEYS else OP_UPDATE_KEY);
  }

  /** UpdateKey: the reply is read under the current keys; an acknowledgement rotates the request direction. */
  lemma RequestKeyRead(e: Env, x: Ctx, reply: Reply)
    requires e.Valid() && x.Valid()
    requires Announce(e, x, OP_UPDATE_KEY, 64).1.Ok? && Transfer(x.Format(), reply, 64).Ok?
    ensures BeginsRight(e, x, false, reply)
  {
    hide Announce, OpenReply, UpdatedKeys, Decrypt, Transfer, ParseAck, e.Valid;
    AnnounceKeeps(e, x, OP_UPDATE_KEY);
    var x1 := Announce(e, x, OP_UPDATE_KEY, 64).0;
    var raw := Transfer(x.Format(), reply, 64).value;
    OpenReplyMeans(e, x1, false, raw);
    UpdateSameGeneration(e.c, x.ver, x.keys, OpenReply(e, x1, false, raw).0.keys, false);
  }

  /** UpdateAllKeys: the reply is read under the old or the new keys, and the keys stay with whichever opened it. */
  lemma AllKeysRead(e: Env, x: Ctx, reply: Reply)
    requires e.Valid() && x.Valid()
    requires Announce(e, x, OP_UPDATE_ALL_KEYS, 64).1.Ok? && Transfer(x.Format(), reply, 64).Ok?
    ensures BeginsRight(e, x, true, reply)
  {
    hide Announce, OpenReply, UpdatedKeys, Decrypt, Transfer, ParseAck, e.Valid;
    AnnounceKeeps(e, x, OP_UPDATE_ALL_KEYS);
    var x1 := Announce(e, x, OP_UPDATE_ALL_KEYS, 64).0;
    var raw := Transfer(x.Format(), reply, 64).value;
    OpenReplyMeans(e, x1, true, raw);
    UpdateSameGeneration(e.c, x.ver, x.keys, x1.keys, true);
  }

  lemma BeginAllOrNothing(e: Env, x: Ctx, all: bool, reply: Reply)
    requires e.Valid() && x.Valid()
    ensures BeginsRight(e, x, all, reply)
  {
    hide BeginsRight, Announce, Transfer, e.Valid;
    if Announce(e, x, if all then OP_UPDATE_ALL_KEYS else OP_UPDATE_KEY, 64).1.Err? {
      NotAnnounced(e, x, all, reply);
    } else if Transfer(x.Format(), reply, 64).Err? {
      Unreadable(e, x, all, reply);
    } else if all {
      AllKeysRead(e, x, reply);
    } else {
      RequestKeyRead(e, x, reply);
    }
  }

  /**
   * Whatever the peer answers, keys, IVs and secrets are afterwards exactly one generation ahead in just the
   * requested directions, each along its own lineage, if the peer proved that it rotated, and all unchanged otherwise;
   * success means the former.
   */
  lemma AllOrNothing(e: Env, x: Ctx, all: bool, capable: bool, reply1: Reply, reply2: Reply, req: Derivation, rsp: Derivation)
    requires e.Valid() && x.Valid()
    ensures
      var o := Update(e, x, all, capable, reply1, reply2);
      var moved := Ready(x, capable) && Proven(e, x, all, reply1);
      && SameGeneration(if moved then UpdatedKeys(e.c, x.ver, x.keys, all) else x.keys, o.x.keys)
      && (o.rc == Success ==> moved)
      && (moved && x.keys.reqApp == Secret(e.c, req) && x.keys.rspApp == Secret(e.c, rsp) ==>
            OneAhead(e.c, x.ver, x.keys, o.x.keys, all, req, rsp))
  {
    hide RecordIV, Open, Seal, Begin, VerifyNewKey, UpdatedKeys, Proven, Secret, TrafficKey, TrafficIv, OneAhead;
    if Ready(x, capable) {
      BeginAllOrNothing(e, x, all, reply1);
      var o := Begin(e, x, all, reply1);
      VerifyKeepsGeneration(e, o.x, o.sealed, reply2);
    }
    if x.keys.reqApp == Secret(e.c, req) && x.keys.rspApp == Secret(e.c, rsp) {
      UpdateLineage(e.c, x.ver, x.keys, all, req, rsp);
      AheadAlike(e.c, x.ver, x.keys, UpdatedKeys(e.c, x.ver, x.keys, all), Update(e, x, all, capable, reply1, reply2).x.keys, all, req, rsp);
    }
  }

  /** Being one generation ahead does not depend on counters. */
  lemma AheadAlike(c: Crypto, ver: byte, k: Keys, k1: Keys, k2: Keys, all: bool, req: Derivation, rsp: Derivation)
    requires OneAhead(c, ver, k, k1, all, req, rsp)
    ensures SameGeneration(k1, k2) ==> OneAhead(c, ver, k, k2, all, req, rsp)
  {
    hide Secret, TrafficKey, TrafficIv;
  }

  /** Only four bytes acknowledge: the version, the code, and the operation and tag of the announcement. */
  lemma AckIs(ver: byte, buf: bytes, op: byte, tag: byte)
    ensures ParseAck(ver, buf, op, tag) == Success <==> buf == [ver, KEY_UPDATE_ACK, op, tag]
    ensures ParseAck(ver, buf, op, tag) == PeerError <==> |buf| >= 4 && buf[1] == SPDM_ERROR
  {
    if ParseAck(ver, buf, op, tag) == Success {
      assert buf == [buf[0], buf[1], buf[2], buf[3]];
    }
  }

  /** The announcement went out, and the reply to it is its acknowledgement: under the next keys if all are to move. */
  ghost predicate Acknowledged(e: Env, x: Ctx, all: bool, reply: Reply)
    requires e.Valid() && x.Valid()
  {
    var op := if all then OP_UPDATE_ALL_KEYS else OP_UPDATE_KEY;
    var ack := [x.ver, KEY_UPDATE_ACK, op, e.rnd(x.draws, 1)[0]];
    var (x1, rec, _) := Announce(e, x, op, 64);
    && rec.Ok? && reply.Some? && |reply.value| <= 64
    && var (x2, plain) := Decrypt(e, x1, reply.value, 32);
       if all then
         plain.Err? && Decrypt(e, x2.(keys := Restarted(UpdatedKeys(e.c, x.ver, x2.keys, true))), reply.value, 32).1 == Ok(ack)
       else plain == Ok(ack)
  }

  /** VERIFY_NEW_KEY went out under the new keys, and the reply to it is its acknowledgement under them. */
  ghost predicate Confirmed(e: Env, x: Ctx, reply: Reply)
    requires e.Valid() && x.Valid()
  {
    var (x1, rec, _) := Announce(e, x, OP_VERIFY_NEW_KEY, XFER_BUF);
    && x.sess.sid != 0 && rec.Ok? && reply.Some? && |reply.value| <= XFER_BUF
    && Decrypt(e, x1, reply.value, 32).1 == Ok([x.ver, KEY_UPDATE_ACK, OP_VERIFY_NEW_KEY, e.rnd(x.draws, 1)[0]])
  }

  lemma BeginSucceeds(e: Env, x: Ctx, all: bool, reply: Reply)
    requires e.Valid() && x.Valid()
    ensures Begin(e, x, all, reply).rc == Success <==> Acknowledged(e, x, all, reply)
  {
    hide Encrypt, Decrypt, UpdatedKeys, ParseAck, e.Valid;
    var op := if all then OP_UPDATE_ALL_KEYS else OP_UPDATE_KEY;
    var (x1, rec, tag) := Announce(e, x, op, 64);
    if rec.Ok? && Transfer(x.Format(), reply, 64).Ok? {
      var rsp := OpenReply(e, x1, all, reply.value).1;
      if rsp.Ok? {
        AckIs(x.ver, rsp.value, op, tag);
      }
    }
  }

  lemma VerifySucceeds(e: Env, x: Ctx, sealed: seq<Dir>, reply: Reply)
    requires e.Valid() && x.Valid()
    ensures VerifyNewKey(e, x, sealed, reply).rc == Success <==> Confirmed(e, x, reply)
  {
    hide Encrypt, Open, Unframe, ParseAck, e.Valid;
    var (x1, rec, tag) := Announce(e, x, OP_VERIFY_NEW_KEY, XFER_BUF);
    if rec.Ok? && Transfer(x.Format(), reply, XFER_BUF).Ok? {
      var rsp := Decrypt(e, x1, reply.value, 32).1;
      if rsp.Ok? {
        AckIs(x.ver, rsp.value, OP_VERIFY_NEW_KEY, tag);
      }
    }
  }

  /** KeyUpdate succeeds exactly when both of its messages go out and each is answered with its own acknowledgement. */
  lemma UpdateSucceeds(e: Env, x: Ctx, all: bool, capable: bool, reply1: Reply, reply2: Reply)
    requires e.Valid() && x.Valid()
    ensures Update(e, x, all, capable, reply1, reply2).rc == Success <==>
              Ready(x, capable) && Acknowledged(e, x, all, reply1) && Confirmed(e, Begin(e, x, all, reply1).x, reply2)
  {
    hide Begin, VerifyNewKey, Acknowledged, Confirmed, e.Valid;
    BeginSucceeds(e, x, all, reply1);
    var o := Begin(e, x, all, reply1);
    VerifySucceeds(e, o.x, o.sealed, reply2);
  }

  /** A reply that opens under neither key set leaves every key and both counters as they were after sending. */
  lemma RolledBack(e: Env, x: Ctx, reply: Reply)
    requires e.Valid() && x.Valid()
    requires
      var (x1, rec, tag) := Announce(e, x, OP_UPDATE_ALL_KEYS, 64);
      rec.Ok? &&
      var raw := Transfer(x.Format(), reply, 64);
      && raw.Ok?
      && Open(e.c, x.Format(), x.sess.sid, x.keys.rsp, raw.value).Rejected?
      && Open(e.c, x.Format(), x.sess.sid, Restarted(UpdatedKeys(e.c, x.ver, x.keys, true)).rsp, raw.value).Rejected?
    ensures
      var o := Begin(e, x, true, reply);
      o.rc != Success && o.x.keys == x.keys.(req := x.keys.req.Next()) && o.sealed == [x.keys.req]
  {
    hide RecordIV, Open, Seal, NextSecret;
  }

  // ----- Agreement with a responder that follows KEY_UPDATE of DSP0274 -----

  /** How the responder treats requests: whether it rotates, its error code, its padding. */
  datatype Policy = Policy(accept: bool, code: byte, pad: bytes)

  ghost function SealReply(c: Crypto, f: Format, sid: nat, p: Policy, k: Keys, msg: bytes): (r: (Keys, Option<bytes>))
    requires k.Valid()
  {
    match Seal(c, f, false, sid, k.rsp, msg, p.pad, XFER_BUF)
    case Err(_) => (k, None)
    case Ok(rec) => (k.(rsp := k.rsp.Next()), Some(rec))
  }

  /**
   * A rejection travels under the current keys. An accepted UpdateKey is acknowledged under the current
   * response key before the request direction rotates; an accepted UpdateAllKeys rotates both first.
   */
  ghost function Respond(c: Crypto, f: Format, sid: nat, ver: byte, p: Policy, k: Keys, rec: bytes): (r: (Keys, Option<bytes>))
    requires c.Sizes() && k.Valid()
  {
    match Open(c, f, sid, k.req, rec)
    case Rejected(_) => (k, None)
    case Verified(framed) =>
      var k1 := k.(req := k.req.Next());
      match Unframe(f, false, framed, MAX_MSG_SIZE)
      case Err(_) => (k1, None)
      case Ok(m) =>
        if |m| != 4 || m[1] != KEY_UPDATE then (k1, None)
        else
          var ack := [ver, KEY_UPDATE_ACK, m[2], m[3]];
          if m[2] == OP_VERIFY_NEW_KEY then SealReply(c, f, sid, p, k1, ack)
          else if !p.accept then SealReply(c, f, sid, p, k1, [ver, SPDM_ERROR, p.code, 0])
          else if m[2] == OP_UPDATE_ALL_KEYS then SealReply(c, f, sid, p, Restarted(UpdatedKeys(c, ver, k1, true)), ack)
          else
            var (k2, r) := SealReply(c, f, sid, p, k1, ack);
            (RestartedReq(UpdatedKeys(c, ver, k2, false)), r)
  }

  ghost predicate Able(e: Env, x: Ctx, p: Policy) {
    && e.Valid() && e.c.AeadCorrect() && x.Valid() && x.sess.sid != 0
    && |p.pad| == PadSize(x.Format(), 4)
  }

  /** The responder receives the four bytes the requester announced. */
  lemma Heard(e: Env, x: Ctx, p: Policy, op: byte, cap: nat)
    requires Able(e, x, p) && Room(x.Format(), x.keys.req) && cap >= 64
    ensures
      var (x1, rec, tag) := Announce(e, x, op, cap);
      && rec.Ok?
      && var o := Open(e.c, x.Format(), x.sess.sid, x.keys.req, rec.value);
      && o.Verified?
      && Unframe(x.Format(), false, o.framed, MAX_MSG_SIZE) == Ok([x.ver, KEY_UPDATE, op, tag])
  {
    hide RecordIV, Open, Unframe, Frame, Record;
    var tag := e.rnd(x.draws, 1)[0];
    var y := x.(draws := x.draws + 1);
    var msg := [x.ver, KEY_UPDATE, op, tag];
    var pad := Padding(e, x.Format(), y.draws, 4);
    FrameSize4(x.Format(), msg, pad);
    SealThenOpen(e.c, x.Format(), false, x.sess.sid, x.keys.req, msg, pad, cap);
    FrameUnframe(x.Format(), false, msg, pad, MAX_MSG_SIZE);
  }

  lemma FrameSize4(f: Format, msg: bytes, pad: bytes)
    requires |msg| == 4 && |pad| == PadSize(f, 4)
    ensures |Frame(f, false, msg, pad)| <= 16
  {
  }

  /** The requester receives the four bytes the responder replied when its response direction is the same. */
  lemma Answered(e: Env, x: Ctx, p: Policy, k: Keys, msg: bytes)
    requires Able(e, x, p) && k.Valid() && k.rsp == x.keys.rsp && Room(x.Format(), k.rsp) && |msg| == 4
    ensures
      var (k1, r) := SealReply(e.c, x.Format(), x.sess.sid, p, k, msg);
      && k1 == k.(rsp := k.rsp.Next())
      && r.Some? && |r.value| <= 64
      && Decrypt(e, x, r.value, 32) == (x.(keys := x.keys.(rsp := x.keys.rsp.Next())), Ok(msg))
  {
    hide RecordIV, Open, Unframe, Frame;
    var f, sid := x.Format(), x.sess.sid;
    FrameSize4(f, msg, p.pad);
    SealThenOpen(e.c, f, false, sid, k.rsp, msg, p.pad, XFER_BUF);
    FrameUnframe(f, false, msg, p.pad, 32);
  }

  /** What the responder does with the record just sealed for it. */
  ghost function Peer(e: Env, x: Ctx, p: Policy, k: Keys, rec: Result<bytes>): (r: (Keys, Reply))
    requires e.Valid() && k.Valid()
    ensures r.0.Valid()
  {
    if rec.Err? then (k, None)
    else
      RespondValid(e.c, x.Format(), x.sess.sid, x.ver, p, k, rec.value);
      Respond(e.c, x.Format(), x.sess.sid, x.ver, p, k, rec.value)
  }

  lemma RespondValid(c: Crypto, f: Format, sid: nat, ver: byte, p: Policy, k: Keys, rec: bytes)
    requires c.Sizes() && k.Valid()
    ensures Respond(c, f, sid, ver, p, k, rec).0.Valid()
  {
    hide RecordIV, Open, Unframe, Seal;
  }

  /** VERIFY_NEW_KEY between mirrored ends succeeds and leaves them mirrored. */
  lemma VerifyAgrees(e: Env, x: Ctx, p: Policy, sealed: seq<Dir>)
    requires Able(e, x, p) && Room(x.Format(), x.keys.req) && Room(x.Format(), x.keys.rsp)
    ensures
      var (k, reply) := Peer(e, x, p, x.keys, Announce(e, x, OP_VERIFY_NEW_KEY, XFER_BUF).1);
      var o := VerifyNewKey(e, x, sealed, reply);
      o.rc == Success && o.x.keys == k
  {
    hide RecordIV, Open, Unframe, Frame, Announce, SealReply, Decrypt;
    Heard(e, x, p, OP_VERIFY_NEW_KEY, XFER_BUF);
    var (x1, rec, tag) := Announce(e, x, OP_VERIFY_NEW_KEY, XFER_BUF);
    Answered(e, x1, p, x1.keys, [x.ver, KEY_UPDATE_ACK, OP_VERIFY_NEW_KEY, tag]);
  }

  /** Once the old response direction has been used, a first record under the new one is rejected by its number. */
  lemma StaleReplyRejected(e: Env, x: Ctx, p: Policy, k: Keys, msg: bytes, raw: bytes)
    requires Able(e, x, p) && k.Valid() && k.rsp.num == 0 && |msg| == 4 && x.keys.rsp.num != 0
    requires SealReply(e.c, x.Format(), x.sess.sid, p, k, msg).1 == Some(raw)
    ensures Decrypt(e, x, raw, 32).1.Err?
  {
    hide RecordIV, LE;
    var f, framed := x.Format(), Frame(x.Format(), false, msg, p.pad);
    FrameSize4(f, msg, p.pad);
    var h := Header(f, x.sess.sid, 0, |framed| + TAG_SIZE);
    HeaderFields(f, x.sess.sid, 0, |framed| + TAG_SIZE, e.c.seal(k.rsp.key, RecordIV(k.rsp.iv, 0), h, framed));
  }

  /** A rejection: the requester reports it and both ends keep their keys. */
  lemma RejectionAgrees(e: Env, x: Ctx, p: Policy, all: bool)
    requires Able(e, x, p) && Room(x.Format(), x.keys.req) && Room(x.Format(), x.keys.rsp) && !p.accept
    ensures
      var (k, reply) := Peer(e, x, p, x.keys, Announce(e, x, if all then OP_UPDATE_ALL_KEYS else OP_UPDATE_KEY, 64).1);
      var o := Begin(e, x, all, reply);
      o.rc == PeerError && o.x.keys == k
  {
    hide RecordIV, Open, Unframe, Frame, Announce, SealReply, Decrypt, UpdatedKeys;
    var op := if all then OP_UPDATE_ALL_KEYS else OP_UPDATE_KEY;
    Heard(e, x, p, op, 64);
    var x1 := Announce(e, x, op, 64).0;
    Answered(e, x1, p, x1.keys, [x.ver, SPDM_ERROR, p.code, 0]);
  }

  /** UpdateKey accepted: both ends rotate the request direction and restart its counter. */
  lemma RequestRotationAgrees(e: Env, x: Ctx, p: Policy)
    requires Able(e, x, p) && Room(x.Format(), x.keys.req) && Room(x.Format(), x.keys.rsp) && p.accept
    ensures
      var (k, reply) := Peer(e, x, p, x.keys, Announce(e, x, OP_UPDATE_KEY, 64).1);
      var o := Begin(e, x, false, reply);
      && o.rc == Success && o.x.keys == k
      && k.req.num == 0 && k.rsp == x.keys.rsp.Next()
      && o.x.cfg == x.cfg && o.x.sess == x.sess && o.x.ver == x.ver
  {
    hide RecordIV, Open, Unframe, Frame, Announce, SealReply, Decrypt, ExpandLabel;
    Heard(e, x, p, OP_UPDATE_KEY, 64);
    var (x1, rec, tag) := Announce(e, x, OP_UPDATE_KEY, 64);
    Answered(e, x1, p, x1.keys, [x.ver, KEY_UPDATE_ACK, OP_UPDATE_KEY, tag]);
  }

  /** Trying the old key first leaves no trace in what the next generation starts from. */
  lemma RestartForgets(e: Env, x: Ctx, raw: bytes)
    requires e.Valid() && x.Valid()
    ensures
      var y := Decrypt(e, x, raw, 32).0;
      y.(keys := Restarted(UpdatedKeys(e.c, x.ver, y.keys, true))) == x.(keys := Restarted(UpdatedKeys(e.c, x.ver, x.keys, true)))
  {
    hide Open, Unframe, NextSecret, TrafficKey, TrafficIv;
  }

  /** The record that acknowledges an UpdateAllKeys does not also open under the old response key. */
  ghost predicate AckIsStale(e: Env, x: Ctx, p: Policy)
    requires e.Valid() && x.Valid()
  {
    var (x1, rec, tag) := Announce(e, x, OP_UPDATE_ALL_KEYS, 64);
    var reply := Peer(e, x, p, x.keys, rec).1;
    reply.Some? && Decrypt(e, x1, reply.value, 32).1.Err?
  }

  /**
   * UpdateAllKeys accepted: both ends rotate both directions and restart both counters, if and only if the
   * acknowledgement does not also open under the old key; the record number alone ensures that after traffic.
   */
  lemma FullRotationAgrees(e: Env, x: Ctx, p: Policy)
    requires Able(e, x, p) && Room(x.Format(), x.keys.req) && p.accept
    ensures
      var (k, reply) := Peer(e, x, p, x.keys, Announce(e, x, OP_UPDATE_ALL_KEYS, 64).1);
      var o := Begin(e, x, true, reply);
      && reply.Some? && (x.keys.rsp.num != 0 ==> AckIsStale(e, x, p))
      && (o.rc == Success <==> AckIsStale(e, x, p))
      && (o.rc == Success ==>
            && o.x.keys == k && k.req.num == 0 && k.rsp.num == 1
            && o.x.cfg == x.cfg && o.x.sess == x.sess && o.x.ver == x.ver)
  {
    hide RecordIV, Open, Unframe, Frame, Announce, SealReply, Decrypt, UpdatedKeys, e.Valid, Restarted;
    Heard(e, x, p, OP_UPDATE_ALL_KEYS, 64);
    var (x1, rec, tag) := Announce(e, x, OP_UPDATE_ALL_KEYS, 64);
    var ack := [x.ver, KEY_UPDATE_ACK, OP_UPDATE_ALL_KEYS, tag];
    var y := x1.(keys := Restarted(UpdatedKeys(e.c, x.ver, x1.keys, true)));
    UpdatedValid(e, x1);
    Answered(e, y, p, y.keys, ack);
    var raw := SealReply(e.c, x.Format(), x.sess.sid, p, y.keys, ack).1.value;
    RestartForgets(e, x1, raw);
    if x.keys.rsp.num != 0 {
      StaleReplyRejected(e, x1, p, y.keys, ack, raw);
    }
  }

  lemma UpdatedValid(e: Env, x: Ctx)
    requires e.Valid() && x.Valid()
    ensures Restarted(UpdatedKeys(e.c, x.ver, x.keys, true)).Valid()
    ensures Restarted(UpdatedKeys(e.c, x.ver, x.keys, true)).req.num == 0
    ensures Restarted(UpdatedKeys(e.c, x.ver, x.keys, true)).rsp.num == 0
  {
  }

  /** KeyUpdate with every record it seals handled by the responder in turn: its outcome and the responder's keys. */
  ghost function Converse(e: Env, x: Ctx, p: Policy, all: bool, capable: bool): (r: (Outcome, Keys))
    requires Able(e, x, p)
  {
    var op := if all then OP_UPDATE_ALL_KEYS else OP_UPDATE_KEY;
    var (k1, reply1) := Peer(e, x, p, x.keys, Announce(e, x, op, 64).1);
    var o := Begin(e, x, all, reply1);
    var (k2, reply2) := if o.rc == Success then Peer(e, o.x, p, k1, Announce(e, o.x, OP_VERIFY_NEW_KEY, XFER_BUF).1)
                        else (k1, None);
    (Update(e, x, all, capable, reply1, reply2), k2)
  }

  /**
   * Against a responder that either rejects or rotates and acknowledges, KeyUpdate reports which it was and
   * both ends hold the same keys, base IVs, secrets and counters afterwards. An accepted UpdateAllKeys succeeds
   * if and only if its acknowledgement does not also open under the old key.
   */
  lemma UpdateAgrees(e: Env, x: Ctx, p: Policy, all: bool, capable: bool)
    requires Able(e, x, p) && Ready(x, capable)
    requires Room(x.Format(), x.keys.req) && Room(x.Format(), x.keys.rsp) && Room(x.Format(), x.keys.rsp.Next())
    ensures
      var (o, k) := Converse(e, x, p, all, capable);
      if p.accept then
        && (o.rc == Success <==> (all ==> AckIsStale(e, x, p))) && (o.rc == Success ==> o.x.keys == k)
        && (x.keys.rsp.num != 0 ==> o.rc == Success)
      else o.rc == PeerError && o.x.keys == k
  {
    hide RecordIV, Open, Unframe, Announce, Peer, Begin, VerifyNewKey, AckIsStale;
    if !p.accept {
      RejectionAgrees(e, x, p, all);
    } else {
      if all { FullRotationAgrees(e, x, p); } else { RequestRotationAgrees(e, x, p); }
      var op := if all then OP_UPDATE_ALL_KEYS else OP_UPDATE_KEY;
      var o := Begin(e, x, all, Peer(e, x, p, x.keys, Announce(e, x, op, 64).1).1);
      if o.rc == Success {
        VerifyAgrees(e, o.x, p, o.sealed);
      }
    }
  }

  /** The records sealed under the old response direction so far, all of which the requester has received. */
  ghost predicate AllReceived(x: Ctx, log: seq<Channel.Sealed>, got: seq<bytes>) {
    |got| == |log| && Channel.InStep(x.Format(), Channel.Link(x.keys.rsp, x.keys.rsp, log, got))
  }

  /** AEAD integrity, said of the acknowledgement: if it opened under the old key it would have been sealed under it. */
  ghost predicate AckUnforged(e: Env, x: Ctx, p: Policy, log: seq<Channel.Sealed>, got: seq<bytes>)
    requires e.Valid() && x.Valid()
  {
    var reply := Peer(e, x, p, x.keys, Announce(e, x, OP_UPDATE_ALL_KEYS, 64).1).1;
    reply.Some? ==>
      Channel.Unforged(e.c, x.Format(), x.sess.sid, Channel.Link(x.keys.rsp, x.keys.rsp, log, got), Channel.Deliver(reply.value))
  }

  lemma IntegrityMakesStale(e: Env, x: Ctx, raw: bytes, log: seq<Channel.Sealed>, got: seq<bytes>)
    requires e.Valid() && x.Valid() && AllReceived(x, log, got)
    requires Channel.Unforged(e.c, x.Format(), x.sess.sid, Channel.Link(x.keys.rsp, x.keys.rsp, log, got), Channel.Deliver(raw))
    ensures Decrypt(e, x, raw, 32).1.Err?
  {
    hide RecordIV, Open, Unframe, Channel.Unforged, Channel.LoggedFrame;
    var l := Channel.Link(x.keys.rsp, x.keys.rsp, log, got);
    if Open(e.c, x.Format(), x.sess.sid, x.keys.rsp, raw).Verified? {
      Channel.VerifiedWasLogged(e.c, x.Format(), x.sess.sid, l, Channel.Deliver(raw));
      var i :| 0 <= i < |log| && log[i].iv == RecordIV(x.keys.rsp.iv, x.keys.rsp.num);
      Channel.IvGivesPosition(x.Format(), l, i);
    }
  }

  /** With AEAD integrity an accepted update always succeeds, and both ends hold the same keys. */
  lemma AcceptedUpdateAgrees(e: Env, x: Ctx, p: Policy, all: bool, capable: bool, log: seq<Channel.Sealed>, got: seq<bytes>)
    requires Able(e, x, p) && Ready(x, capable) && p.accept && AllReceived(x, log, got)
    requires Room(x.Format(), x.keys.req) && Room(x.Format(), x.keys.rsp) && Room(x.Format(), x.keys.rsp.Next())
    ensures
      AckUnforged(e, x, p, log, got) ==>
        var (o, k) := Converse(e, x, p, all, capable);
        o.rc == Success && o.x.keys == k
  {
    hide RecordIV, Open, Announce, Peer, Begin, Update, Decrypt, Converse, Channel.Unforged, Channel.InStep;
    UpdateAgrees(e, x, p, all, capable);
    if all && AckUnforged(e, x, p, log, got) {
      FullRotationAgrees(e, x, p);
      var x1 := Announce(e, x, OP_UPDATE_ALL_KEYS, 64).0;
      var raw := Peer(e, x, p, x.keys, Announce(e, x, OP_UPDATE_ALL_KEYS, 64).1).1.value;
      IntegrityMakesStale(e, x1, raw, log, got);
    }
  }
}
