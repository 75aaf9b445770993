/**
 * Nonce uniqueness of the requester over whole runs. A key generation is named by the run of the key schedule that it
 * belongs to and by how its secret was derived. Rolled-back rotations return to the earlier name, so the theorem
 * covers a discarded generation that is derived again.
 */
module Nonce {
  import opened Bytes
  import opened Crypto
  import opened Records
  import opened Context
  import opened KeyUpdates

  /** Zeroed is the key material after a reset: every session would share it, so nothing may be sealed under it. */
  datatype Generation = Zeroed | Derived(epoch: nat, how: Derivation)

  /** One successful EncryptRecord: the generation in force, and the key, base IV and number that were used. */
  datatype Use = Use(gen: Generation, key: bytes, base: bytes, num: nat)
  {
    ghost function IV(): bytes
      requires |base| == IV_SIZE
    {
      RecordIV(base, num)
    }
  }

  function UseOf(gen: Generation, d: Dir): Use {
    Use(gen, d.key, d.iv, d.num)
  }

  datatype Op =
    | Reset                                                               // Connect, Disconnect
    | Early(state: State)                                                 // steps before the key exchange, or failure
    | Handshake(secret: bytes, th1: bytes, ver: byte, sid: nat, verified: bool)
    | Finished                                                            // FINISH_RSP accepted
    | Transmit(msg: bytes, cap: nat)                                      // a secured request
    | Receive(enc: bytes, cap: nat)
    | Rotate(all: bool, capable: bool, reply1: Reply, reply2: Reply)      // wolfSPDM_KeyUpdate

  /** gen is the generation of the traffic keys, app that of the request direction's application secret. */
  datatype Run = Run(x: Ctx, gen: Generation, app: Generation, epochs: nat, uses: seq<Use>)

  predicate Unkeyed(s: State) {
    s.Init? || s.Version? || s.Cert? || s.Failed?
  }

  /** SecuredExchange, FinishXfer and ConnectPsk seal only in these states. */
  predicate MaySeal(x: Ctx) {
    !Unkeyed(x.state)
  }

  ghost predicate WellFormed(op: Op) {
    && (op.Early? ==> Unkeyed(op.state))
    && (op.Handshake? ==> op.sid < 0x1_0000_0000)
  }

  ghost function Moved(e: Env, x: Ctx, op: Op): bool
    requires e.Valid() && x.Valid() && op.Rotate?
  {
    Ready(x, op.capable) && Proven(e, x, op.all, op.reply1)
  }

  /** The first record of a key update goes out under the old generation, any further one under the new. */
  function UsesOf(sealed: seq<Dir>, gen: Generation, gen': Generation): seq<Use> {
    seq(|sealed|, i requires 0 <= i < |sealed| => UseOf(if i == 0 then gen else gen', sealed[i]))
  }

  /** The generation after one more update of the application secret. */
  function Updated(x: Ctx, app: Generation): Generation {
    if app.Zeroed? then Zeroed else app.(how := NextGeneration(x.ver, app.how))
  }

  ghost function Step(e: Env, r: Run, op: Op): (r': Run)
    requires e.Valid() && r.x.Valid() && WellFormed(op)
  {
    match op
    case Reset => r.(x := ResetSession(r.x), gen := Zeroed, app := Zeroed)
    case Early(state) => r.(x := r.x.(state := state))
    case Handshake(secret, th1, ver, sid, verified) =>
      var y := r.x.(ver := ver, keys := HandshakeKeys(e.c, ver, secret, th1, r.x.keys));
      Run(if verified then y.(state := KeyEx, sess := y.sess.(sid := sid)) else y,
          Derived(r.epochs + 1, HandshakeSecret(ver, "req hs data", secret, th1)), r.app, r.epochs + 1, r.uses)
    case Finished =>
      if r.x.state != KeyEx then r
      else
        var gen := Derived(r.epochs + 1, ApplicationSecret(r.x.ver, "req app data", r.x.keys.handshake, r.x.transcript));
        Run(r.x.(state := Connected, keys := AppKeys(e.c, r.x.ver, r.x.transcript, r.x.keys)), gen, gen, r.epochs + 1, r.uses)
    case Transmit(msg, cap) =>
      if !MaySeal(r.x) then r
      else
        var (y, rec) := Encrypt(e, r.x, msg, cap);
        r.(x := y, uses := if rec.Ok? then r.uses + [UseOf(r.gen, r.x.keys.req)] else r.uses)
    case Receive(enc, cap) => r.(x := Decrypt(e, r.x, enc, cap).0)
    case Rotate(all, capable, reply1, reply2) =>
      var o := Update(e, r.x, all, capable, reply1, reply2);
      if Moved(e, r.x, op) then
        var next := Updated(r.x, r.app);
        Run(o.x, next, next, r.epochs, r.uses + UsesOf(o.sealed, r.gen, next))
      else r.(x := o.x, uses := r.uses + UsesOf(o.sealed, r.gen, r.gen))
  }

  ghost function Execute(e: Env, r: Run, ops: seq<Op>): Run
    requires e.Valid() && r.x.Valid() && forall op :: op in ops ==> WellFormed(op)
    decreases |ops|
  {
    if ops == [] then r
    else
      StepValid(e, r, ops[0]);
      Execute(e, Step(e, r, ops[0]), ops[1..])
  }

  lemma StepValid(e: Env, r: Run, op: Op)
    requires e.Valid() && r.x.Valid() && WellFormed(op)
    ensures Step(e, r, op).x.Valid()
  {
    hide RecordIV, Open, Seal, Update;
    if op.Rotate? {
      UpdateValid(e, r.x, op.all, op.capable, op.reply1, op.reply2);
    }
  }

  lemma UpdateValid(e: Env, x: Ctx, all: bool, capable: bool, reply1: Reply, reply2: Reply)
    requires e.Valid() && x.Valid()
    ensures Update(e, x, all, capable, reply1, reply2).x.Valid()
  {
    hide RecordIV, Open, Seal, Begin, ExpandLabel;
  }

  /** A use under the key and base IV that its generation derives. */
  ghost predicate Genuine(c: Crypto, u: Use) {
    && u.gen.Derived? && |u.base| == IV_SIZE
    && u.key == Generated(c, u.gen.how, 0).key && u.base == Generated(c, u.gen.how, 0).iv
  }

  /** No two successful encryptions share a generation and an IV, and each used the keys of its generation. */
  ghost predicate Fresh(c: Crypto, uses: seq<Use>) {
    && (forall i :: 0 <= i < |uses| ==> Genuine(c, uses[i]))
    && (forall i, j :: 0 <= i < j < |uses| && uses[i].gen == uses[j].gen ==> uses[i].IV() != uses[j].IV())
  }

  /** A use of the current generation has a smaller number; one of the current lineage is no further along. */
  ghost predicate Past(c: Crypto, r: Run, u: Use) {
    && Genuine(c, u) && u.gen.epoch <= r.epochs
    && (r.app.Derived? && u.gen.epoch == r.app.epoch ==> Depth(u.gen.how) <= Depth(r.app.how))
    && (u.gen == r.gen ==> u.num < r.x.keys.req.num)
  }

  /** The keys in force and the application secret are those of the generations that name them. */
  ghost predicate Keyed(c: Crypto, r: Run) {
    && (r.gen.Derived? ==> r.gen.epoch <= r.epochs && r.x.keys.req == Generated(c, r.gen.how, r.x.keys.req.num))
    && (r.app.Derived? ==> r.app.epoch <= r.epochs && r.x.keys.reqApp == Secret(c, r.app.how))
    && (r.gen.Derived? && r.app.Derived? && r.gen.epoch == r.app.epoch ==> Depth(r.gen.how) <= Depth(r.app.how))
  }

  /** The 16-bit counter of the MCTP binding stops the sender; the 64-bit one of the TCG binding counts the uses. */
  predicate Bounded(x: Ctx, uses: nat) {
    if x.Format().Tcg? then x.keys.req.num <= uses else x.keys.req.num <= 0x1_0000
  }

  /** n more uses do not exhaust a 64-bit counter. */
  predicate Spare(r: Run, n: nat) {
    r.x.Format().Tcg? ==> |r.uses| + n < TWO64
  }

  ghost predicate Inv(c: Crypto, r: Run) {
    && r.x.Valid()
    && (MaySeal(r.x) ==> r.gen.Derived?) && (r.x.state == Connected ==> r.app.Derived?)
    && Keyed(c, r) && Bounded(r.x, |r.uses|)
    && (forall i :: 0 <= i < |r.uses| ==> Past(c, r, r.uses[i]))
    && Fresh(c, r.uses)
  }

  /** The next use of the current direction is fresh. */
  lemma UseKeepsInv(c: Crypto, r: Run, x': Ctx)
    requires Inv(c, r) && r.gen.Derived? && Spare(r, 1) && Room(r.x.Format(), r.x.keys.req)
    requires x'.Valid() && x'.state == r.x.state && x'.cfg == r.x.cfg
    requires x'.keys.req == r.x.keys.req.Next() && x'.keys.reqApp == r.x.keys.reqApp
    ensures Inv(c, r.(x := x', uses := r.uses + [UseOf(r.gen, r.x.keys.req)]))
  {
    hide RecordIV, Secret, TrafficKey, TrafficIv, Depth;
    var u := UseOf(r.gen, r.x.keys.req);
    forall i | 0 <= i < |r.uses| && r.uses[i].gen == u.gen
      ensures r.uses[i].IV() != u.IV()
    {
      assert Past(c, r, r.uses[i]);
      if r.uses[i].IV() == u.IV() {
        RecordIVInjective(u.base, r.uses[i].num, u.num);
      }
    }
  }

  /** A new generation of the application secret has no uses. */
  lemma RotationKeepsInv(c: Crypto, r: Run, x': Ctx)
    requires Inv(c, r) && r.app.Derived?
    requires x'.Valid() && x'.keys.req.num == 0 && x'.cfg == r.x.cfg
    requires
      var next := NextGeneration(r.x.ver, r.app.how);
      x'.keys.req == Generated(c, next, 0) && x'.keys.reqApp == Secret(c, next)
    ensures var next := Updated(r.x, r.app); Inv(c, r.(x := x', gen := next, app := next))
  {
    hide RecordIV, Secret, TrafficKey, TrafficIv;
  }

  /** A new run of the key schedule starts a generation that has no uses. */
  lemma DerivationKeepsInv(c: Crypto, r: Run, x': Ctx, how: Derivation, app: Generation)
    requires Inv(c, r) && x'.Valid() && x'.keys.req.num <= r.x.keys.req.num && x'.cfg == r.x.cfg
    requires x'.keys.req == Generated(c, how, x'.keys.req.num)
    requires
      || (app == Derived(r.epochs + 1, how) && x'.keys.reqApp == Secret(c, how))
      || (app == r.app && x'.keys.reqApp == r.x.keys.reqApp && (x'.state == Connected ==> app.Derived?))
    ensures Inv(c, Run(x', Derived(r.epochs + 1, how), app, r.epochs + 1, r.uses))
  {
    hide RecordIV, Secret, TrafficKey, TrafficIv;
  }

  /** KeyUpdate seals first under the old direction and then, only if the keys moved, under the new one. */
  lemma SealedByUpdate(e: Env, x: Ctx, all: bool, capable: bool, reply1: Reply, reply2: Reply)
    requires e.Valid() && x.Valid()
    ensures
      var o := Update(e, x, all, capable, reply1, reply2);
      var k := Restarted(UpdatedKeys(e.c, x.ver, x.keys, all));
      var d := k.req;
      && o.x.state == x.state && o.x.cfg == x.cfg
      && o.x.keys.reqApp == (if Ready(x, capable) && Proven(e, x, all, reply1) then k.reqApp else x.keys.reqApp)
      && (o.sealed != [] ==> Ready(x, capable) && Room(x.Format(), x.keys.req))
      && if Ready(x, capable) && Proven(e, x, all, reply1) then
           (o.sealed == [x.keys.req] && o.x.keys.req == d) || (o.sealed == [x.keys.req, d] && o.x.keys.req == d.Next())
         else
           (o.sealed == [] && o.x.keys.req == x.keys.req) || (o.sealed == [x.keys.req] && o.x.keys.req == x.keys.req.Next())
  {
    hide RecordIV, Open, Seal, Begin, Proven, UpdatedKeys, Announce, Decrypt, Unframe;
    if Ready(x, capable) {
      BeginAllOrNothing(e, x, all, reply1);
      BeginSeals(e, x, all, reply1);
      var o := Begin(e, x, all, reply1);
      DecryptKeepsRequestSide(e, Announce(e, o.x, OP_VERIFY_NEW_KEY, XFER_BUF).0, reply2);
    }
  }

  /** The request side of an update, whether the other direction restarts or not. */
  lemma BeginSeals(e: Env, x: Ctx, all: bool, reply: Reply)
    requires e.Valid() && x.Valid() && BeginsRight(e, x, all, reply)
    ensures
      var o := Begin(e, x, all, reply);
      var k := Restarted(UpdatedKeys(e.c, x.ver, x.keys, all));
      o.x.keys.reqApp == (if Proven(e, x, all, reply) then k.reqApp else x.keys.reqApp)
      && (Proven(e, x, all, reply) ==> o.x.keys.req == k.req)
  {
    hide Begin, Proven, UpdatedKeys, e.Valid;
  }

  lemma DecryptKeepsRequestSide(e: Env, x: Ctx, reply: Reply)
    requires e.Valid() && x.Valid()
    ensures reply.Some? ==> Decrypt(e, x, reply.value, 32).0.keys.req == x.keys.req
    ensures reply.Some? ==> Decrypt(e, x, reply.value, 32).0.state == x.state
    ensures reply.Some? ==> Decrypt(e, x, reply.value, 32).0.cfg == x.cfg
    ensures reply.Some? ==> Decrypt(e, x, reply.value, 32).0.keys.reqApp == x.keys.reqApp
  {
    hide RecordIV, Open, Unframe;
  }

  /** Of the context, only the request direction, the state and the binding matter. */
  lemma SameRequestSide(c: Crypto, r: Run, x': Ctx)
    requires Inv(c, r) && x'.Valid() && x'.state == r.x.state && x'.cfg == r.x.cfg
    requires x'.keys.req == r.x.keys.req && x'.keys.reqApp == r.x.keys.reqApp
    ensures Inv(c, r.(x := x'))
  {
    hide RecordIV, Secret, TrafficKey, TrafficIv, Depth;
  }

  /** What an update derives is the next generation of the application secret. */
  lemma RotationDerives(e: Env, x: Ctx, how: Derivation, all: bool)
    requires e.Valid() && x.Valid() && x.keys.reqApp == Secret(e.c, how)
    ensures
      var k := Restarted(UpdatedKeys(e.c, x.ver, x.keys, all));
      var next := NextGeneration(x.ver, how);
      k.req == Generated(e.c, next, 0) && k.reqApp == Secret(e.c, next) && k.req.Valid()
  {
  }

  lemma RotateKeepsInv(e: Env, r: Run, op: Op)
    requires e.Valid() && Inv(e.c, r) && op.Rotate? && Spare(r, 2)
    ensures Inv(e.c, Step(e, r, op)) && |Step(e, r, op).uses| <= |r.uses| + 2 && Step(e, r, op).x.cfg == r.x.cfg
  {
    hide RecordIV, Open, Seal, Update, Proven, UpdatedKeys, Past, Fresh, Keyed, Secret, Generated, e.Valid;
    var o := Update(e, r.x, op.all, op.capable, op.reply1, op.reply2);
    SealedByUpdate(e, r.x, op.all, op.capable, op.reply1, op.reply2);
    UpdateValid(e, r.x, op.all, op.capable, op.reply1, op.reply2);
    var t := Step(e, r, op);
    if o.sealed == [] {
      assert t.uses == r.uses;
      SameRequestSide(e.c, r, o.x);
    } else {
      var x1 := r.x.(keys := r.x.keys.(req := r.x.keys.req.Next()));
      UseKeepsInv(e.c, r, x1);
      var r1 := r.(x := x1, uses := r.uses + [UseOf(r.gen, r.x.keys.req)]);
      if !Moved(e, r.x, op) {
        assert t.uses == r1.uses;
        SameRequestSide(e.c, r1, o.x);
      } else {
        MovedKeepsInv(e, r, r1, op);
      }
    }
  }

  ghost predicate SealsAndMoves(e: Env, x: Ctx, op: Op)
    requires e.Valid() && x.Valid() && op.Rotate?
  {
    Moved(e, x, op) && Update(e, x, op.all, op.capable, op.reply1, op.reply2).sealed != []
  }

  ghost predicate StepsSafely(e: Env, r: Run, op: Op)
    requires e.Valid() && r.x.Valid() && op.Rotate?
  {
    Inv(e.c, Step(e, r, op)) && |Step(e, r, op).uses| <= |r.uses| + 2
  }

  /** The second half: the keys have moved, and perhaps a record has gone out under the new ones. */
  lemma MovedKeepsInv(e: Env, r: Run, r1: Run, op: Op)
    requires e.Valid() && r.x.Valid() && op.Rotate? && r.app.Derived? && Keyed(e.c, r)
    requires r1 == r.(x := r1.x, uses := r.uses + [UseOf(r.gen, r.x.keys.req)]) && Inv(e.c, r1) && Spare(r1, 1)
    requires r1.x == r.x.(keys := r.x.keys.(req := r.x.keys.req.Next()))
    ensures SealsAndMoves(e, r.x, op) ==> StepsSafely(e, r, op)
  {
    hide RecordIV, Open, Seal, Update, Proven, UpdatedKeys, Past, Fresh, Secret, Generated, Restarted, e.Valid;
    if SealsAndMoves(e, r.x, op) {
      var o := Update(e, r.x, op.all, op.capable, op.reply1, op.reply2);
      SealedByUpdate(e, r.x, op.all, op.capable, op.reply1, op.reply2);
      UpdateValid(e, r.x, op.all, op.capable, op.reply1, op.reply2);
      var k := Restarted(UpdatedKeys(e.c, r.x.ver, r.x.keys, op.all));
      RotationDerives(e, r.x, r.app.how, op.all);
      RestartedNums(k, e.c, r.x, op.all);
      var x2 := r.x.(keys := r.x.keys.(req := k.req, reqApp := k.reqApp));
      RotationKeepsInv(e.c, r1, x2);
      var next := Updated(r.x, r.app);
      var r2 := r1.(x := x2, gen := next, app := next);
      var t := Step(e, r, op);
      if |o.sealed| == 2 {
        UseKeepsInv(e.c, r2, o.x);
        assert t.uses == r2.uses + [UseOf(r2.gen, k.req)];
      } else {
        assert t.uses == r1.uses;
        SameRequestSide(e.c, r2, o.x);
      }
    }
  }

  lemma RestartedNums(k: Keys, c: Crypto, x: Ctx, all: bool)
    requires k == Restarted(UpdatedKeys(c, x.ver, x.keys, all))
    ensures k.req.num == 0
  {
  }

  lemma SealedHasRoom(e: Env, x: Ctx, msg: bytes, cap: nat)
    requires e.Valid() && x.Valid() && Encrypt(e, x, msg, cap).1.Ok?
    ensures Room(x.Format(), x.keys.req)
  {
  }

  lemma HandshakeKeepsInv(e: Env, r: Run, op: Op)
    requires e.Valid() && Inv(e.c, r) && WellFormed(op) && op.Handshake?
    ensures Inv(e.c, Step(e, r, op))
  {
    hide RecordIV, Past, Fresh, Secret, TrafficKey, TrafficIv, FinishedKey, ExpandLabel;
    StepValid(e, r, op);
    var how := HandshakeSecret(op.ver, "req hs data", op.secret, op.th1);
    SecretOfHandshake(e.c, how);
    DerivationKeepsInv(e.c, r, Step(e, r, op).x, how, r.app);
  }

  lemma SecretOfHandshake(c: Crypto, d: Derivation)
    requires d.HandshakeSecret?
    ensures Secret(c, d) == ExpandLabel(c, d.ver, d.handshake, d.purpose, d.th1, HASH_SIZE)
  {
  }

  lemma SecretOfApplication(c: Crypto, d: Derivation)
    requires d.ApplicationSecret?
    ensures Secret(c, d) == ExpandLabel(c, d.ver, MasterSecret(c, d.ver, d.handshake), d.purpose, c.hash(d.transcript), HASH_SIZE)
  {
  }

  lemma FinishedKeepsInv(e: Env, r: Run)
    requires e.Valid() && Inv(e.c, r)
    ensures Inv(e.c, Step(e, r, Finished))
  {
    hide RecordIV, Past, Fresh, Secret, TrafficKey, TrafficIv, ExpandLabel, MasterSecret;
    StepValid(e, r, Finished);
    if r.x.state == KeyEx {
      var how := ApplicationSecret(r.x.ver, "req app data", r.x.keys.handshake, r.x.transcript);
      SecretOfApplication(e.c, how);
      DerivationKeepsInv(e.c, r, Step(e, r, Finished).x, how, Derived(r.epochs + 1, how));
    }
  }

  lemma StepKeepsInv(e: Env, r: Run, op: Op)
    requires e.Valid() && Inv(e.c, r) && WellFormed(op) && Spare(r, 2)
    ensures Inv(e.c, Step(e, r, op)) && |Step(e, r, op).uses| <= |r.uses| + 2 && Step(e, r, op).x.cfg == r.x.cfg
  {
    hide RecordIV, Open, Seal, Update, ExpandLabel, Secret, e.Valid;
    StepValid(e, r, op);
    match op
    case Rotate(_, _, _, _) => RotateKeepsInv(e, r, op);
    case Handshake(_, _, _, _, _) => HandshakeKeepsInv(e, r, op);
    case Finished => FinishedKeepsInv(e, r);
    case Transmit(msg, cap) =>
      if MaySeal(r.x) && Encrypt(e, r.x, msg, cap).1.Ok? {
        SealedHasRoom(e, r.x, msg, cap);
        UseKeepsInv(e.c, r, Step(e, r, op).x);
      }
    case Receive(_, _) => SameRequestSide(e.c, r, Step(e, r, op).x);
    case _ =>
  }

  /**
   * Nonce uniqueness. Over any sequence of resets, handshakes (completed or not), key derivations, secured
   * messages and key updates, accepted, rejected or rolled back, no two records are sealed under the same
   * key generation and IV, each is sealed under the keys that its generation derives, and none under zeroed keys.
   */
  lemma {:induction false} NoNonceReuse(e: Env, r: Run, ops: seq<Op>)
    requires e.Valid() && Inv(e.c, r)
    requires forall op :: op in ops ==> WellFormed(op)
    requires Spare(r, 2 * |ops|)
    ensures Inv(e.c, Execute(e, r, ops)) && Fresh(e.c, Execute(e, r, ops).uses)
    decreases |ops|
  {
    hide Inv, Step;
    InvMeans(e.c, r);
    if ops != [] {
      StepValid(e, r, ops[0]);
      StepKeepsInv(e, r, ops[0]);
      NoNonceReuse(e, Step(e, r, ops[0]), ops[1..]);
    }
  }

  lemma InvMeans(c: Crypto, r: Run)
    requires Inv(c, r)
    ensures r.x.Valid() && Fresh(c, r.uses)
  {
  }

  /** Two uses of one key with one IV can only be two derivations, at different places of the run, of the same key. */
  lemma SharedNonceIsCollision(c: Crypto, uses: seq<Use>, i: nat, j: nat)
    requires Fresh(c, uses) && i < j < |uses| && uses[i].key == uses[j].key && uses[i].IV() == uses[j].IV()
    ensures
      var g, h := uses[i].gen, uses[j].gen;
      && g.Derived? && h.Derived? && (g.epoch != h.epoch || g.how != h.how)
      && TrafficKey(c, g.how.ver, Secret(c, g.how)) == TrafficKey(c, h.how.ver, Secret(c, h.how))
  {
    hide RecordIV, Secret, TrafficKey, TrafficIv;
    assert Genuine(c, uses[i]) && Genuine(c, uses[j]);
  }

  /** A newly initialised context starts such a run. */
  lemma InitialInv(c: Crypto, x: Ctx)
    requires x.Valid() && x.state == Init && x.keys == NO_KEYS
    ensures Inv(c, Run(x, Zeroed, Zeroed, 0, []))
  {
  }
}
