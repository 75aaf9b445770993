/**
 * What the record format delivers over whole runs: authenticated in-order delivery from one sender to one
 * receiver over a network that may drop, repeat, reorder, alter or invent records, and the counters of the
 * two ends of a request/response channel.
 */
module Channel {
  import opened Bytes
  import opened Crypto
  import opened Records
  import opened Context

  /** One sealed record: the AEAD inputs that produced it and the message it carries. */
  datatype Sealed = Sealed(iv: bytes, aad: bytes, framed: bytes, app: bool, msg: bytes)

  datatype Event =
    | Send(app: bool, msg: bytes, pad: bytes, cap: nat)
    | Deliver(rec: bytes)

  datatype Link = Link(tx: Dir, rx: Dir, log: seq<Sealed>, got: seq<bytes>)

  ghost predicate Wellformed(f: Format, e: Event) {
    e.Send? ==> |e.pad| == PadSize(f, |e.msg|) && (f.Mctp? && e.app ==> e.msg != [])
  }

  /** The sender seals with its direction, the receiver opens with its own; a rejected record changes nothing. */
  ghost function Step(c: Crypto, f: Format, sid: nat, s: Link, e: Event): Link
    requires s.tx.Valid() && s.rx.Valid()
  {
    match e
    case Send(app, msg, pad, cap) =>
      var framed := Frame(f, app, msg, pad);
      var aad := Header(f, sid, s.tx.num, |framed| + TAG_SIZE);
      if Seal(c, f, app, sid, s.tx, msg, pad, cap).Err? then s
      else s.(tx := s.tx.Next(), log := s.log + [Sealed(RecordIV(s.tx.iv, s.tx.num), aad, framed, app, msg)])
    case Deliver(rec) =>
      match Open(c, f, sid, s.rx, rec)
      case Rejected(_) => s
      case Verified(framed) => s.(rx := s.rx.Next(), got := s.got + [framed])
  }

  ghost function Run(c: Crypto, f: Format, sid: nat, s: Link, evs: seq<Event>): Link
    requires s.tx.Valid() && s.rx.Valid()
    decreases |evs|
  {
    if evs == [] then s else Run(c, f, sid, Step(c, f, sid, s, evs[0]), evs[1..])
  }

  /** AEAD integrity for one delivery: what opens under the traffic key was sealed by the sender before. */
  ghost predicate Unforged(c: Crypto, f: Format, sid: nat, s: Link, e: Event)
    requires s.rx.Valid()
  {
    e.Deliver? && |e.rec| >= HeaderSize(f) + TAG_SIZE ==>
      var h := HeaderSize(f);
      var len := Get16(e.rec, h - 2);
      var iv := RecordIV(s.rx.iv, s.rx.num);
      h + len <= |e.rec| && c.open(s.rx.key, iv, e.rec[..h], e.rec[h..h + len]).Some? ==>
        exists i :: && 0 <= i < |s.log| && s.log[i].iv == iv && s.log[i].aad == e.rec[..h]
                    && s.log[i].framed == c.open(s.rx.key, iv, e.rec[..h], e.rec[h..h + len]).value
  }

  ghost predicate UnforgedRun(c: Crypto, f: Format, sid: nat, s: Link, evs: seq<Event>)
    requires s.tx.Valid() && s.rx.Valid()
    decreases |evs|
  {
    evs == [] ||
    (Wellformed(f, evs[0]) && Unforged(c, f, sid, s, evs[0]) && UnforgedRun(c, f, sid, Step(c, f, sid, s, evs[0]), evs[1..]))
  }

  ghost predicate InStep(f: Format, s: Link) {
    && s.tx.Valid() && s.rx.Valid()
    && s.tx.key == s.rx.key && s.tx.iv == s.rx.iv
    && s.tx.num == |s.log| && s.rx.num == |s.got| <= |s.log| && (f.Mctp? ==> |s.log| <= 0x1_0000)
    && (forall i :: 0 <= i < |s.log| ==> s.log[i].iv == RecordIV(s.tx.iv, i))
    && (forall i :: 0 <= i < |s.log| ==> LoggedFrame(f, s.log[i]))
    && (forall i :: 0 <= i < |s.got| ==> s.got[i] == s.log[i].framed)
  }

  ghost predicate LoggedFrame(f: Format, r: Sealed) {
    exists pad :: r.framed == Frame(f, r.app, r.msg, pad) && Carried(f, r.app, r.msg, pad, |r.msg|)
  }

  lemma SendKeepsInStep(c: Crypto, f: Format, sid: nat, s: Link, e: Event)
    requires e.Send? && InStep(f, s) && (f.Tcg? ==> |s.log| + 1 < TWO64) && Wellformed(f, e)
    ensures InStep(f, Step(c, f, sid, s, e)) && s.log <= Step(c, f, sid, s, e).log
    ensures |Step(c, f, sid, s, e).log| <= |s.log| + 1
  {
    hide RecordIV;
    var t := Step(c, f, sid, s, e);
    if t != s {
      var r := t.log[|s.log|];
      assert Carried(f, e.app, e.msg, e.pad, |e.msg|);
      assert LoggedFrame(f, r);
    }
  }

  /** The IV of a logged record determines its position. */
  lemma IvGivesPosition(f: Format, s: Link, i: nat)
    requires InStep(f, s) && i < |s.log| && s.log[i].iv == RecordIV(s.rx.iv, s.rx.num)
    ensures i == |s.got|
  {
    hide RecordIV;
    RecordIVInjective(s.rx.iv, i, s.rx.num);
  }

  lemma AcceptKeepsInStep(f: Format, s: Link, t: Link)
    requires InStep(f, s) && |s.got| < |s.log|
    requires t == s.(rx := s.rx.Next(), got := s.got + [s.log[|s.got|].framed])
    ensures InStep(f, t)
  {
  }

  /** A record that verifies was logged when the sender sealed it. */
  lemma VerifiedWasLogged(c: Crypto, f: Format, sid: nat, s: Link, e: Event)
    requires e.Deliver? && s.rx.Valid() && Unforged(c, f, sid, s, e) && Open(c, f, sid, s.rx, e.rec).Verified?
    ensures exists i :: 0 <= i < |s.log| && s.log[i].iv == RecordIV(s.rx.iv, s.rx.num)
                        && s.log[i].framed == Open(c, f, sid, s.rx, e.rec).framed
  {
    hide RecordIV, GetLE, Open;
    OpenVerified(c, f, sid, s.rx, e.rec);
  }

  lemma DeliverKeepsInStep(c: Crypto, f: Format, sid: nat, s: Link, e: Event)
    requires e.Deliver? && InStep(f, s) && Unforged(c, f, sid, s, e)
    ensures InStep(f, Step(c, f, sid, s, e)) && Step(c, f, sid, s, e).log == s.log
  {
    hide RecordIV, Open, Unforged, LoggedFrame;
    if Open(c, f, sid, s.rx, e.rec).Verified? {
      VerifiedWasLogged(c, f, sid, s, e);
      var i :| 0 <= i < |s.log| && s.log[i].iv == RecordIV(s.rx.iv, s.rx.num)
               && s.log[i].framed == Open(c, f, sid, s.rx, e.rec).framed;
      IvGivesPosition(f, s, i);
      AcceptKeepsInStep(f, s, Step(c, f, sid, s, e));
    }
  }

  lemma StepKeepsInStep(c: Crypto, f: Format, sid: nat, s: Link, e: Event)
    requires InStep(f, s) && (f.Tcg? ==> |s.log| + 1 < TWO64)
    requires Wellformed(f, e) && Unforged(c, f, sid, s, e)
    ensures InStep(f, Step(c, f, sid, s, e)) && |Step(c, f, sid, s, e).log| <= |s.log| + 1
    ensures s.log <= Step(c, f, sid, s, e).log
  {
    if e.Send? {
      SendKeepsInStep(c, f, sid, s, e);
    } else {
      DeliverKeepsInStep(c, f, sid, s, e);
    }
  }

  /**
   * In-order authenticated delivery. However sending and delivery interleave and whatever is delivered, the
   * i-th record that verifies carries exactly the sender's i-th message, and the receiver's counter is the
   * number of records verified. Only the 64-bit counter of the TCG binding needs a bound on the run.
   */
  lemma {:induction false} InOrderDelivery(c: Crypto, f: Format, sid: nat, s: Link, evs: seq<Event>)
    requires InStep(f, s) && (f.Tcg? ==> |s.log| + |evs| < TWO64)
    requires UnforgedRun(c, f, sid, s, evs)
    ensures
      var t := Run(c, f, sid, s, evs);
      && InStep(f, t)
      && s.log <= t.log
      && t.rx.num == |t.got| <= |t.log|
      && forall i, cap :: 0 <= i < |t.got| && cap >= |t.log[i].msg| ==>
           Unframe(f, t.log[i].app, t.got[i], cap) == Ok(t.log[i].msg)
    decreases |evs|
  {
    if evs != [] {
      StepKeepsInStep(c, f, sid, s, evs[0]);
      InOrderDelivery(c, f, sid, Step(c, f, sid, s, evs[0]), evs[1..]);
    } else {
      forall i, cap | 0 <= i < |s.got| && cap >= |s.log[i].msg|
        ensures Unframe(f, s.log[i].app, s.got[i], cap) == Ok(s.log[i].msg)
      {
        var pad :| s.log[i].framed == Frame(f, s.log[i].app, s.log[i].msg, pad)
                   && Carried(f, s.log[i].app, s.log[i].msg, pad, |s.log[i].msg|);
        FrameUnframe(f, s.log[i].app, s.log[i].msg, pad, cap);
      }
    }
  }

  /** A genuine record is accepted at its own position in its own session and nowhere else. */
  lemma OnlyNextRecordOpens(c: Crypto, f: Format, app: bool, sid: nat, d: Dir, p: bytes, pad: bytes, cap: nat,
                            sid': nat, r: Dir)
    requires c.AeadCorrect() && d.Valid() && r.Valid() && sid < 0x1_0000_0000
    requires |pad| == PadSize(f, |p|) && Seal(c, f, app, sid, d, p, pad, cap).Ok?
    requires r.key == d.key && r.iv == d.iv
    ensures
      var o := Open(c, f, sid', r, Seal(c, f, app, sid, d, p, pad, cap).value);
      o == if sid' != sid then Rejected(SessionInvalid)
           else if r.num != d.num then Rejected(SequenceErr)
           else Verified(Frame(f, app, p, pad))
  {
    hide RecordIV, LE, GetLE, Frame, PadSize, Header;
    var framed := Frame(f, app, p, pad);
    FrameSize(f, app, p, pad);
    var h := Header(f, sid, d.num, |framed| + TAG_SIZE);
    HeaderFields(f, sid, d.num, |framed| + TAG_SIZE, c.seal(d.key, RecordIV(d.iv, d.num), h, framed));
    if sid' == sid && r.num == d.num {
      SealThenOpen(c, f, app, sid, d, p, pad, cap);
    }
  }

  // ----- The two ends of a request/response channel -----

  /** One end's view of both directions: what the requester sends and what the responder sends. */
  datatype End = End(req: Dir, rsp: Dir)

  datatype Pair = Pair(requester: End, responder: End)

  datatype Exchange = Exchange(ask: bytes, askPad: bytes, answer: bytes, answerPad: bytes)

  ghost predicate Mirrored(w: Pair) {
    w.requester == w.responder && w.requester.req.Valid() && w.requester.rsp.Valid()
  }

  /**
   * One SecuredXfer: the requester seals, the responder opens and seals its answer, the requester opens.
   * Either side stops where it fails; delivered says what each side received.
   */
  function Transact(c: Crypto, f: Format, sid: nat, w: Pair, x: Exchange): (r: (Pair, Option<bytes>, Option<bytes>))
    requires Mirrored(w)
  {
    var q, p := w.requester, w.responder;
    match Seal(c, f, false, sid, q.req, x.ask, x.askPad, MAX_MSG_SIZE + 80)
    case Err(_) => (w, None, None)
    case Ok(rec) =>
      var q1 := q.(req := q.req.Next());
      match Open(c, f, sid, p.req, rec)
      case Rejected(_) => (Pair(q1, p), None, None)
      case Verified(framed) =>
        var p1 := p.(req := p.req.Next());
        var asked := Unframe(f, false, framed, MAX_MSG_SIZE);
        if asked.Err? then (Pair(q1, p1), None, None) else
        match Seal(c, f, false, sid, p1.rsp, x.answer, x.answerPad, MAX_MSG_SIZE + 80)
        case Err(_) => (Pair(q1, p1), Some(asked.value), None)
        case Ok(rec2) =>
          var p2 := p1.(rsp := p1.rsp.Next());
          match Open(c, f, sid, q1.rsp, rec2)
          case Rejected(_) => (Pair(q1, p2), Some(asked.value), None)
          case Verified(framed2) =>
            var q2 := q1.(rsp := q1.rsp.Next());
            match Unframe(f, false, framed2, MAX_MSG_SIZE)
            case Err(_) => (Pair(q2, p2), Some(asked.value), None)
            case Ok(answered) => (Pair(q2, p2), Some(asked.value), Some(answered))
  }

  /** Mirrored ends stay mirrored, and each message either arrives unchanged or was never sealed. */
  lemma TransactMirrors(c: Crypto, f: Format, sid: nat, w: Pair, x: Exchange)
    requires c.AeadCorrect() && Mirrored(w) && sid < 0x1_0000_0000
    requires |x.askPad| == PadSize(f, |x.ask|) && |x.answerPad| == PadSize(f, |x.answer|)
    ensures
      var (w', asked, answered) := Transact(c, f, sid, w, x);
      var sealed := Seal(c, f, false, sid, w.requester.req, x.ask, x.askPad, MAX_MSG_SIZE + 80).Ok?;
      var replied := sealed && Seal(c, f, false, sid, w.requester.rsp, x.answer, x.answerPad, MAX_MSG_SIZE + 80).Ok?;
      && Mirrored(w')
      && asked == (if sealed then Some(x.ask) else None)
      && answered == (if replied then Some(x.answer) else None)
      && w'.requester == End(if sealed then w.requester.req.Next() else w.requester.req,
                             if replied then w.requester.rsp.Next() else w.requester.rsp)
  {
    var q := w.requester;
    if Seal(c, f, false, sid, q.req, x.ask, x.askPad, MAX_MSG_SIZE + 80).Ok? {
      SealThenOpen(c, f, false, sid, q.req, x.ask, x.askPad, MAX_MSG_SIZE + 80);
      FrameUnframe(f, false, x.ask, x.askPad, MAX_MSG_SIZE);
      if Seal(c, f, false, sid, q.rsp, x.answer, x.answerPad, MAX_MSG_SIZE + 80).Ok? {
        SealThenOpen(c, f, false, sid, q.rsp, x.answer, x.answerPad, MAX_MSG_SIZE + 80);
        FrameUnframe(f, false, x.answer, x.answerPad, MAX_MSG_SIZE);
      }
    }
  }

  /** What the two sides received in one exchange. */
  datatype Heard = Heard(asked: Option<bytes>, answered: Option<bytes>)

  /** A message goes through when it is short enough and, in the MCTP binding, its number fits 16 bits. */
  predicate Passes(f: Format, d: Dir, p: bytes) {
    |p| <= XFER_MSG_SIZE && (f.Mctp? ==> d.num <= 0xFFFF)
  }

  /** The channel without any cryptography: what passes arrives unchanged and counts, what does not pass changes nothing. */
  function IdealExchange(f: Format, s: End, x: Exchange): (End, Heard) {
    if !Passes(f, s.req, x.ask) then (s, Heard(None, None))
    else if !Passes(f, s.rsp, x.answer) then (s.(req := s.req.Next()), Heard(Some(x.ask), None))
    else (End(s.req.Next(), s.rsp.Next()), Heard(Some(x.ask), Some(x.answer)))
  }

  function IdealRun(f: Format, s: End, xs: seq<Exchange>): (End, seq<Heard>)
    decreases |xs|
  {
    if xs == [] then (s, [])
    else
      var (s1, h) := IdealExchange(f, s, xs[0]);
      var (s2, rest) := IdealRun(f, s1, xs[1..]);
      (s2, [h] + rest)
  }

  ghost predicate Padded(f: Format, xs: seq<Exchange>) {
    forall x :: x in xs ==> |x.askPad| == PadSize(f, |x.ask|) && |x.answerPad| == PadSize(f, |x.answer|)
  }

  lemma FrameFits(f: Format, p: bytes, pad: bytes)
    requires |pad| == PadSize(f, |p|)
    ensures |Frame(f, false, p, pad)| <= |p| + 17
  {
  }

  /** A record is sealed exactly when the message passes. */
  lemma SealsWhatPasses(c: Crypto, f: Format, sid: nat, d: Dir, p: bytes, pad: bytes)
    requires d.Valid() && |pad| == PadSize(f, |p|)
    ensures Seal(c, f, false, sid, d, p, pad, MAX_MSG_SIZE + 80).Ok? <==> Passes(f, d, p)
  {
    hide Record, Frame, PadSize;
    FrameFits(f, p, pad);
  }

  /** One secured exchange between mirrored ends is one exchange of the ideal channel, on both ends. */
  lemma TransactIdeal(c: Crypto, f: Format, sid: nat, w: Pair, x: Exchange)
    requires c.AeadCorrect() && Mirrored(w) && sid < 0x1_0000_0000 && Padded(f, [x])
    ensures
      var (w', asked, answered) := Transact(c, f, sid, w, x);
      var (s, h) := IdealExchange(f, w.requester, x);
      Mirrored(w') && w' == Pair(s, s) && Heard(asked, answered) == h
  {
    hide Transact, Record, Frame, PadSize;
    assert x in [x];
    TransactMirrors(c, f, sid, w, x);
    SealsWhatPasses(c, f, sid, w.requester.req, x.ask, x.askPad);
    SealsWhatPasses(c, f, sid, w.requester.rsp, x.answer, x.answerPad);
  }

  ghost function TransactAll(c: Crypto, f: Format, sid: nat, w: Pair, xs: seq<Exchange>): (Pair, seq<Heard>)
    requires c.AeadCorrect() && Mirrored(w) && sid < 0x1_0000_0000 && Padded(f, xs)
    decreases |xs|
  {
    if xs == [] then (w, [])
    else
      TransactMirrors(c, f, sid, w, xs[0]);
      var (w1, asked, answered) := Transact(c, f, sid, w, xs[0]);
      var (w2, rest) := TransactAll(c, f, sid, w1, xs[1..]);
      (w2, [Heard(asked, answered)] + rest)
  }

  /**
   * Refinement: over any sequence of exchanges the secured channel is the ideal one. Both ends keep equal keys,
   * base IVs and counters, and hear exactly what passes.
   */
  lemma {:induction false} ExchangesStayMirrored(c: Crypto, f: Format, sid: nat, w: Pair, xs: seq<Exchange>)
    requires c.AeadCorrect() && Mirrored(w) && sid < 0x1_0000_0000 && Padded(f, xs)
    ensures
      var (w', heard) := TransactAll(c, f, sid, w, xs);
      var (s, heard') := IdealRun(f, w.requester, xs);
      Mirrored(w') && w' == Pair(s, s) && heard == heard'
    decreases |xs|
  {
    hide Transact, IdealExchange;
    if xs != [] {
      assert xs[0] in xs;
      TransactIdeal(c, f, sid, w, xs[0]);
      ExchangesStayMirrored(c, f, sid, Transact(c, f, sid, w, xs[0]).0, xs[1..]);
    }
  }

  /** How many requests, and how many answers, were received. */
  function Asks(hs: seq<Heard>): nat {
    if hs == [] then 0 else (if hs[0].asked.Some? then 1 else 0) + Asks(hs[1..])
  }

  function Answers(hs: seq<Heard>): nat {
    if hs == [] then 0 else (if hs[0].answered.Some? then 1 else 0) + Answers(hs[1..])
  }

  function After(d: Dir, n: nat): Dir {
    Dir(d.key, d.iv, (d.num + n) % TWO64)
  }

  lemma NextThenAfter(d: Dir, n: nat)
    requires d.Valid()
    ensures After(d.Next(), n) == After(d, n + 1) && After(d, 0) == d && d.Next().Valid()
  {
  }

  /** Of the ideal channel: each counter has moved by exactly the messages received. */
  lemma {:induction false} IdealCounts(f: Format, s: End, xs: seq<Exchange>)
    requires s.req.Valid() && s.rsp.Valid()
    ensures
      var (s', heard) := IdealRun(f, s, xs);
      |heard| == |xs| && s' == End(After(s.req, Asks(heard)), After(s.rsp, Answers(heard)))
    decreases |xs|
  {
    hide After;
    NextThenAfter(s.req, 0);
    NextThenAfter(s.rsp, 0);
    if xs != [] {
      var (s1, h) := IdealExchange(f, s, xs[0]);
      IdealCounts(f, s1, xs[1..]);
      var rest := IdealRun(f, s1, xs[1..]).1;
      assert ([h] + rest)[1..] == rest;
      NextThenAfter(s.req, Asks(rest));
      NextThenAfter(s.rsp, Answers(rest));
    }
  }

  // ----- The same between two contexts -----

  /** wolfSPDM_SecuredXfer of x, with the responder y as it decrypts and encrypts: directions swapped. */
  ghost function SecuredXfer(e: Env, re: Env, x: Ctx, y: Ctx, ask: bytes, answer: bytes): (r: (Ctx, Ctx, Heard))
    requires e.Valid() && re.Valid() && x.Valid() && y.Valid()
  {
    var (x1, rec) := Encrypt(e, x, ask, MAX_MSG_SIZE + 80);
    if rec.Err? then (x, y, Heard(None, None))
    else
      var (y1, asked) := RespDecrypt(re, y, rec.value, MAX_MSG_SIZE);
      if asked.Err? then (x1, y1, Heard(None, None))
      else
        OpenedValid(re, y, rec.value);
        var (y2, rec2) := RespEncrypt(re, y1, answer, MAX_MSG_SIZE + 80);
        if rec2.Err? then (x1, y2, Heard(Some(asked.value), None))
        else
          SealedValid(e, x, ask);
          var (x2, answered) := Decrypt(e, x1, rec2.value, MAX_MSG_SIZE);
          (x2, y2, Heard(Some(asked.value), if answered.Ok? then Some(answered.value) else None))
  }

  lemma OpenedValid(e: Env, x: Ctx, rec: bytes)
    requires e.Valid() && x.Valid()
    ensures RespDecrypt(e, x, rec, MAX_MSG_SIZE).0.Valid()
  {
    hide Open, Unframe, e.Valid;
  }

  lemma SealedValid(e: Env, x: Ctx, p: bytes)
    requires e.Valid() && x.Valid()
    ensures Encrypt(e, x, p, MAX_MSG_SIZE + 80).0.Valid()
  {
    hide Seal, Padding, DrawsAfter, e.Valid;
  }

  function Swapped(x: Ctx): Ctx {
    x.(keys := x.keys.(req := x.keys.rsp, rsp := x.keys.req))
  }

  /** Swap, operate, swap back: what the responder does is what the requester does on a context with swapped directions. */
  lemma SwapRefines(e: Env, y: Ctx, p: bytes, rec: bytes, cap: nat)
    requires e.Valid() && y.Valid()
    ensures Swapped(y).Valid()
    ensures
      var (z, s) := Encrypt(e, Swapped(y), p, cap);
      RespEncrypt(e, y, p, cap) == (Swapped(z), s)
    ensures
      var (z, m) := Decrypt(e, Swapped(y), rec, cap);
      RespDecrypt(e, y, rec, cap) == (Swapped(z), m)
  {
    hide Open, Unframe, Seal, e.Valid;
  }

  /** Two contexts in one session. */
  ghost predicate Joined(x: Ctx, y: Ctx) {
    && x.Valid() && y.Valid() && x.Format() == y.Format() && x.sess.sid == y.sess.sid
    && x.keys.req == y.keys.req && x.keys.rsp == y.keys.rsp
  }

  function EndOf(x: Ctx): End {
    End(x.keys.req, x.keys.rsp)
  }

  lemma EncryptPasses(e: Env, x: Ctx, p: bytes)
    requires e.Valid() && x.Valid()
    ensures
      var (x1, rec) := Encrypt(e, x, p, MAX_MSG_SIZE + 80);
      && (rec.Ok? <==> Passes(x.Format(), x.keys.req, p))
      && (rec.Ok? ==> x1 == x.(draws := x1.draws, keys := x.keys.(req := x.keys.req.Next())))
      && (rec.Err? ==> x1 == x)
  {
    hide Record, Frame, PadSize, Seal;
    SealsWhatPasses(e.c, x.Format(), x.sess.sid, x.keys.req, p, Padding(e, x.Format(), x.draws, |p|));
  }

  /** What Encrypt seals, RespDecrypt of a joined context opens. */
  lemma EncryptThenRespDecrypt(e: Env, re: Env, x: Ctx, y: Ctx, p: bytes)
    requires e.Valid() && re.Valid() && e.c == re.c && e.c.AeadCorrect() && Joined(x, y)
    requires Encrypt(e, x, p, MAX_MSG_SIZE + 80).1.Ok?
    ensures
      RespDecrypt(re, y, Encrypt(e, x, p, MAX_MSG_SIZE + 80).1.value, MAX_MSG_SIZE)
      == (y.(keys := y.keys.(req := y.keys.req.Next())), Ok(p))
  {
    hide RecordIV, Open, Unframe, Frame, PadSize, Seal, Record;
    var f, pad := x.Format(), Padding(e, x.Format(), x.draws, |p|);
    EncryptPasses(e, x, p);
    SealThenOpen(e.c, f, false, x.sess.sid, x.keys.req, p, pad, MAX_MSG_SIZE + 80);
    FrameUnframe(f, false, p, pad, MAX_MSG_SIZE);
  }

  /**
   * Requester Decrypt of RespEncrypt and RespDecrypt of requester Encrypt return the message: one secured transfer
   * between joined contexts is one exchange of the ideal channel, on both of them, and touches nothing but the
   * counters and the randomness drawn for padding.
   */
  lemma XferMirrors(e: Env, re: Env, x: Ctx, y: Ctx, ask: bytes, answer: bytes)
    requires e.Valid() && re.Valid() && e.c == re.c && e.c.AeadCorrect() && Joined(x, y)
    ensures
      var (x', y', heard) := SecuredXfer(e, re, x, y, ask, answer);
      var (s, ideal) := IdealExchange(x.Format(), EndOf(x), Exchange(ask, [], answer, []));
      && heard == ideal && Joined(x', y') && EndOf(x') == s
      && x' == x.(draws := x'.draws, keys := x.keys.(req := s.req, rsp := s.rsp))
      && y' == y.(draws := y'.draws, keys := y.keys.(req := s.req, rsp := s.rsp))
  {
    hide Encrypt, Decrypt, RespEncrypt, RespDecrypt, Passes, e.Valid, re.Valid;
    EncryptPasses(e, x, ask);
    if Encrypt(e, x, ask, MAX_MSG_SIZE + 80).1.Ok? {
      EncryptThenRespDecrypt(e, re, x, y, ask);
      var x1 := Encrypt(e, x, ask, MAX_MSG_SIZE + 80).0;
      var y1 := y.(keys := y.keys.(req := y.keys.req.Next()));
      SwapRefines(re, y1, answer, [], MAX_MSG_SIZE + 80);
      EncryptPasses(re, Swapped(y1), answer);
      if Encrypt(re, Swapped(y1), answer, MAX_MSG_SIZE + 80).1.Ok? {
        var rec2 := Encrypt(re, Swapped(y1), answer, MAX_MSG_SIZE + 80).1.value;
        SwapRefines(e, Swapped(x1), [], rec2, MAX_MSG_SIZE);
        EncryptThenRespDecrypt(re, e, Swapped(y1), Swapped(x1), answer);
      }
    }
  }
}
