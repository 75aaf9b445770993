/**
 * Large messages (spdm_chunk.c): a request that the responder cannot take at once goes out in CHUNK_SENDs, a
 * response that it cannot send at once is fetched with CHUNK_GETs, in the clear or inside a session.
 */
module Chunks {
  import opened Bytes
  import opened Codes
  import opened Crypto
  import opened Records
  import Channel

  const HDR: nat := 12
  const FIRST_HDR: nat := 16
  const MIN_TRANSFER: nat := 42
  const DATA_TRANSFER_SIZE: nat := 8192

  // ----- Fields -----

  /** ChunkSeqNo: two bytes before 1.4, four from then on. */
  function SeqSize(ver: byte): nat {
    if ver >= 0x14 then 4 else 2
  }

  function SeqField(ver: byte, num: nat): (s: bytes)
    ensures |s| == SeqSize(ver)
  {
    LE(num, SeqSize(ver))
  }

  function GetSeq(ver: byte, msg: bytes): nat
    requires |msg| >= 4 + SeqSize(ver)
  {
    if ver >= 0x14 then Get32(msg, 4) else Get16(msg, 4)
  }

  /** The sequence number shall not wrap. */
  predicate SeqOk(ver: byte, num: nat) {
    ver >= 0x14 || num <= 0xFFFF
  }

  function ChunkHeader(num: nat): nat {
    if num == 0 then FIRST_HDR else HDR
  }

  /** CHUNK_SEND and CHUNK_RESPONSE: header, sequence number in four bytes, size, the first also the total. */
  function ChunkMessage(ver: byte, code: byte, last: bool, handle: byte, num: nat, total: nat, data: bytes): (m: bytes)
    ensures |m| == ChunkHeader(num) + |data|
  {
    [ver, code, if last then 1 else 0, handle] + SeqField(ver, num) + Zeros(4 - SeqSize(ver)) + LE(|data|, 4) +
    (if num == 0 then LE(total, 4) else []) + data
  }

  function LargeResponse(ver: byte, handle: byte): bytes {
    [ver, SPDM_ERROR, ERROR_LARGE_RESPONSE, 0, handle]
  }

  predicate IsLarge(ver: byte, msg: bytes) {
    |msg| >= 5 && msg[0] == ver && msg[1] == SPDM_ERROR && msg[2] == ERROR_LARGE_RESPONSE
  }

  predicate IsError(msg: bytes) {
    |msg| >= 4 && msg[1] == SPDM_ERROR
  }

  // ----- The other end -----

  /** What a responder that follows the standard is doing. */
  datatype Phase =
    | Idle
    | Gathering(handle: byte, next: nat, total: nat, got: bytes)
    | Serving(handle: byte, next: nat, rsp: bytes, pos: nat)

  /**
   * Script answers with the next entry of a list, whatever it is asked. Honest follows section 10.27 of DSP0274:
   * it takes messages of at most dts bytes, sends messages of at most out bytes, computes f, and cuts its
   * responses as chunk says.
   */
  datatype Peer =
    | Script(replies: seq<Option<bytes>>)
    | Honest(f: bytes -> bytes, ver: byte, dts: nat, out: nat, chunk: nat -> nat, handle: byte, phase: Phase)
  {
    predicate Conforms() {
      Honest? ==> MIN_TRANSFER <= out <= DATA_TRANSFER_SIZE && MIN_TRANSFER <= dts
    }
  }

  /** The response directly if it fits after prefix, or else ERROR(LargeResponse). */
  function Deliver(p: Peer, prefix: bytes, rsp: bytes): (Peer, bytes)
    requires p.Honest?
  {
    if |prefix| + |rsp| <= p.out then (p.(phase := Idle), prefix + rsp)
    else (p.(phase := Serving(p.handle, 0, rsp, 0)), LargeResponse(p.ver, p.handle))
  }

  function InvalidRequest(p: Peer): (Peer, bytes)
    requires p.Honest?
  {
    (p.(phase := Idle), [p.ver, SPDM_ERROR, 1, 0])
  }

  function Ack(ver: byte, handle: byte, num: nat): (a: bytes)
    ensures |a| == 4 + SeqSize(ver)
  {
    [ver, CHUNK_SEND_ACK, 0, handle] + SeqField(ver, num)
  }

  /** One CHUNK_SEND: in sequence, of the announced total, with LastChunk exactly on the chunk that completes it. */
  function Gather(p: Peer, msg: bytes): (Peer, bytes)
    requires p.Honest?
  {
    if |msg| < HDR then InvalidRequest(p)
    else
      var num, handle, last := if p.ver >= 0x14 then Get32(msg, 4) else Get16(msg, 4), msg[3], msg[2] % 2 == 1;
      var hdr := ChunkHeader(num);
      if |msg| < hdr || |msg| - hdr != Get32(msg, 8) then InvalidRequest(p)
      else if num > 0 && (!p.phase.Gathering? || p.phase.handle != handle || p.phase.next != num) then InvalidRequest(p)
      else
        var total := if num == 0 then Get32(msg, HDR) else p.phase.total;
        var got := (if num == 0 then [] else p.phase.got) + msg[hdr..];
        if |got| > total || last != (|got| == total) then InvalidRequest(p)
        else if !last then (p.(phase := Gathering(handle, num + 1, total, got)), Ack(p.ver, handle, num))
        else Deliver(p, Ack(p.ver, handle, num), p.f(got))
  }

  /** How much of the remaining bytes the k-th CHUNK_RESPONSE carries: at least one, at most what fits. */
  function Portion(p: Peer, k: nat, left: nat): (n: nat)
    requires p.Honest? && p.Conforms()
    ensures n <= left && n <= p.out - ChunkHeader(k) && (left > 0 ==> n > 0)
  {
    var want := if p.chunk(k) == 0 then 1 else p.chunk(k);
    var fit := if want > p.out - ChunkHeader(k) then p.out - ChunkHeader(k) else want;
    if fit > left then left else fit
  }

  function Serve(p: Peer, msg: bytes): (Peer, bytes)
    requires p.Honest? && p.Conforms()
  {
    if !p.phase.Serving? || |msg| < 4 + SeqSize(p.ver) || msg[3] != p.phase.handle || GetSeq(p.ver, msg) != p.phase.next
       || p.phase.pos > |p.phase.rsp| then InvalidRequest(p)
    else
      var n := Portion(p, p.phase.next, |p.phase.rsp| - p.phase.pos);
      var end := p.phase.pos + n;
      (p.(phase := if end == |p.phase.rsp| then Idle else Serving(p.phase.handle, p.phase.next + 1, p.phase.rsp, end)),
       ChunkMessage(p.ver, CHUNK_RESPONSE, end == |p.phase.rsp|, p.phase.handle, p.phase.next, |p.phase.rsp|,
                    p.phase.rsp[p.phase.pos..end]))
  }

  function PeerStep(p: Peer, msg: bytes): (r: (Peer, Option<bytes>))
    requires p.Conforms()
    ensures r.0.Conforms()
  {
    if p.Script? then (if p.replies == [] then (p, None) else (Script(p.replies[1..]), p.replies[0]))
    else
      var (p1, reply) :=
        if |msg| > p.dts then InvalidRequest(p)
        else if |msg| >= 2 && msg[1] == CHUNK_SEND then Gather(p, msg)
        else if |msg| >= 2 && msg[1] == CHUNK_GET then Serve(p, msg)
        else Deliver(p, [], p.f(msg));
      (p1, Some(reply))
  }

  // ----- The transport -----

  datatype Session = Session(sid: nat, pair: Channel.Pair)

  /** The peer, the session that protects the messages if there is one, and what has been sent so far. */
  datatype Line = Line(peer: Peer, session: Option<Session>, log: seq<bytes>)
  {
    ghost predicate Valid() {
      peer.Conforms() && (session.Some? ==> Channel.Mirrored(session.value.pair) && session.value.sid < 0x1_0000_0000)
    }
  }

  /** wolfSPDM_SendReceive, or wolfSPDM_SecuredXfer over a record in each direction. */
  function Xfer(c: Crypto, l: Line, msg: bytes, cap: nat): (r: (Line, Result<bytes>))
    requires c.AeadCorrect() && l.Valid()
    ensures r.0.Valid() && (r.1.Err? ==> r.1.rc != Success) && (r.1.Ok? ==> |r.1.value| <= cap)
    ensures r.0.log == l.log || r.0.log == l.log + [msg]
  {
    var (p, reply) := PeerStep(l.peer, msg);
    if l.session.None? then
      var l1 := Line(p, None, l.log + [msg]);
      if reply.None? || |reply.value| > cap then (l1, Err(IoFail)) else (l1, Ok(reply.value))
    else
      var s := l.session.value;
      var answer := if reply.Some? then reply.value else [];
      Channel.TransactMirrors(c, Mctp, s.sid, s.pair, Channel.Exchange(msg, [], answer, []));
      var (pair, asked, answered) := Channel.Transact(c, Mctp, s.sid, s.pair, Channel.Exchange(msg, [], answer, []));
      var s1 := Some(Session(s.sid, pair));
      if asked.None? then (Line(l.peer, s1, l.log), Err(SequenceErr))
      else if reply.None? || answered.None? then (Line(p, s1, l.log + [msg]), Err(IoFail))
      else if |answered.value| > cap then (Line(p, s1, l.log + [msg]), Err(BufferSmall))
      else (Line(p, s1, l.log + [msg]), Ok(answered.value))
  }

  // ----- CHUNK_SEND -----

  datatype Verdict = Fail(rc: Rc) | More | Done(out: bytes)

  /** What an acknowledgement means; last says that the whole request has been sent. */
  function JudgeAck(ver: byte, handle: byte, num: nat, last: bool, ack: bytes): (v: Verdict)
    ensures v.Fail? ==> v.rc != Success
    ensures v.More? ==> !last
  {
    var n := 4 + SeqSize(ver);
    if IsLarge(ver, ack) && last then Done(ack)
    else if IsError(ack) then Fail(PeerError)
    else if |ack| < n || ack[0] != ver || ack[1] != CHUNK_SEND_ACK || ack[3] != handle || GetSeq(ver, ack) != num then Fail(ChunkErr)
    else if ack[2] % 2 == 1 then Fail(if IsError(ack[n..]) then PeerError else ChunkErr)
    else if !last then (if |ack| != n then Fail(ChunkErr) else More)
    else Done(ack[n..])
  }

  function Min(a: nat, b: nat): nat {
    if a < b then a else b
  }

  /** The bytes that the chunk with number num takes of those left. */
  function Take(limit: nat, num: nat, left: nat): (n: nat)
    requires limit >= MIN_TRANSFER
    ensures n <= left && n + ChunkHeader(num) <= limit && (left > 0 ==> n > 0)
  {
    Min(limit - ChunkHeader(num), left)
  }

  function SendMessage(ver: byte, limit: nat, handle: byte, req: bytes, sent: nat, num: nat): (m: bytes)
    requires limit >= MIN_TRANSFER && sent < |req|
    ensures ChunkHeader(num) < |m| <= limit
  {
    var n := Take(limit, num, |req| - sent);
    ChunkMessage(ver, CHUNK_SEND, sent + n == |req|, handle, num, |req|, req[sent..sent + n])
  }

  function SendFrom(c: Crypto, ver: byte, limit: nat, handle: byte, req: bytes, cap: nat, l: Line, sent: nat, num: nat)
    : (r: (Line, Result<bytes>))
    requires c.AeadCorrect() && l.Valid() && limit >= MIN_TRANSFER && sent < |req|
    ensures r.0.Valid() && (r.1.Err? ==> r.1.rc != Success) && (r.1.Ok? ==> |r.1.value| <= cap)
    decreases |req| - sent
  {
    if !SeqOk(ver, num) then (l, Err(ChunkErr))
    else
      var sent1 := sent + Take(limit, num, |req| - sent);
      var (l1, ack) := Xfer(c, l, SendMessage(ver, limit, handle, req, sent, num), DATA_TRANSFER_SIZE);
      if ack.Err? then (l1, ack)
      else match JudgeAck(ver, handle, num, sent1 == |req|, ack.value)
        case Fail(rc) => (l1, Err(rc))
        case More => SendFrom(c, ver, limit, handle, req, cap, l1, sent1, num + 1)
        case Done(out) => (l1, if |out| > cap then Err(BufferSmall) else Ok(out))
  }

  lemma SeqIs(ver: byte, msg: bytes, num: nat)
    requires |msg| >= 4 + SeqSize(ver) && SeqOk(ver, num) && num < 0x1_0000_0000
    ensures GetSeq(ver, msg) == num <==> msg[4..4 + SeqSize(ver)] == SeqField(ver, num)
  {
    hide LE, FromLE;
    Pow256Values();
    var n := SeqSize(ver);
    if GetSeq(ver, msg) == num {
      FieldIs(msg, 4, n, num);
    }
    if msg[4..4 + n] == SeqField(ver, num) {
      SliceReads(msg, 4, num, n);
    }
  }

  /** The acknowledgement of chunk num, with an early-error flag that may or may not be set and something after it. */
  predicate Acknowledges(ver: byte, handle: byte, num: nat, ack: bytes, rest: bytes) {
    && |ack| == 4 + SeqSize(ver) + |rest| && ack[0] == ver && ack[1] == 0x05 && ack[3] == handle
    && ack[4..4 + SeqSize(ver)] == SeqField(ver, num) && ack[4 + SeqSize(ver)..] == rest
  }

  /**
   * An acknowledgement lets the loop go on only in the middle, with nothing after it; it ends the loop only after the last
   * chunk, with the response after it or as ERROR(LargeResponse) in its place; anything else fails.
   */
  lemma AckMeans(ver: byte, handle: byte, num: nat, last: bool, ack: bytes, out: bytes)
    requires SeqOk(ver, num) && num < 0x1_0000_0000
    ensures
      var v := JudgeAck(ver, handle, num, last, ack);
      && (v == More <==> !last && Acknowledges(ver, handle, num, ack, []) && ack[2] % 2 == 0)
      && (v == Done(out) <==>
            last && if |ack| >= 5 && ack[..3] == [ver, 0x7F, 0x0F] then out == ack
                    else Acknowledges(ver, handle, num, ack, out) && ack[2] % 2 == 0)
      && (|ack| >= 4 && ack[1] == 0x7F && !(last && |ack| >= 5 && ack[..3] == [ver, 0x7F, 0x0F]) ==> v == Fail(PeerError))
      && (|ack| >= 4 + SeqSize(ver) && Acknowledges(ver, handle, num, ack, ack[4 + SeqSize(ver)..]) && ack[2] % 2 == 1 ==>
            v == Fail(if IsError(ack[4 + SeqSize(ver)..]) then PeerError else ChunkErr))
  {
    hide LE, GetSeq, SeqField;
    if |ack| >= 4 + SeqSize(ver) {
      SeqIs(ver, ack, num);
    }
    if |ack| >= 3 {
      assert ack[..3] == [ack[0], ack[1], ack[2]];
    }
  }

  // ----- CHUNK_GET -----

  datatype Piece = Bad(rc: Rc) | Good(total: nat, data: bytes, last: bool)

  /** What a CHUNK_RESPONSE means when off bytes of total have arrived; the first one announces the total. */
  function JudgeChunk(ver: byte, handle: byte, num: nat, cap: nat, total: nat, off: nat, msg: bytes): (p: Piece)
    requires num > 0 ==> off < total <= cap
    ensures p.Bad? ==> p.rc != Success
    ensures p.Good? ==> p.data != [] && p.total <= cap && (num > 0 ==> p.total == total)
    ensures p.Good? ==> var o := if num == 0 then 0 else off; o + |p.data| <= p.total && p.last == (o + |p.data| == p.total)
  {
    var hdr := ChunkHeader(num);
    if IsError(msg) then Bad(PeerError)
    else if |msg| < hdr || msg[0] != ver || msg[1] != CHUNK_RESPONSE || msg[3] != handle || GetSeq(ver, msg) != num then Bad(ChunkErr)
    else
      var all := if num == 0 then Get32(msg, HDR) else total;
      var o := if num == 0 then 0 else off;
      if num == 0 && all == 0 then Bad(ChunkErr)
      else if num == 0 && all > cap then Bad(BufferSmall)
      else
        var size, last := Get32(msg, 8), msg[2] % 2 == 1;
        if size == 0 || size != |msg| - hdr || size > all - o then Bad(ChunkErr)
        else if last != (o + size == all) then Bad(ChunkErr)
        else Good(all, msg[hdr..], last)
  }

  /**
   * A CHUNK_RESPONSE is taken exactly when it is the one asked for, says its own size, is not empty, stays within the total
   * (which the first one announces, and which has to fit), and is flagged last exactly when it completes the message.
   */
  lemma ChunkMeans(ver: byte, handle: byte, num: nat, cap: nat, total: nat, off: nat, msg: bytes, all: nat, data: bytes, last: bool)
    requires (num > 0 ==> off < total <= cap) && SeqOk(ver, num) && num < 0x1_0000_0000
    ensures
      var hdr, o := if num == 0 then 16 else 12, if num == 0 then 0 else off;
      JudgeChunk(ver, handle, num, cap, total, off, msg) == Good(all, data, last) <==>
        && |msg| == hdr + |data| && msg[0] == ver && msg[1] == 0x06 && msg[3] == handle && msg[4..4 + SeqSize(ver)] == SeqField(ver, num)
        && Get32(msg, 8) == |data| && data != [] && msg[hdr..] == data
        && (if num == 0 then Get32(msg, 12) == all && 0 < all <= cap else all == total)
        && o + |data| <= all && last == (msg[2] % 2 == 1) == (o + |data| == all)
  {
    hide LE, GetSeq, SeqField, GetLE;
    if |msg| >= 12 {
      SeqIs(ver, msg, num);
    }
  }

  function GetRequest(ver: byte, handle: byte, num: nat): bytes {
    [ver, CHUNK_GET, 0, handle] + SeqField(ver, num)
  }

  /** got is what has arrived of the response. */
  function GetFrom(c: Crypto, ver: byte, handle: byte, cap: nat, l: Line, num: nat, total: nat, got: bytes): (r: (Line, Result<bytes>))
    requires c.AeadCorrect() && l.Valid() && (num == 0 ==> got == []) && (num > 0 ==> |got| < total <= cap)
    ensures r.0.Valid() && (r.1.Err? ==> r.1.rc != Success) && (r.1.Ok? ==> 0 < |r.1.value| <= cap)
    decreases if num == 0 then cap + 1 else total - |got|
  {
    if !SeqOk(ver, num) then (l, Err(ChunkErr))
    else
      var (l1, msg) := Xfer(c, l, GetRequest(ver, handle, num), DATA_TRANSFER_SIZE);
      if msg.Err? then (l1, msg)
      else match JudgeChunk(ver, handle, num, cap, total, |got|, msg.value)
        case Bad(rc) => (l1, Err(rc))
        case Good(all, data, last) =>
          if last then (l1, Ok(got + data)) else GetFrom(c, ver, handle, cap, l1, num + 1, all, got + data)
  }

  // ----- The exchange -----

  /** What the requester knows about the connection. */
  datatype Params = Params(ver: byte, dts: nat, maxMsg: nat)
  {
    /** As wolfSPDM_ParseCapabilities and wolfSPDM_ResetSession leave it. */
    predicate Valid() {
      dts == 0 || dts >= MIN_TRANSFER
    }

    /** Each message fits both the responder's DataTransferSize and ours. */
    function Limit(): (n: nat)
      requires Valid()
      ensures MIN_TRANSFER <= n <= DATA_TRANSFER_SIZE && (dts != 0 ==> n <= dts)
    {
      if dts == 0 || dts > DATA_TRANSFER_SIZE then DATA_TRANSFER_SIZE else dts
    }
  }

  /** The request, whole or in chunks. */
  function FirstLeg(c: Crypto, p: Params, handle: byte, req: bytes, cap: nat, l: Line): (r: (Line, Result<bytes>))
    requires c.AeadCorrect() && l.Valid() && p.Valid()
    ensures r.0.Valid() && (r.1.Err? ==> r.1.rc != Success) && (r.1.Ok? ==> |r.1.value| <= cap)
  {
    if |req| <= p.Limit() then Xfer(c, l, req, cap)
    else if p.maxMsg != 0 && |req| > p.maxMsg then (l, Err(BufferSmall))
    else SendFrom(c, p.ver, p.Limit(), handle, req, cap, l, 0, 0)
  }

  function Exchange(c: Crypto, p: Params, handle: byte, req: bytes, cap: nat, l: Line): (r: (Line, Result<bytes>))
    requires c.AeadCorrect() && l.Valid() && p.Valid()
    ensures r.0.Valid() && (r.1.Err? ==> r.1.rc != Success) && (r.1.Ok? ==> |r.1.value| <= cap)
  {
    var (l1, rsp) := FirstLeg(c, p, handle, req, cap, l);
    if rsp.Ok? && IsLarge(p.ver, rsp.value) then GetFrom(c, p.ver, rsp.value[4], Min(cap, MAX_MSG_SIZE), l1, 0, 0, [])
    else (l1, rsp)
  }

  /** A message beyond what the responder can ever take is refused before anything is sent; a fetched response fits MaxSPDMmsgSize. */
  lemma SizesRespected(c: Crypto, p: Params, handle: byte, req: bytes, cap: nat, l: Line)
    requires c.AeadCorrect() && l.Valid() && p.Valid()
    ensures p.Limit() == if p.dts == 0 || p.dts > 8192 then 8192 else p.dts
    ensures
      var r := Exchange(c, p, handle, req, cap, l);
      && (p.maxMsg != 0 && |req| > p.maxMsg && |req| > p.Limit() ==> r == (l, Err(BufferSmall)))
      && (r.1.Ok? && FirstLeg(c, p, handle, req, cap, l).1.Ok? && IsLarge(p.ver, FirstLeg(c, p, handle, req, cap, l).1.value) ==>
            0 < |r.1.value| <= 8192)
  {
    hide Xfer, SendFrom, GetFrom;
  }

  /** What is asked of the responder: the chunk with its header, or the next chunk by handle and number. */
  lemma ChunkAsked(ver: byte, limit: nat, handle: byte, req: bytes, sent: nat, num: nat)
    requires limit >= MIN_TRANSFER && sent < |req| < 0x1_0000_0000 && SeqOk(ver, num) && num < 0x1_0000_0000
    ensures
      var m := SendMessage(ver, limit, handle, req, sent, num);
      var hdr := if num == 0 then 16 else 12;
      var n := |m| - hdr;
      && 0 < n <= |req| - sent && m[hdr..] == req[sent..sent + n] && (n == |req| - sent || |m| == limit)
      && m[0] == ver && m[1] == 0x85 && (m[2] % 2 == 1 <==> sent + n == |req|) && m[3] == handle
      && GetSeq(ver, m) == num && Get32(m, 8) == n && (num == 0 ==> Get32(m, 12) == |req|)
    ensures
      var g := GetRequest(ver, handle, num);
      |g| == 4 + SeqSize(ver) && g[..4] == [ver, 0x86, 0, handle] && GetSeq(ver, g) == num
  {
    hide LE, GetLE, GetSeq, ChunkMessage;
    var n := Take(limit, num, |req| - sent);
    ChunkFields(ver, CHUNK_SEND, sent + n == |req|, handle, num, |req|, req[sent..sent + n]);
    var g := GetRequest(ver, handle, num);
    assert g == [ver, CHUNK_GET, 0, handle] + SeqField(ver, num) + [];
    SeqReadBack(ver, num, [ver, CHUNK_GET, 0, handle], []);
  }

  // ----- Reading back what was written -----

  lemma SeqReadBack(ver: byte, num: nat, pre: bytes, post: bytes)
    requires |pre| == 4 && SeqOk(ver, num) && num < 0x1_0000_0000
    ensures GetSeq(ver, pre + SeqField(ver, num) + post) == num
  {
    hide LE;
    Pow256Values();
    FieldReadBack(pre, num, SeqSize(ver), post);
  }

  /** The fields of a chunk message are the ones it was built from. */
  lemma ChunkFields(ver: byte, code: byte, last: bool, handle: byte, num: nat, total: nat, data: bytes)
    requires SeqOk(ver, num) && num < 0x1_0000_0000 && |data| < 0x1_0000_0000 && total < 0x1_0000_0000
    ensures
      var m := ChunkMessage(ver, code, last, handle, num, total, data);
      && m[0] == ver && m[1] == code && (m[2] % 2 == 1 <==> last) && m[3] == handle
      && GetSeq(ver, m) == num && Get32(m, 8) == |data| && (num == 0 ==> Get32(m, HDR) == total)
      && m[ChunkHeader(num)..] == data
  {
    hide LE, GetLE;
    Pow256Values();
    var m := ChunkMessage(ver, code, last, handle, num, total, data);
    var head := [ver, code, if last then 1 else 0, handle];
    var q, z, n, t := SeqField(ver, num), Zeros(4 - SeqSize(ver)), LE(|data|, 4), if num == 0 then LE(total, 4) else [];
    assert m == head + q + (z + n + t + data);
    SeqReadBack(ver, num, head, z + n + t + data);
    assert m == (head + q + z) + n + (t + data);
    FieldReadBack(head + q + z, |data|, 4, t + data);
    if num == 0 {
      assert m == (head + q + z + n) + LE(total, 4) + data;
      FieldReadBack(head + q + z + n, total, 4, data);
    }
  }

  lemma AckFields(ver: byte, handle: byte, num: nat, rest: bytes)
    requires SeqOk(ver, num) && num < 0x1_0000_0000
    ensures
      var a := Ack(ver, handle, num) + rest;
      && a[0] == ver && a[1] == CHUNK_SEND_ACK && a[2] == 0 && a[3] == handle && GetSeq(ver, a) == num
      && a[4 + SeqSize(ver)..] == rest
  {
    SeqReadBack(ver, num, [ver, CHUNK_SEND_ACK, 0, handle], rest);
    assert Ack(ver, handle, num) + rest == [ver, CHUNK_SEND_ACK, 0, handle] + SeqField(ver, num) + rest;
  }

  // ----- The transport between conforming ends -----

  /** In a session, the record counters leave room for n more messages each way. */
  predicate Room(l: Line, n: nat) {
    l.session.Some? ==>
      l.session.value.pair.requester.req.num + n <= 0x1_0000 && l.session.value.pair.requester.rsp.num + n <= 0x1_0000
  }

  /** The message goes out: always in the clear, in a session if it can be sealed. */
  predicate GoesOut(l: Line, msg: bytes) {
    l.session.Some? ==> Channel.Passes(Mctp, l.session.value.pair.requester.req, msg)
  }

  /** The peer's answer comes back: it has one, and in a session it can be sealed. */
  predicate ComesBack(l: Line, reply: Option<bytes>) {
    reply.Some? && (l.session.Some? ==> Channel.Passes(Mctp, l.session.value.pair.requester.rsp, reply.value))
  }

  /**
   * What one transfer does: the message that goes out is logged and handled by the peer, and an answer that comes back
   * and fits cap is returned whole; anything else is refused.
   */
  ghost predicate Transferred(l: Line, l1: Line, r: Result<bytes>, msg: bytes, cap: nat)
    requires l.peer.Conforms()
  {
    var (p, reply) := PeerStep(l.peer, msg);
    && l1.log == l.log + (if GoesOut(l, msg) then [msg] else []) && l1.peer == (if GoesOut(l, msg) then p else l.peer)
    && (r.Ok? <==> GoesOut(l, msg) && ComesBack(l, reply) && |reply.value| <= cap)
    && (r.Ok? ==> r.value == reply.value)
  }

  lemma XferMeans(c: Crypto, l: Line, msg: bytes, cap: nat)
    requires c.AeadCorrect() && l.Valid()
    ensures Transferred(l, Xfer(c, l, msg, cap).0, Xfer(c, l, msg, cap).1, msg, cap)
  {
    hide PeerStep, Channel.Transact, Channel.Passes;
    if l.session.Some? {
      var s := l.session.value;
      var reply := PeerStep(l.peer, msg).1;
      Channel.TransactIdeal(c, Mctp, s.sid, s.pair, Channel.Exchange(msg, [], if reply.Some? then reply.value else [], []));
    }
  }

  /** Inside a session or outside, an answer within the sizes comes back unchanged. */
  lemma XferDelivers(c: Crypto, l: Line, msg: bytes, cap: nat, n: nat)
    requires c.AeadCorrect() && l.Valid() && Room(l, n + 1) && |msg| <= XFER_MSG_SIZE
    requires PeerStep(l.peer, msg).1.Some? && |PeerStep(l.peer, msg).1.value| <= Min(cap, XFER_MSG_SIZE)
    ensures
      var (l1, r) := Xfer(c, l, msg, cap);
      && r == Ok(PeerStep(l.peer, msg).1.value) && l1.peer == PeerStep(l.peer, msg).0
      && l1.log == l.log + [msg] && Room(l1, n)
  {
    hide PeerStep, Seal, Channel.Transact;
    XferMeans(c, l, msg, cap);
    if l.session.Some? {
      var s := l.session.value;
      Channel.TransactIdeal(c, Mctp, s.sid, s.pair, Channel.Exchange(msg, [], PeerStep(l.peer, msg).1.value, []));
    }
  }

  // ----- A conforming responder gathers the request -----

  /** The number of CHUNK_SENDs for left bytes when the next has number num. */
  function Sends(limit: nat, left: nat, num: nat): (n: nat)
    requires limit >= MIN_TRANSFER
    ensures left > 0 ==> n > 0
    ensures n <= left
    decreases left
  {
    if left == 0 then 0 else 1 + Sends(limit, left - Take(limit, num, left), num + 1)
  }

  /** A conforming responder of this version that takes messages of up to limit bytes. */
  predicate Suits(p: Peer, ver: byte, limit: nat) {
    p.Honest? && p.Conforms() && p.ver == ver && limit <= p.dts
  }

  /** The responder has the first sent bytes of req. */
  predicate Gathered(p: Peer, handle: byte, req: bytes, sent: nat, num: nat) {
    p.Honest? && sent <= |req| && (num == 0 ==> sent == 0) && (num > 0 ==> p.phase == Gathering(handle, num, |req|, req[..sent]))
  }

  lemma GatherStep(p: Peer, ver: byte, limit: nat, handle: byte, req: bytes, sent: nat, num: nat)
    requires limit >= MIN_TRANSFER && Suits(p, ver, limit) && Gathered(p, handle, req, sent, num)
    requires sent < |req| < 0x1_0000_0000 && SeqOk(ver, num) && num <= sent
    ensures
      var sent1 := sent + Take(limit, num, |req| - sent);
      PeerStep(p, SendMessage(ver, limit, handle, req, sent, num))
      == if sent1 < |req| then (p.(phase := Gathering(handle, num + 1, |req|, req[..sent1])), Some(Ack(ver, handle, num)))
         else (Deliver(p, Ack(ver, handle, num), p.f(req)).0, Some(Deliver(p, Ack(ver, handle, num), p.f(req)).1))
  {
    hide ChunkMessage, GetLE;
    var n := Take(limit, num, |req| - sent);
    var sent1 := sent + n;
    ChunkFields(ver, CHUNK_SEND, sent1 == |req|, handle, num, |req|, req[sent..sent1]);
    assert req[..sent] + req[sent..sent1] == req[..sent1];
    assert req[..|req|] == req;
    assert [] + req[0..sent1 - sent] == req[..sent1 - sent];
  }

  /** What the requester has after the first leg: the response, or the handle under which it is served. */
  ghost predicate Answered(p: Peer, p': Peer, req: bytes, r: Result<bytes>)
    requires p.Honest?
  {
    || (r == Ok(p.f(req)) && p' == p.(phase := Idle))
    || (r == Ok(LargeResponse(p.ver, p.handle)) && p' == p.(phase := Serving(p.handle, 0, p.f(req), 0)) && p.f(req) != [])
  }

  lemma LastAck(p: Peer, handle: byte, num: nat, req: bytes, cap: nat)
    requires p.Honest? && p.Conforms() && SeqOk(p.ver, num) && num < 0x1_0000_0000 && |p.f(req)| <= cap && 5 <= cap
    ensures
      var (p', ack) := Deliver(p, Ack(p.ver, handle, num), p.f(req));
      var v := JudgeAck(p.ver, handle, num, true, ack);
      v.Done? && |v.out| <= cap && |ack| <= DATA_TRANSFER_SIZE && Answered(p, p', req, Ok(v.out))
  {
    hide GetLE;
    AckFields(p.ver, handle, num, p.f(req));
  }

  lemma {:induction false} SendHonest(c: Crypto, ver: byte, limit: nat, handle: byte, req: bytes, cap: nat, l: Line, sent: nat, num: nat, n: nat)
    requires c.AeadCorrect() && l.Valid() && MIN_TRANSFER <= limit <= DATA_TRANSFER_SIZE && Suits(l.peer, ver, limit)
    requires Gathered(l.peer, handle, req, sent, num) && num <= sent < |req| < 0x1_0000_0000
    requires var k := Sends(limit, |req| - sent, num); SeqOk(ver, num + k - 1) && Room(l, k + n)
    requires |l.peer.f(req)| <= cap && 5 <= cap
    ensures
      var (l1, r) := SendFrom(c, ver, limit, handle, req, cap, l, sent, num);
      Answered(l.peer, l1.peer, req, r) && Room(l1, n)
    decreases |req| - sent
  {
    hide PeerStep, JudgeAck, Deliver, Xfer;
    var sent1 := sent + Take(limit, num, |req| - sent);
    var msg := SendMessage(ver, limit, handle, req, sent, num);
    var k := Sends(limit, |req| - sent, num);
    GatherStep(l.peer, ver, limit, handle, req, sent, num);
    if sent1 < |req| {
      PlainAck(ver, handle, num);
      XferDelivers(c, l, msg, DATA_TRANSFER_SIZE, k - 1 + n);
      var l1 := Xfer(c, l, msg, DATA_TRANSFER_SIZE).0;
      SendHonest(c, ver, limit, handle, req, cap, l1, sent1, num + 1, n);
    } else {
      LastAck(l.peer, handle, num, req, cap);
      XferDelivers(c, l, msg, DATA_TRANSFER_SIZE, k - 1 + n);
    }
  }

  lemma PlainAck(ver: byte, handle: byte, num: nat)
    requires SeqOk(ver, num) && num < 0x1_0000_0000
    ensures JudgeAck(ver, handle, num, false, Ack(ver, handle, num)) == More
  {
    hide GetLE;
    assert Ack(ver, handle, num) + [] == Ack(ver, handle, num);
    AckFields(ver, handle, num, []);
  }

  // ----- A conforming responder serves the response -----

  /** The number of CHUNK_RESPONSEs for the bytes from pos on, when the next has number num. */
  function Gets(p: Peer, total: nat, pos: nat, num: nat): (n: nat)
    requires p.Honest? && p.Conforms() && pos <= total
    ensures n <= total - pos && (pos < total ==> n > 0)
    decreases total - pos
  {
    if pos == total then 0 else 1 + Gets(p, total, pos + Portion(p, num, total - pos), num + 1)
  }

  /** How a responder cuts its responses does not depend on what it is doing. */
  lemma {:induction false} GetsPhase(p: Peer, phase: Phase, total: nat, pos: nat, num: nat)
    requires p.Honest? && p.Conforms() && pos <= total
    ensures Gets(p.(phase := phase), total, pos, num) == Gets(p, total, pos, num)
    decreases total - pos
  {
    if pos < total {
      GetsPhase(p, phase, total, pos + Portion(p, num, total - pos), num + 1);
    }
  }

  lemma ServeStep(p: Peer, ver: byte, handle: byte, rsp: bytes, pos: nat, num: nat, cap: nat)
    requires p.Honest? && p.Conforms() && p.ver == ver && p.phase == Serving(handle, num, rsp, pos)
    requires num <= pos < |rsp| <= cap <= MAX_MSG_SIZE && SeqOk(ver, num) && (num == 0 ==> pos == 0)
    ensures
      var end := pos + Portion(p, num, |rsp| - pos);
      var (p', msg) := PeerStep(p, GetRequest(ver, handle, num));
      && msg.Some? && |msg.value| <= DATA_TRANSFER_SIZE
      && p' == p.(phase := if end == |rsp| then Idle else Serving(handle, num + 1, rsp, end))
      && JudgeChunk(ver, handle, num, cap, if num == 0 then 0 else |rsp|, pos, msg.value) == Good(|rsp|, rsp[pos..end], end == |rsp|)
  {
    hide ChunkMessage, GetLE;
    var end := pos + Portion(p, num, |rsp| - pos);
    var req := GetRequest(ver, handle, num);
    assert req == [ver, CHUNK_GET, 0, handle] + SeqField(ver, num) + [];
    SeqReadBack(ver, num, [ver, CHUNK_GET, 0, handle], []);
    ChunkFields(ver, CHUNK_RESPONSE, end == |rsp|, handle, num, |rsp|, rsp[pos..end]);
  }

  lemma {:induction false} GetHonest(c: Crypto, ver: byte, handle: byte, cap: nat, l: Line, rsp: bytes, pos: nat, num: nat, n: nat)
    requires c.AeadCorrect() && l.Valid() && l.peer.Honest? && l.peer.ver == ver && l.peer.phase == Serving(handle, num, rsp, pos)
    requires num <= pos < |rsp| <= cap <= MAX_MSG_SIZE && (num == 0 <==> pos == 0)
    requires Room(l, Gets(l.peer, |rsp|, pos, num) + n)
    ensures
      var (l1, r) := GetFrom(c, ver, handle, cap, l, num, if num == 0 then 0 else |rsp|, rsp[..pos]);
      r == Ok(rsp) && l1.peer == l.peer.(phase := Idle) && Room(l1, n)
    decreases |rsp| - pos
  {
    hide PeerStep, JudgeChunk, Xfer, GetRequest, Portion;
    var end := pos + Portion(l.peer, num, |rsp| - pos);
    var k := Gets(l.peer, |rsp|, pos, num);
    ServeStep(l.peer, ver, handle, rsp, pos, num, cap);
    RequestSize(ver, handle, num);
    XferDelivers(c, l, GetRequest(ver, handle, num), DATA_TRANSFER_SIZE, k - 1 + n);
    assert rsp[..pos] + rsp[pos..end] == rsp[..end];
    if end < |rsp| {
      var l1 := Xfer(c, l, GetRequest(ver, handle, num), DATA_TRANSFER_SIZE).0;
      GetsPhase(l.peer, l1.peer.phase, |rsp|, end, num + 1);
      GetHonest(c, ver, handle, cap, l1, rsp, end, num + 1, n);
    } else {
      assert rsp[..end] == rsp;
    }
  }

  lemma RequestSize(ver: byte, handle: byte, num: nat)
    ensures |GetRequest(ver, handle, num)| <= 8
  {
  }

  // ----- Transparency -----

  /** A request that is not itself a chunk message, and an answer that is not itself an ERROR(LargeResponse). */
  predicate Ordinary(ver: byte, req: bytes, rsp: bytes) {
    !(|req| >= 2 && (req[1] == CHUNK_SEND || req[1] == CHUNK_GET)) && !IsLarge(ver, rsp)
  }

  /** Messages needed for the request, and then for the response if it does not come with the first leg. */
  function Transfers(p: Params, peer: Peer, req: bytes): nat
    requires p.Valid() && peer.Honest? && peer.Conforms()
  {
    (if |req| <= p.Limit() then 1 else Sends(p.Limit(), |req|, 0)) + Gets(peer, |peer.f(req)|, 0, 0)
  }

  lemma FirstLegHonest(c: Crypto, p: Params, handle: byte, req: bytes, cap: nat, l: Line, n: nat)
    requires c.AeadCorrect() && l.Valid() && p.Valid() && Suits(l.peer, p.ver, p.Limit())
    requires |req| < 0x1_0000_0000 && (p.maxMsg == 0 || |req| <= p.maxMsg)
    requires |req| <= p.Limit() || SeqOk(p.ver, Sends(p.Limit(), |req|, 0) - 1)
    requires Ordinary(p.ver, req, l.peer.f(req))
    requires |l.peer.f(req)| <= cap && 5 <= cap
    requires Room(l, (if |req| <= p.Limit() then 1 else Sends(p.Limit(), |req|, 0)) + n)
    ensures
      var (l1, r) := FirstLeg(c, p, handle, req, cap, l);
      Answered(l.peer, l1.peer, req, r) && Room(l1, n)
  {
    hide SendFrom, Xfer;
    if |req| <= p.Limit() {
      assert [] + l.peer.f(req) == l.peer.f(req);
      XferDelivers(c, l, req, cap, n);
    } else {
      SendHonest(c, p.ver, p.Limit(), handle, req, cap, l, 0, 0, n);
    }
  }

  /**
   * Transparency: against any responder that follows the standard and computes f, whatever sizes either side
   * works with, in the clear or inside a session, the exchange returns exactly f of the request. Nothing is
   * asked but that request, response and chunk counts are within the limits that the code states.
   */
  lemma Transparent(c: Crypto, p: Params, handle: byte, req: bytes, cap: nat, l: Line)
    requires c.AeadCorrect() && l.Valid() && p.Valid() && Suits(l.peer, p.ver, p.Limit())
    requires |req| < 0x1_0000_0000 && (p.maxMsg == 0 || |req| <= p.maxMsg)
    requires |req| <= p.Limit() || SeqOk(p.ver, Sends(p.Limit(), |req|, 0) - 1)
    requires Ordinary(p.ver, req, l.peer.f(req))
    requires |l.peer.f(req)| <= Min(cap, MAX_MSG_SIZE) && 5 <= cap
    requires Room(l, Transfers(p, l.peer, req))
    ensures
      var (l1, r) := Exchange(c, p, handle, req, cap, l);
      r == Ok(l.peer.f(req)) && l1.peer == l.peer.(phase := Idle)
  {
    hide FirstLeg, GetFrom;
    var rsp := l.peer.f(req);
    var k := Gets(l.peer, |rsp|, 0, 0);
    FirstLegHonest(c, p, handle, req, cap, l, k);
    var (l1, r) := FirstLeg(c, p, handle, req, cap, l);
    if r == Ok(LargeResponse(p.ver, l.peer.handle)) && l1.peer == l.peer.(phase := Serving(l.peer.handle, 0, rsp, 0)) && rsp != [] {
      GetsPhase(l.peer, l1.peer.phase, |rsp|, 0, 0);
      assert rsp[..0] == [];
      GetHonest(c, p.ver, l.peer.handle, Min(cap, MAX_MSG_SIZE), l1, rsp, 0, 0, 0);
    }
  }

  // ----- Progress and bounds, whatever the peer does -----

  /** The chunk count in closed form: the first chunk holds limit - 16 bytes, n - 1 others limit - 12 each. */
  lemma {:induction false} SendsClosedForm(limit: nat, left: nat, num: nat)
    requires limit >= MIN_TRANSFER && left > 0
    ensures
      var first, rest, n := limit - ChunkHeader(num), limit - HDR, Sends(limit, left, num);
      if left <= first then n == 1 else (n - 2) * rest < left - first <= (n - 1) * rest
    decreases left
  {
    var first, rest := limit - ChunkHeader(num), limit - HDR;
    if left > first {
      SendsClosedForm(limit, left - first, num + 1);
      var m: int := Sends(limit, left - first, num + 1);
      OneMore(m - 2, rest);
      OneMore(m - 1, rest);
    }
  }

  lemma OneMore(k: int, b: nat)
    ensures (k + 1) * b == k * b + b
  {
  }

  /** The CHUNK_SENDs of a request, in order. */
  function SendMessages(ver: byte, limit: nat, handle: byte, req: bytes, sent: nat, num: nat): (ms: seq<bytes>)
    requires limit >= MIN_TRANSFER && sent <= |req|
    ensures |ms| == Sends(limit, |req| - sent, num)
    decreases |req| - sent
  {
    if sent == |req| then []
    else [SendMessage(ver, limit, handle, req, sent, num)] +
         SendMessages(ver, limit, handle, req, sent + Take(limit, num, |req| - sent), num + 1)
  }

  /** The payload of the chunk message with number num. */
  function Payload(m: bytes, num: nat): bytes {
    if |m| < ChunkHeader(num) then [] else m[ChunkHeader(num)..]
  }

  function Payloads(ms: seq<bytes>, num: nat): bytes {
    if ms == [] then [] else Payload(ms[0], num) + Payloads(ms[1..], num + 1)
  }

  lemma SendMessageShape(ver: byte, limit: nat, handle: byte, req: bytes, sent: nat, num: nat)
    requires limit >= MIN_TRANSFER && sent < |req|
    ensures
      var n := Take(limit, num, |req| - sent);
      var m := SendMessage(ver, limit, handle, req, sent, num);
      m[2] == (if sent + n == |req| then 1 else 0) && Payload(m, num) == req[sent..sent + n]
  {
    hide LE, SeqField;
  }

  /** Every chunk fits the limit, carries something, LastChunk is on the last and only there, and nothing is lost. */
  lemma {:induction false} ChunksPartition(ver: byte, limit: nat, handle: byte, req: bytes, sent: nat, num: nat)
    requires limit >= MIN_TRANSFER && sent <= |req|
    ensures
      var ms := SendMessages(ver, limit, handle, req, sent, num);
      && Payloads(ms, num) == req[sent..]
      && forall i :: 0 <= i < |ms| ==> ChunkHeader(num + i) < |ms[i]| <= limit && ms[i][2] == (if i == |ms| - 1 then 1 else 0)
    decreases |req| - sent
  {
    hide SendMessage, Payload, Take;
    if sent < |req| {
      var n := Take(limit, num, |req| - sent);
      var m := SendMessage(ver, limit, handle, req, sent, num);
      SendMessageShape(ver, limit, handle, req, sent, num);
      ChunksPartition(ver, limit, handle, req, sent + n, num + 1);
      var rest := SendMessages(ver, limit, handle, req, sent + n, num + 1);
      var ms := SendMessages(ver, limit, handle, req, sent, num);
      assert ms == [m] + rest && ms[1..] == rest;
      assert req[sent..sent + n] + req[sent + n..] == req[sent..];
      forall i | 0 <= i < |ms|
        ensures ChunkHeader(num + i) < |ms[i]| <= limit && ms[i][2] == (if i == |ms| - 1 then 1 else 0)
      {
        if i > 0 {
          assert ms[i] == rest[i - 1] && ChunkHeader(num + i) == ChunkHeader(num + 1 + (i - 1));
        }
      }
    } else {
      assert req[sent..] == [];
    }
  }

  /** l1 has sent a prefix of ms since l, and all of it if complete. */
  predicate SentPrefix(l: Line, l1: Line, ms: seq<bytes>, complete: bool) {
    && |l.log| <= |l1.log| <= |l.log| + |ms| && l1.log == l.log + ms[..|l1.log| - |l.log|]
    && (complete ==> |l1.log| == |l.log| + |ms|)
  }

  lemma PrefixStep(l: Line, l1: Line, l2: Line, m: bytes, rest: seq<bytes>, complete: bool)
    requires l1.log == l.log + [m] && SentPrefix(l1, l2, rest, complete)
    ensures SentPrefix(l, l2, [m] + rest, complete)
  {
    var k := |l2.log| - |l1.log|;
    assert ([m] + rest)[..k + 1] == [m] + rest[..k];
    assert l.log + [m] + rest[..k] == l.log + ([m] + rest[..k]);
  }

  /** Whatever the peer answers, what goes out is a prefix of the request's chunks, and all of them on success. */
  lemma {:induction false} SendsPrefix(c: Crypto, ver: byte, limit: nat, handle: byte, req: bytes, cap: nat, l: Line, sent: nat, num: nat)
    requires c.AeadCorrect() && l.Valid() && limit >= MIN_TRANSFER && sent < |req|
    ensures
      var (l1, r) := SendFrom(c, ver, limit, handle, req, cap, l, sent, num);
      SentPrefix(l, l1, SendMessages(ver, limit, handle, req, sent, num), r.Ok?)
    decreases |req| - sent
  {
    hide Xfer, JudgeAck, SendMessage, Take;
    var m := SendMessage(ver, limit, handle, req, sent, num);
    var sent1 := sent + Take(limit, num, |req| - sent);
    var rest := SendMessages(ver, limit, handle, req, sent1, num + 1);
    var ms := SendMessages(ver, limit, handle, req, sent, num);
    assert ms == [m] + rest;
    if SeqOk(ver, num) {
      var (l1, ack) := Xfer(c, l, m, DATA_TRANSFER_SIZE);
      XferLog(c, l, m, DATA_TRANSFER_SIZE);
      if ack.Ok? {
        var v := JudgeAck(ver, handle, num, sent1 == |req|, ack.value);
        if v.More? {
          SendsPrefix(c, ver, limit, handle, req, cap, l1, sent1, num + 1);
          var (l2, r) := SendFrom(c, ver, limit, handle, req, cap, l1, sent1, num + 1);
          PrefixStep(l, l1, l2, m, rest, r.Ok?);
        } else {
          DoneMeansLast(ver, handle, num, sent1 == |req|, ack.value);
          assert ms[..1] == [m];
        }
      } else {
        assert ms[..1] == [m] && ms[..0] == [];
      }
    } else {
      assert ms[..0] == [];
    }
  }

  lemma DoneMeansLast(ver: byte, handle: byte, num: nat, last: bool, ack: bytes)
    ensures JudgeAck(ver, handle, num, last, ack).Done? ==> last
  {
  }

  /** A transfer that succeeds has sent its message. */
  lemma XferLog(c: Crypto, l: Line, msg: bytes, cap: nat)
    requires c.AeadCorrect() && l.Valid()
    ensures
      var (l1, r) := Xfer(c, l, msg, cap);
      && (r.Ok? ==> l1.log == l.log + [msg])
      && (l1.log == l.log || (l1.log == l.log + [msg] && l1.log[|l.log|..] == [msg]))
  {
    hide Channel.Transact, PeerStep;
  }

  /**
   * Whatever the peer answers, a reassembly takes at most one round per byte that the caller can hold, and its
   * 16-bit sequence guard is never what stops it.
   */
  lemma {:induction false} GetsBounded(c: Crypto, ver: byte, handle: byte, cap: nat, l: Line, num: nat, total: nat, got: bytes)
    requires c.AeadCorrect() && l.Valid() && (num == 0 ==> got == []) && (num > 0 ==> |got| < total <= cap)
    requires num <= |got| && cap <= MAX_MSG_SIZE
    ensures
      var (l1, r) := GetFrom(c, ver, handle, cap, l, num, total, got);
      && SeqOk(ver, num)
      && |l.log| <= |l1.log| <= |l.log| + (if num == 0 then (if cap == 0 then 1 else cap) else total - |got|)
      && (forall i :: |l.log| <= i < |l1.log| ==> l1.log[i] == GetRequest(ver, handle, num + i - |l.log|))
      && (r.Ok? ==> got <= r.value && (num > 0 ==> |r.value| == total))
    decreases if num == 0 then cap + 1 else total - |got|
  {
    hide Xfer, JudgeChunk, GetRequest;
    var (l1, msg) := Xfer(c, l, GetRequest(ver, handle, num), DATA_TRANSFER_SIZE);
    XferLog(c, l, GetRequest(ver, handle, num), DATA_TRANSFER_SIZE);
    if msg.Ok? {
      var j := JudgeChunk(ver, handle, num, cap, total, |got|, msg.value);
      if j.Good? && !j.last {
        GetsBounded(c, ver, handle, cap, l1, num + 1, j.total, got + j.data);
        var l2 := GetFrom(c, ver, handle, cap, l1, num + 1, j.total, got + j.data).0;
        forall i | |l.log| <= i < |l2.log|
          ensures l2.log[i] == GetRequest(ver, handle, num + i - |l.log|)
        {
          if i == |l.log| {
            GetLogPrefix(c, ver, handle, cap, l1, num + 1, j.total, got + j.data);
            assert l2.log[i] == l1.log[i];
          }
        }
      }
    }
  }

  lemma {:induction false} GetLogPrefix(c: Crypto, ver: byte, handle: byte, cap: nat, l: Line, num: nat, total: nat, got: bytes)
    requires c.AeadCorrect() && l.Valid() && (num == 0 ==> got == []) && (num > 0 ==> |got| < total <= cap)
    ensures l.log <= GetFrom(c, ver, handle, cap, l, num, total, got).0.log
    decreases if num == 0 then cap + 1 else total - |got|
  {
    hide Xfer, JudgeChunk, GetRequest;
    if SeqOk(ver, num) {
      var (l1, msg) := Xfer(c, l, GetRequest(ver, handle, num), DATA_TRANSFER_SIZE);
      XferLog(c, l, GetRequest(ver, handle, num), DATA_TRANSFER_SIZE);
      if msg.Ok? {
        var j := JudgeChunk(ver, handle, num, cap, total, |got|, msg.value);
        if j.Good? && !j.last {
          GetLogPrefix(c, ver, handle, cap, l1, num + 1, j.total, got + j.data);
        }
      }
    }
  }

  // ----- The engine -----

  /** One turn of the reassembly loop. */
  lemma GetTurn(c: Crypto, ver: byte, handle: byte, cap: nat, l: Line, num: nat, total: nat, got: bytes)
    requires c.AeadCorrect() && l.Valid() && (num == 0 ==> got == []) && (num > 0 ==> |got| < total <= cap)
    ensures
      var r := GetFrom(c, ver, handle, cap, l, num, total, got);
      var (l1, msg) := Xfer(c, l, GetRequest(ver, handle, num), DATA_TRANSFER_SIZE);
      if !SeqOk(ver, num) then r == (l, Err(ChunkErr))
      else if msg.Err? then r == (l1, msg)
      else
        var j := JudgeChunk(ver, handle, num, cap, total, |got|, msg.value);
        if j.Bad? then r == (l1, Err(j.rc))
        else r == if j.last then (l1, Ok(got + j.data)) else GetFrom(c, ver, handle, cap, l1, num + 1, j.total, got + j.data)
  {
    hide Xfer, JudgeChunk, GetRequest;
  }

  class ChunkEngine {
    const c: Crypto
    const params: Params
    var chunkHandle: byte
    var line: Line

    ghost predicate Valid()
      reads this
    {
      c.AeadCorrect() && params.Valid() && line.Valid()
    }

    constructor (c: Crypto, params: Params, line: Line)
      requires c.AeadCorrect() && params.Valid() && line.Valid()
      ensures Valid() && this.c == c && this.params == params && this.line == line && chunkHandle == 0
    {
      this.c, this.params, this.line, chunkHandle := c, params, line, 0;
    }

    /** One message in the clear. */
    method SendReceive(msg: bytes, cap: nat) returns (r: Result<bytes>)
      requires Valid() && line.session.None?
      modifies this`line
      ensures Valid() && (line, r) == Xfer(c, old(line), msg, cap)
    {
      hide PeerStep;
      var (peer, reply) := PeerStep(line.peer, msg);
      line := line.(peer := peer, log := line.log + [msg]);
      if reply == None || |reply.value| > cap {
        return Err(IoFail);
      }
      r := Ok(reply.value);
    }

    /** One message in a record each way; the peer sees it only if it could be sealed. */
    method SecuredXfer(msg: bytes, cap: nat) returns (r: Result<bytes>)
      requires Valid() && line.session.Some?
      modifies this`line
      ensures Valid() && (line, r) == Xfer(c, old(line), msg, cap)
    {
      hide PeerStep, Channel.Transact;
      var s := line.session.value;
      var (peer, reply) := PeerStep(line.peer, msg);
      var exchange := Channel.Exchange(msg, [], if reply == None then [] else reply.value, []);
      Channel.TransactMirrors(c, Mctp, s.sid, s.pair, exchange);
      var (pair, asked, answered) := Channel.Transact(c, Mctp, s.sid, s.pair, exchange);
      line := line.(session := Some(Session(s.sid, pair)));
      if asked == None {
        return Err(SequenceErr);
      }
      line := line.(peer := peer, log := line.log + [msg]);
      if reply == None || answered == None {
        return Err(IoFail);
      }
      if |answered.value| > cap {
        return Err(BufferSmall);
      }
      r := Ok(answered.value);
    }

    method ChunkXfer(msg: bytes, cap: nat) returns (r: Result<bytes>)
      requires Valid()
      modifies this`line
      ensures Valid() && (line, r) == Xfer(c, old(line), msg, cap)
      ensures Transferred(old(line), line, r, msg, cap)
    {
      hide Xfer, Transferred;
      XferMeans(c, line, msg, cap);
      if line.session.Some? {
        r := SecuredXfer(msg, cap);
      } else {
        r := SendReceive(msg, cap);
      }
    }

    /** Copies src to the caller's buffer if it holds it. */
    method CopyOut(src: bytes, rsp: array<byte>) returns (rc: Rc, len: nat)
      modifies rsp
      ensures rc == (if |src| > rsp.Length then BufferSmall else Success)
      ensures rc == Success ==> len == |src| && rsp[..len] == src
      ensures rc != Success ==> rsp[..] == old(rsp[..])
    {
      if |src| > rsp.Length {
        return BufferSmall, 0;
      }
      for i := 0 to |src|
        invariant rsp[..i] == src[..i]
        invariant forall k :: i <= k < rsp.Length ==> rsp[k] == old(rsp[k])
      {
        rsp[i] := src[i];
      }
      return Success, |src|;
    }

    /** The loop over the request: build, send, judge the acknowledgement. */
    method ChunkSend(req: bytes, rsp: array<byte>) returns (rc: Rc, len: nat)
      requires Valid() && |req| > 0
      modifies this, rsp
      ensures Valid() && chunkHandle as nat == (old(chunkHandle) as nat + 1) % 256
      ensures
        var (l, r) := SendFrom(c, params.ver, params.Limit(), old(chunkHandle), req, rsp.Length, old(line), 0, 0);
        line == l && if r.Ok? then rc == Success && len <= rsp.Length && rsp[..len] == r.value else rc == r.rc
    {
      hide Xfer, JudgeAck, SendMessage;
      var handle := chunkHandle;
      chunkHandle := ((chunkHandle as nat + 1) % 256) as byte;
      var limit := params.Limit();
      var sent: nat, num: nat, done := 0, 0, false;
      rc, len := Success, 0;
      while !done
        invariant Valid() && chunkHandle == ((old(chunkHandle) as nat + 1) % 256) as byte
        invariant !done ==> rc == Success && sent < |req|
        invariant !done ==> SendFrom(c, params.ver, limit, handle, req, rsp.Length, line, sent, num)
                            == SendFrom(c, params.ver, limit, handle, req, rsp.Length, old(line), 0, 0)
        invariant done ==>
          var (l, r) := SendFrom(c, params.ver, limit, handle, req, rsp.Length, old(line), 0, 0);
          line == l && if r.Ok? then rc == Success && len <= rsp.Length && rsp[..len] == r.value else rc == r.rc
        decreases if done then 0 else 1 + |req| - sent
      {
        if !SeqOk(params.ver, num) {
          return ChunkErr, 0;
        }
        var msg := SendMessage(params.ver, limit, handle, req, sent, num);
        sent := sent + Take(limit, num, |req| - sent);
        var ack := ChunkXfer(msg, DATA_TRANSFER_SIZE);
        if ack.Err? {
          return ack.rc, 0;
        }
        match JudgeAck(params.ver, handle, num, sent == |req|, ack.value)
        case Fail(bad) =>
          return bad, 0;
        case More =>
          num := num + 1;
        case Done(out) =>
          rc, len := CopyOut(out, rsp);
          done := true;
      }
    }

    /** The loop over the response, straight into the caller's buffer and never past cap of it. */
    method ChunkGet(handle: byte, rsp: array<byte>) returns (rc: Rc, len: nat)
      requires Valid()
      modifies this`line, rsp
      ensures Valid()
      ensures
        var (l, r) := GetFrom(c, params.ver, handle, Min(rsp.Length, MAX_MSG_SIZE), old(line), 0, 0, []);
        line == l && if r.Ok? then rc == Success && len <= rsp.Length && rsp[..len] == r.value else rc == r.rc
      ensures forall k :: MAX_MSG_SIZE <= k < rsp.Length ==> rsp[k] == old(rsp[k])
    {
      hide Xfer, JudgeChunk, GetRequest, GetFrom;
      var cap := Min(rsp.Length, MAX_MSG_SIZE);
      var total: nat, off: nat, num: nat, last := 0, 0, 0, false;
      rc, len := Success, 0;
      while !last
        invariant Valid() && off <= cap && (num == 0 ==> off == 0)
        invariant !last && num > 0 ==> off < total <= cap
        invariant !last ==> GetFrom(c, params.ver, handle, cap, line, num, total, rsp[..off])
                            == GetFrom(c, params.ver, handle, cap, old(line), 0, 0, [])
        invariant last ==> off == total && GetFrom(c, params.ver, handle, cap, old(line), 0, 0, []) == (line, Ok(rsp[..off]))
        invariant forall k :: MAX_MSG_SIZE <= k < rsp.Length ==> rsp[k] == old(rsp[k])
        decreases if last then 0 else if num == 0 then cap + 2 else 1 + total - off
      {
        GetTurn(c, params.ver, handle, cap, line, num, total, rsp[..off]);
        if !SeqOk(params.ver, num) {
          return ChunkErr, 0;
        }
        var msg := ChunkXfer(GetRequest(params.ver, handle, num), DATA_TRANSFER_SIZE);
        if msg.Err? {
          return msg.rc, 0;
        }
        match JudgeChunk(params.ver, handle, num, cap, total, off, msg.value)
        case Bad(bad) =>
          return bad, 0;
        case Good(all, data, final) =>
          ghost var got := rsp[..off];
          CopyAt(data, rsp, off);
          assert rsp[..off + |data|] == got + data;
          total := all;
          off := off + |data|;
          last := final;
          num := num + 1;
      }
      len := total;
    }

    /** Writes data at off. */
    method CopyAt(data: bytes, rsp: array<byte>, off: nat)
      requires off + |data| <= rsp.Length
      modifies rsp
      ensures rsp[..off] == old(rsp[..off]) && rsp[off..off + |data|] == data && rsp[off + |data|..] == old(rsp[off + |data|..])
    {
      for i := 0 to |data|
        invariant forall k :: 0 <= k < i ==> rsp[off + k] == data[k]
        invariant forall k :: 0 <= k < off || off + i <= k < rsp.Length ==> rsp[k] == old(rsp[k])
      {
        rsp[off + i] := data[i];
      }
    }

    /** One request and its response, whatever their sizes. */
    method ChunkExchange(req: bytes, rsp: array<byte>) returns (rc: Rc, len: nat)
      requires Valid()
      modifies this, rsp
      ensures Valid()
      ensures
        var (l, r) := Exchange(c, params, old(chunkHandle), req, rsp.Length, old(line));
        line == l && if r.Ok? then rc == Success && len <= rsp.Length && rsp[..len] == r.value else rc == r.rc
    {
      hide Xfer, SendFrom, GetFrom;
      var limit := params.Limit();
      rc, len := Success, 0;
      if |req| <= limit {
        var r := ChunkXfer(req, rsp.Length);
        if r.Err? {
          return r.rc, 0;
        }
        rc, len := CopyOut(r.value, rsp);
      } else if params.maxMsg != 0 && |req| > params.maxMsg {
        return BufferSmall, 0;
      } else {
        rc, len := ChunkSend(req, rsp);
      }
      if rc == Success && len >= 5 && rsp[0] == params.ver && rsp[1] == SPDM_ERROR && rsp[2] == ERROR_LARGE_RESPONSE {
        rc, len := ChunkGet(rsp[4], rsp);
      }
    }
  }
}
