/** Attestation (spdm_attest.c): the running transcripts L1/L2 and M1, measurement records and CHALLENGE. */
module Attestation {
  import opened Bytes
  import opened Codes
  import opened Crypto
  import opened Records
  import opened Context
  import opened Certificates

  const NONCE_SIZE: nat := 32
  const CONTEXT_SIZE: nat := 8
  const BLOCK_HDR: nat := 4
  const MEAS_SPEC_DMTF: byte := 1
  const MAX_MEAS_RECORD: nat := 1024
  const SIGN_MEASUREMENTS: string := "responder-measurements signing"
  const SIGN_CHALLENGE: string := "responder-challenge_auth signing"

  /** A running hash: what it has absorbed, and whether it may be extended. */
  datatype RunState = None | Live | Open

  datatype Running = Running(state: RunState, data: bytes)

  const FREE := Running(RunState.None, [])

  /**
   * ver as negotiated, slot and hash of the chain fetched last, level the ML-DSA level of the responder's key,
   * dts its DataTransferSize, caps bits 2, 3 and 4 of CAPABILITIES.
   */
  datatype Peer = Peer(ver: byte, slot: byte, level: nat, certHash: bytes, dts: Limit,
                       canChallenge: bool, measUnsigned: bool, measSigned: bool)

  /** A snapshot of what attestation reads and changes. */
  datatype Att = Att(peer: Peer, store: Store, state: State, sid: nat, transcript: bytes, vcaLen: nat, l1l2: Running, m1: Running,
                     record: bytes, blocks: nat, draws: nat)
  {
    predicate Valid() {
      vcaLen <= |transcript|
    }

    function Vca(): bytes
      requires Valid()
    {
      transcript[..vcaLen]
    }
  }

  // ----- Running transcripts -----

  /** (Re)start at the VCA. */
  function RunStart(x: Att): Running
    requires x.Valid()
  {
    Running(Live, x.Vca())
  }

  function RunAdd(r: Running, req: bytes, rsp: bytes): Running {
    r.(data := r.data + req + rsp)
  }

  function SigSize(level: nat): nat {
    match level
    case 2 => 2420
    case 3 => 3309
    case 5 => 4627
    case _ => ECC_SIG_SIZE
  }

  /** wolfSPDM_VerifyRspSig: ECDSA over the hash of the signing input, ML-DSA over the input itself. */
  function VerifyRspSig(c: Crypto, key: Option<bytes>, p: Peer, what: string, digest: bytes, sig: bytes): Rc
    requires |what| <= 36
  {
    if key.None? then BadState
    else if |sig| != SigSize(p.level) then BadSignature
    else
      var m := SignedMessage(p.ver, what, digest);
      var ok := if p.level == 2 || p.level == 3 || p.level == 5 then c.pqcVerify(p.level, key.value, Ascii(what), m, sig)
                else c.verify(key.value, c.hash(m), sig);
      if ok then Success else BadSignature
  }

  /**
   * What a good signature of the responder is: a key to check it with, the size of the algorithm, and the algorithm's own
   * verdict, ML-DSA's over the signing input with its context string or ECDSA's over the hash of the signing input.
   */
  ghost predicate GoodSignature(c: Crypto, key: Option<bytes>, ver: byte, level: nat, what: string, digest: bytes, sig: bytes)
    requires |what| <= 36
  {
    key.Some? &&
    if level == 2 || level == 3 || level == 5 then
      && |sig| == (if level == 2 then 2420 else if level == 3 then 3309 else 4627)
      && c.pqcVerify(level, key.value, Ascii(what), SignedMessage(ver, what, digest), sig)
    else |sig| == 96 && c.verify(key.value, c.hash(SignedMessage(ver, what, digest)), sig)
  }

  /** Exactly the good signatures are accepted; only a missing key has an error of its own. */
  lemma SignatureVerdict(c: Crypto, key: Option<bytes>, p: Peer, what: string, digest: bytes, sig: bytes)
    requires |what| <= 36
    ensures VerifyRspSig(c, key, p, what, digest, sig)
         == if GoodSignature(c, key, p.ver, p.level, what, digest, sig) then Success else if key.None? then BadState else BadSignature
  {
    hide SignedMessage, Ascii;
  }

  // ----- Parsing -----

  function ReqContextSize(ver: byte): nat {
    if ver >= 0x13 then CONTEXT_SIZE else 0
  }

  /** OpaqueLength, OpaqueData, the RequesterContext echo, then exactly sigSz bytes: where the signature starts. */
  function ParseTail(ver: byte, req: bytes, buf: bytes, off: nat, sigSz: nat): (s: Option<nat>)
    ensures s.Some? ==> s.value + sigSz == |buf|
  {
    var n := ReqContextSize(ver);
    if off + 2 > |buf| then Option.None
    else
      var end := off + 2 + Get16(buf, off);
      if end > |buf| || |buf| - end != n + sigSz || |req| < n || buf[end..end + n] != req[|req| - n..] then Option.None
      else Some(end + n)
  }

  /** record is exactly n blocks, each a 4-byte header whose last two bytes give the length of its value. */
  predicate Partition(record: bytes, n: nat) {
    if n == 0 then record == []
    else |record| >= BLOCK_HDR && BLOCK_HDR + Get16(record, 2) <= |record| && Partition(record[BLOCK_HDR + Get16(record, 2)..], n - 1)
  }

  /** The k-th block, header included. */
  function Block(record: bytes, n: nat, k: nat): (b: bytes)
    requires Partition(record, n) && k < n
    ensures |b| >= BLOCK_HDR && |b| == BLOCK_HDR + Get16(b, 2)
  {
    var len := BLOCK_HDR + Get16(record, 2);
    if k == 0 then assert record[..len][2..4] == record[2..4]; record[..len] else Block(record[len..], n - 1, k - 1)
  }

  function RecordLength(buf: bytes): nat
    requires |buf| >= 8
  {
    buf[5] as nat + 0x100 * buf[6] as nat + 0x1_0000 * buf[7] as nat
  }

  predicate SignedRequest(req: bytes)
    requires |req| >= 4
  {
    req[2] % 2 == 1
  }

  function TailSize(p: Peer, req: bytes): nat
    requires |req| >= 4
  {
    if SignedRequest(req) then SigSize(p.level) else 0
  }

  /** wolfSPDM_ParseMeasurements: where the signature starts, or why the response is refused. */
  function ParseMeasurements(p: Peer, req: bytes, buf: bytes): (s: Result<nat>)
    requires |req| >= 4
    ensures s.Err? ==> s.rc != Success
    ensures s.Ok? ==>
              && |buf| >= 8 && 8 + RecordLength(buf) <= |buf|
              && Partition(buf[8..8 + RecordLength(buf)], buf[4] as nat)
              && s.value + TailSize(p, req) == |buf|
  {
    if |buf| < 4 || (|buf| < 8 && buf[1] != SPDM_ERROR) then Err(InvalidArg)
    else if buf[1] != MEASUREMENTS then Err(if buf[1] == SPDM_ERROR then PeerError else MeasurementErr)
    else if buf[0] != p.ver || 8 + RecordLength(buf) > |buf| || (SignedRequest(req) && buf[3] % 16 != p.slot) then Err(MeasurementErr)
    else if !Partition(buf[8..8 + RecordLength(buf)], buf[4] as nat) then Err(MeasurementErr)
    else match ParseTail(p.ver, req, buf, 8 + RecordLength(buf) + NONCE_SIZE, TailSize(p, req))
      case None => Err(MeasurementErr)
      case Some(off) => Ok(off)
  }

  /** wolfSPDM_ParseChallengeAuth. */
  function ParseChallengeAuth(p: Peer, req: bytes, buf: bytes): (s: Result<nat>)
    requires |req| >= 4
    ensures s.Err? ==> s.rc != Success
    ensures s.Ok? ==> s.value + SigSize(p.level) == |buf|
  {
    var off := 4 + HASH_SIZE + NONCE_SIZE + if req[3] != 0 then HASH_SIZE else 0;
    if |buf| < 4 then Err(InvalidArg)
    else if buf[1] != CHALLENGE_AUTH then Err(if buf[1] == SPDM_ERROR then PeerError else ChallengeErr)
    else if buf[0] != p.ver || buf[2] % 16 != req[2] || |buf| < off || buf[4..4 + HASH_SIZE] != p.certHash then Err(ChallengeErr)
    else match ParseTail(p.ver, req, buf, off, SigSize(p.level))
      case None => Err(ChallengeErr)
      case Some(s) => Ok(s)
  }

  // ----- Requests -----

  function DrawsFor(n: nat): nat {
    if n > 0 then 1 else 0
  }

  /** GET_MEASUREMENTS: a nonce and the slot with a signed request, from 1.3 a RequesterContext at the end. */
  function MeasurementsRequest(e: Env, p: Peer, draws: nat, operation: byte, signed: bool): (req: bytes)
    ensures |req| >= 4 && SignedRequest(req) == signed
  {
    var n := ReqContextSize(p.ver);
    [p.ver, GET_MEASUREMENTS, if signed then 1 else 0, operation] +
    (if signed then e.rnd(draws, NONCE_SIZE) + [p.slot] else []) +
    (if n > 0 then e.rnd(draws + (if signed then 1 else 0), n) else [])
  }

  function ChallengeRequest(e: Env, p: Peer, draws: nat, slot: byte, hashType: byte): (req: bytes)
    ensures |req| >= 4 && req[2] == slot && req[3] == hashType
  {
    [p.ver, CHALLENGE, slot, hashType] + e.rnd(draws, NONCE_SIZE + ReqContextSize(p.ver))
  }

  /** The fields of GET_MEASUREMENTS read back: operation, and with a signed request a random nonce and the slot. */
  lemma MeasurementsAsked(e: Env, p: Peer, draws: nat, operation: byte, signed: bool)
    requires Sized(e.rnd)
    ensures
      var req := MeasurementsRequest(e, p, draws, operation, signed);
      var nonce := if signed then NONCE_SIZE + 1 else 0;
      && |req| == 4 + nonce + (if p.ver >= 0x13 then 8 else 0)
      && req[..4] == [p.ver, 0xE0, if signed then 1 else 0, operation]
      && (signed ==> req[4..36] == e.rnd(draws, 32) && req[36] == p.slot)
      && (p.ver >= 0x13 ==> req[4 + nonce..] == e.rnd(if signed then draws + 1 else draws, 8))
  {
    hide Sized;
    SizesOf(e, draws);
    var req := MeasurementsRequest(e, p, draws, operation, signed);
    var head := [p.ver, GET_MEASUREMENTS, if signed then 1 else 0, operation];
    var mid := if signed then e.rnd(draws, NONCE_SIZE) + [p.slot] else [];
    var tail := if p.ver >= 0x13 then e.rnd(if signed then draws + 1 else draws, 8) else [];
    assert req == head + mid + tail;
  }

  lemma SizesOf(e: Env, draws: nat)
    requires Sized(e.rnd)
    ensures |e.rnd(draws, 32)| == 32 && |e.rnd(draws, 40)| == 40 && |e.rnd(draws, 8)| == 8 && |e.rnd(draws + 1, 8)| == 8
  {
  }

  /** CHALLENGE: slot and summary type, then one random string that is the nonce and from 1.3 the RequesterContext. */
  lemma ChallengeAsked(e: Env, p: Peer, draws: nat, slot: byte, hashType: byte)
    requires Sized(e.rnd)
    ensures
      var req := ChallengeRequest(e, p, draws, slot, hashType);
      var n := if p.ver >= 0x13 then 40 else 32;
      && |req| == 4 + n && req[..4] == [p.ver, 0x83, slot, hashType] && req[4..] == e.rnd(draws, n)
  {
    hide Sized;
    SizesOf(e, draws);
  }

  // ----- What the parsers accept -----

  /** OpaqueLength, OpaqueData, the end of the request repeated from 1.3 on, and the signature are all the rest. */
  ghost predicate TailAt(ver: byte, req: bytes, buf: bytes, off: nat, sigSz: nat, sigOff: nat) {
    var n := if ver >= 0x13 then 8 else 0;
    && off <= |buf| && sigOff <= |buf| && |buf| - sigOff == sigSz && n <= |req|
    && exists extra: bytes ::
         |extra| < 0x1_0000 && buf[off..] == LE(|extra|, 2) + extra + req[|req| - n..] + buf[sigOff..]
  }

  lemma TailMeans(ver: byte, req: bytes, buf: bytes, off: nat, sigSz: nat, sigOff: nat)
    ensures ParseTail(ver, req, buf, off, sigSz) == Some(sigOff) <==> TailAt(ver, req, buf, off, sigSz, sigOff)
  {
    hide LE, GetLE;
    if ParseTail(ver, req, buf, off, sigSz) == Some(sigOff) {
      TailSplits(ver, req, buf, off, sigSz, sigOff);
    }
    if TailAt(ver, req, buf, off, sigSz, sigOff) {
      var n := ReqContextSize(ver);
      var extra :| |extra| < 0x1_0000 && buf[off..] == LE(|extra|, 2) + extra + req[|req| - n..] + buf[sigOff..];
      TailJoins(buf, off, sigOff, extra, req[|req| - n..]);
    }
  }

  lemma TailSplits(ver: byte, req: bytes, buf: bytes, off: nat, sigSz: nat, sigOff: nat)
    requires ParseTail(ver, req, buf, off, sigSz) == Some(sigOff)
    ensures TailAt(ver, req, buf, off, sigSz, sigOff)
  {
    hide LE, GetLE;
    var n := ReqContextSize(ver);
    var end := off + 2 + Get16(buf, off);
    var extra := buf[off + 2..end];
    FieldIs(buf, off, 2, Get16(buf, off));
    Telescoped(buf, off, off + 2, end, end + n);
  }

  lemma TailJoins(buf: bytes, off: nat, sigOff: nat, extra: bytes, echo: bytes)
    requires off <= |buf| && sigOff <= |buf| && |extra| < 0x1_0000
    requires buf[off..] == LE(|extra|, 2) + extra + echo + buf[sigOff..]
    ensures
      var end := off + 2 + |extra|;
      end + |echo| == sigOff && Get16(buf, off) == |extra| && buf[end..end + |echo|] == echo
  {
    hide LE, GetLE;
    Pow256Values();
    PartsOf(buf, off, LE(|extra|, 2), extra, echo, buf[sigOff..]);
    SliceReads(buf, off, |extra|, 2);
  }

  lemma Telescoped(buf: bytes, off: nat, i: nat, j: nat, k: nat)
    requires off <= i <= j <= k <= |buf|
    ensures buf[off..] == buf[off..i] + buf[i..j] + buf[j..k] + buf[k..]
  {
  }

  lemma PartsOf(buf: bytes, off: nat, a: bytes, b: bytes, c: bytes, d: bytes)
    requires off <= |buf| && buf[off..] == a + b + c + d
    ensures off + |a| + |b| + |c| + |d| == |buf| && buf[off..off + |a|] == a
    ensures buf[off + |a| + |b|..off + |a| + |b| + |c|] == c
  {
    FourParts(a, b, c, d);
    var s := a + b + c + d;
    assert buf[off..|buf|] == s;
    SubSlice(buf, off, |buf|, 0, |a|);
    SubSlice(buf, off, |buf|, |a| + |b|, |a| + |b| + |c|);
  }

  lemma FourParts(a: bytes, b: bytes, c: bytes, d: bytes)
    ensures
      var s := a + b + c + d;
      && |s| == |a| + |b| + |c| + |d|
      && s[0..|a|] == a && s[|a| + |b|..|a| + |b| + |c|] == c
  {
  }

  /**
   * MEASUREMENTS is accepted exactly when version and code are right, a signed request is answered from its slot, the
   * record is there and is the announced number of blocks, and nonce, extra data, echo and signature are all the rest.
   */
  ghost predicate MeasurementsAt(p: Peer, req: bytes, buf: bytes, sigOff: nat)
    requires |req| >= 4
  {
    && |buf| >= 8 && buf[0] == p.ver && buf[1] == 0x60 && (req[2] % 2 == 1 ==> buf[3] % 16 == p.slot)
    && var end := 8 + buf[5] as nat + 256 * buf[6] as nat + 65536 * buf[7] as nat;
       && end <= |buf| && Partition(buf[8..end], buf[4] as nat)
       && TailAt(p.ver, req, buf, end + 32, if req[2] % 2 == 1 then SigSize(p.level) else 0, sigOff)
  }

  lemma MeasurementsAccepted(p: Peer, req: bytes, buf: bytes, sigOff: nat)
    requires |req| >= 4
    ensures ParseMeasurements(p, req, buf) == Ok(sigOff) <==> MeasurementsAt(p, req, buf, sigOff)
  {
    hide TailAt, ParseTail, Partition;
    if |buf| >= 8 {
      TailMeans(p.ver, req, buf, 8 + RecordLength(buf) + NONCE_SIZE, TailSize(p, req), sigOff);
    }
  }

  /** CHALLENGE_AUTH: version, code, slot and the hash of the fetched chain, then nonce, summary if one was asked, and the tail. */
  ghost predicate ChallengeAuthAt(p: Peer, req: bytes, buf: bytes, sigOff: nat)
    requires |req| >= 4
  {
    var off := 84 + if req[3] != 0 then 48 else 0;
    && |buf| >= off && buf[0] == p.ver && buf[1] == 0x03 && buf[2] % 16 == req[2] && buf[4..52] == p.certHash
    && TailAt(p.ver, req, buf, off, SigSize(p.level), sigOff)
  }

  lemma ChallengeAuthAccepted(p: Peer, req: bytes, buf: bytes, sigOff: nat)
    requires |req| >= 4
    ensures ParseChallengeAuth(p, req, buf) == Ok(sigOff) <==> ChallengeAuthAt(p, req, buf, sigOff)
  {
    hide TailAt, ParseTail;
    TailMeans(p.ver, req, buf, 84 + if req[3] != 0 then 48 else 0, SigSize(p.level), sigOff);
  }

  // ----- Operations -----

  /** What wolfSPDM_SecuredExchange does to L1/L2 before it sends: only back-to-back GET_MEASUREMENTS extend it. */
  function Demote(x: Att): Att {
    if x.l1l2.state == Open then x.(l1l2 := x.l1l2.(state := Live)) else x
  }

  /** hashed is what a signature was checked over, if one was; measured the exchange that joined L1/L2, if one did. */
  datatype Outcome = Outcome(x: Att, rc: Rc, secured: bool, measured: Option<bytes>, hashed: Option<bytes>)

  function Stop(x: Att, rc: Rc, secured: bool): Outcome {
    Outcome(x, rc, secured, Option.None, Option.None)
  }

  /** Keeps the record if the context can hold it. */
  function Keep(x: Att, rsp: bytes): (r: (Att, Rc))
    requires |rsp| >= 8 && 8 + RecordLength(rsp) <= |rsp|
  {
    if RecordLength(rsp) > MAX_MEAS_RECORD then (x, BufferSmall)
    else (x.(record := rsp[8..8 + RecordLength(rsp)], blocks := rsp[4] as nat), Success)
  }

  /** The response parsed: check its signature over L1/L2, or let it join L1/L2; then keep the record. */
  function Measured(c: Crypto, x: Att, req: bytes, rsp: bytes, sigOff: nat): Outcome
    requires |req| >= 4 && ParseMeasurements(x.peer, req, rsp) == Ok(sigOff)
  {
    if SignedRequest(req) then
      var hashed := x.l1l2.data + req + rsp[..sigOff];
      var x1 := x.(l1l2 := FREE);
      var rc := VerifyRspSig(c, x.store.rspPub, x.peer, SIGN_MEASUREMENTS, c.hash(hashed), rsp[sigOff..]);
      if rc != Success then Outcome(x1, rc, true, Option.None, Some(hashed))
      else
        var (x2, rc2) := Keep(x1, rsp);
        Outcome(x2, rc2, true, Option.None, Some(hashed))
    else
      var (x2, rc2) := Keep(x.(l1l2 := RunAdd(x.l1l2, req, rsp).(state := Open)), rsp);
      Outcome(x2, rc2, true, Some(req + rsp), Option.None)
  }

  /** The request through wolfSPDM_SecuredExchange, and what its reply leads to. */
  function Exchanging(e: Env, x: Att, operation: byte, signed: bool, reply: Result<bytes>): Outcome {
    var req := MeasurementsRequest(e, x.peer, x.draws, operation, signed);
    var x1 := x.(draws := x.draws + (if signed then 1 else 0) + DrawsFor(ReqContextSize(x.peer.ver)));
    if !SecuredReady(x1.state, x1.sid, Mctp) then Stop(x1, NotConnected, false)
    else
      var x2 := Demote(x1);
      if reply.Err? then Stop(x2, reply.rc, true)
      else match ParseMeasurements(x.peer, req, reply.value)
        case Err(rc) => Stop(x2, rc, true)
        case Ok(sigOff) => Measured(e.c, x2, req, reply.value, sigOff)
  }

  /** wolfSPDM_GetMeasurements; reply is what the secured exchange brings. */
  function GetMeasurements(e: Env, x: Att, operation: byte, signed: bool, reply: Result<bytes>): Outcome
    requires x.Valid()
  {
    if x.state != State.Connected then Stop(x, NotConnected, false)
    else if !x.peer.measSigned && (signed || !x.peer.measUnsigned) then Stop(x, CapsMismatch, false)
    else Exchanging(e, x.(record := [], blocks := 0, l1l2 := if x.l1l2.state == Open then x.l1l2 else RunStart(x)),
                    operation, signed, reply)
  }

  /** wolfSPDM_M1Add: nothing while no M1 is running. */
  function M1Add(x: Att, req: bytes, rsp: bytes): Att {
    if x.m1.state == RunState.None then x else x.(m1 := RunAdd(x.m1, req, rsp))
  }

  /** What KEY_EXCHANGE does to M1: it drops DIGESTS and CERTIFICATE. */
  function M1KeyExchange(x: Att): Att
    requires x.Valid()
  {
    if x.m1.state == RunState.None then x else x.(m1 := RunStart(x))
  }

  /** wolfSPDM_Challenge: the chain is validated first, which may install the key that the signature is checked with. */
  function Challenge(e: Env, pki: X509, x: Att, slot: byte, hashType: byte, reply: Result<bytes>): Outcome
    requires x.Valid()
  {
    if x.state.Rank() < State.Cert.Rank() || x.state == Failed || x.m1.state == RunState.None || slot != x.peer.slot then
      Stop(x, BadState, false)
    else if !x.peer.canChallenge then Stop(x, CapsMismatch, false)
    else
      var (store, chain) := Validate(e.c, pki, x.store);
      var x0 := x.(store := store);
      if chain != Success then Stop(x0, chain, false)
      else if slot > 7 then Stop(x0, InvalidArg, false)
      else Challenging(e, x0, slot, hashType, reply)
  }

  /** The request, and what its reply leads to. */
  function Challenging(e: Env, x: Att, slot: byte, hashType: byte, reply: Result<bytes>): Outcome
    requires x.Valid()
  {
    var req := ChallengeRequest(e, x.peer, x.draws, slot, hashType);
    var x1 := x.(draws := x.draws + 1);
    if reply.Err? then Stop(x1, reply.rc, false)
    else match ParseChallengeAuth(x.peer, req, reply.value)
      case Err(rc) => Stop(x1, rc, false)
      case Ok(sigOff) =>
        var hashed := x.m1.data + req + reply.value[..sigOff];
        var rc := VerifyRspSig(e.c, x.store.rspPub, x.peer, SIGN_CHALLENGE, e.c.hash(hashed), reply.value[sigOff..]);
        Outcome(x1.(m1 := if rc == Success then RunStart(x) else FREE), rc, false, Option.None, Some(hashed))
  }

  /** Every portion of the chain joins a running M1: its request and its response up to the end of the portion. */
  function M1AddAll(x: Att, heard: seq<bytes>): Att {
    if heard == [] then x else M1Add(M1AddAll(x, heard[..|heard| - 1]), heard[|heard| - 1], [])
  }

  /** Ct, the hash of the chain, joins the transcript if it fits; then the state is CERT. */
  function RecordCt(c: Crypto, x: Att): (Att, Rc) {
    var ct := c.hash(x.store.chain);
    var x1 := x.(peer := x.peer.(certHash := ct));
    if |ct| > MAX_TRANSCRIPT - |x.transcript| then (x1, BufferSmall)
    else (x1.(transcript := x.transcript + ct, state := State.Cert), Success)
  }

  /** What a retrieval, complete or not, leaves: the chain so far, no key taken from a chain, and M1 with every portion. */
  function Gathered(x: Att, slot: byte, f: Fetched): Att {
    M1AddAll(x.(peer := x.peer.(slot := slot), store := Unanchored(x.store).(chain := f.chain)), f.heard)
  }

  /** wolfSPDM_GetCertificate: the chain and M1, then Ct. */
  function GetCertificate(e: Env, x: Att, server: Server, slot: int): (r: (Att, Rc, seq<bytes>))
  {
    if slot < 0 || slot > 7 then (x, InvalidArg, [])
    else
      var f := Fetch(server, x.peer.ver, slot as byte, x.peer.dts);
      var x1 := Gathered(x, slot as byte, f);
      if f.rc != Success then (x1, f.rc, f.heard)
      else
        var (x2, rc) := RecordCt(e.c, x1);
        (x2, rc, f.heard)
  }

  // ----- What the transcripts are, over whole histories -----

  /** What happened, as far as the running transcripts are concerned. */
  datatype Event =
    | Negotiated(vca: bytes)           // algorithms negotiated: the transcript so far is the VCA
    | Dropped                         // the session was reset
    | Secured(measured: Option<bytes>) // a secured exchange; the bytes of one that was a parsed unsigned GET_MEASUREMENTS
    | Heard(bytes: bytes)           // a DIGESTS or CERTIFICATE exchange that succeeded
    | Exchanged                       // KEY_EXCHANGE
    | Challenged(ok: bool)            // a CHALLENGE_AUTH whose signature was checked

  /** The VCA of the current connection. */
  function VcaOf(h: seq<Event>): bytes {
    if h == [] then []
    else match h[|h| - 1]
      case Negotiated(vca) => vca
      case _ => VcaOf(h[..|h| - 1])
  }

  /** The unsigned GET_MEASUREMENTS immediately before now: nothing but them since the last other secured exchange. */
  function BackToBack(h: seq<Event>): bytes {
    if h == [] then []
    else match h[|h| - 1]
      case Negotiated(_) => []
      case Dropped => []
      case Secured(m) => if m.Some? then BackToBack(h[..|h| - 1]) + m.value else []
      case _ => BackToBack(h[..|h| - 1])
  }

  /** The last secured exchange of the session was an unsigned GET_MEASUREMENTS. */
  predicate Extends(h: seq<Event>) {
    h != [] &&
    match h[|h| - 1]
    case Negotiated(_) => false
    case Dropped => false
    case Secured(m) => m.Some?
    case _ => Extends(h[..|h| - 1])
  }

  /** DIGESTS and CERTIFICATE since M1 last restarted. */
  function FetchedSince(h: seq<Event>): bytes {
    if h == [] then []
    else match h[|h| - 1]
      case Heard(b) => FetchedSince(h[..|h| - 1]) + b
      case Secured(_) => FetchedSince(h[..|h| - 1])
      case _ => []
  }

  /** M1 is running: started by negotiation, and not lost to a reset or a failed challenge. */
  predicate M1Runs(h: seq<Event>) {
    h != [] &&
    match h[|h| - 1]
    case Negotiated(_) => true
    case Dropped => false
    case Challenged(ok) => ok
    case _ => M1Runs(h[..|h| - 1])
  }

  /** The state agrees with the history. */
  predicate Tracks(x: Att, h: seq<Event>) {
    && x.Valid() && x.Vca() == VcaOf(h)
    && (x.l1l2.state == Open <==> Extends(h)) && (Extends(h) ==> x.l1l2.data == VcaOf(h) + BackToBack(h))
    && (x.m1.state != RunState.None <==> M1Runs(h)) && (M1Runs(h) ==> x.m1.data == VcaOf(h) + FetchedSince(h))
  }

  lemma {:induction false} NotExtending(h: seq<Event>)
    ensures !Extends(h) ==> BackToBack(h) == []
  {
    if h != [] && (h[|h| - 1].Heard? || h[|h| - 1].Exchanged? || h[|h| - 1].Challenged?) {
      NotExtending(h[..|h| - 1]);
    }
  }

  /** One more event, and what it makes of the five functions of the history. */
  lemma OneMore(h: seq<Event>, ev: Event)
    ensures (h + [ev])[..|h|] == h && (h + [ev])[|h + [ev]| - 1] == ev
  {
  }

  /** One call of the attestation interface, or of a flow that touches what it reads. */
  datatype Op =
    | Connect(peer: Peer, vca: bytes)
    | Reset
    | Become(state: State, sid: nat)
    | Record(data: bytes)
    | Digests(req: bytes, rsp: bytes)
    | Certify(server: Server, slot: int)
    | Exchange
    | OtherSecured
    | Measure(operation: byte, signed: bool, reply: Result<bytes>)
    | Attest(asked: byte, hashType: byte, reply: Result<bytes>)

  datatype Sys = Sys(x: Att, h: seq<Event>)

  /** wolfSPDM_ResetSession: no transcript is running, the measurements, capabilities and session are gone. */
  function Drop(x: Att): Att {
    x.(state := Init, sid := 0, l1l2 := FREE, m1 := FREE, record := [], blocks := 0,
       peer := x.peer.(dts := 0, canChallenge := false, measUnsigned := false, measSigned := false))
  }

  /** ConnectStandard up to a successful NEGOTIATE_ALGORITHMS. */
  function Negotiate(x: Att, peer: Peer, vca: bytes): Att {
    Drop(x).(peer := peer, state := Version, transcript := vca, vcaLen := |vca|, m1 := Running(Live, vca))
  }

  function MeasureEvents(o: Outcome): seq<Event> {
    if o.secured then [Secured(o.measured)] else []
  }

  function ChallengeEvents(o: Outcome): seq<Event> {
    if o.hashed.Some? then [Challenged(o.rc == Success)] else []
  }

  function FetchEvents(heard: seq<bytes>): seq<Event> {
    if heard == [] then [] else FetchEvents(heard[..|heard| - 1]) + [Heard(heard[|heard| - 1])]
  }

  function Step(e: Env, pki: X509, s: Sys, op: Op): Sys
    requires s.x.Valid()
  {
    match op
    case Connect(peer, vca) => Sys(Negotiate(s.x, peer, vca), s.h + [Negotiated(vca)])
    case Reset => Sys(Drop(s.x), s.h + [Dropped])
    case Become(state, sid) => s.(x := s.x.(state := state, sid := sid))
    case Record(data) => s.(x := s.x.(transcript := s.x.transcript + data))
    case Digests(req, rsp) => Sys(M1Add(s.x, req, rsp), s.h + [Heard(req + rsp)])
    case Certify(server, slot) =>
      var (x, _, heard) := GetCertificate(e, s.x, server, slot);
      Sys(x, s.h + FetchEvents(heard))
    case Exchange => Sys(M1KeyExchange(s.x), s.h + [Exchanged])
    case OtherSecured => Sys(Demote(s.x), s.h + [Secured(Option.None)])
    case Measure(operation, signed, reply) =>
      var o := GetMeasurements(e, s.x, operation, signed, reply);
      Sys(o.x, s.h + MeasureEvents(o))
    case Attest(slot, hashType, reply) =>
      var o := Challenge(e, pki, s.x, slot, hashType, reply);
      Sys(o.x, s.h + ChallengeEvents(o))
  }

  /** M1's share of the invariant, and the VCA. */
  predicate TracksM1(x: Att, h: seq<Event>) {
    && x.Valid() && x.Vca() == VcaOf(h)
    && (x.m1.state != RunState.None <==> M1Runs(h)) && (M1Runs(h) ==> x.m1.data == VcaOf(h) + FetchedSince(h))
  }

  /** Secured exchanges leave the VCA and M1 alone. */
  lemma Unmoved(h: seq<Event>, ev: Event)
    requires ev.Secured?
    ensures VcaOf(h + [ev]) == VcaOf(h) && M1Runs(h + [ev]) == M1Runs(h) && FetchedSince(h + [ev]) == FetchedSince(h)
  {
    OneMore(h, ev);
  }

  lemma OtherTracks(x: Att, h: seq<Event>)
    requires Tracks(x, h)
    ensures Tracks(Demote(x), h + [Secured(Option.None)])
  {
    OneMore(h, Secured(Option.None));
    Unmoved(h, Secured(Option.None));
  }

  /** A parsed response joins L1/L2 or is checked against it. */
  lemma MeasuredTracks(c: Crypto, x: Att, h: seq<Event>, req: bytes, rsp: bytes, sigOff: nat)
    requires |req| >= 4 && ParseMeasurements(x.peer, req, rsp) == Ok(sigOff)
    requires TracksM1(x, h) && x.l1l2.data == VcaOf(h) + BackToBack(h)
    ensures var o := Measured(c, x, req, rsp, sigOff); o.secured && Tracks(o.x, h + [Secured(o.measured)])
  {
    hide ParseMeasurements, VerifyRspSig, VcaOf, M1Runs, FetchedSince, Keep, SignedRequest;
    var o := Measured(c, x, req, rsp, sigOff);
    OneMore(h, Secured(o.measured));
    Unmoved(h, Secured(o.measured));
    KeepOnlyRecord(x.(l1l2 := FREE), rsp);
    KeepOnlyRecord(x.(l1l2 := RunAdd(x.l1l2, req, rsp).(state := Open)), rsp);
    assert VcaOf(h) + BackToBack(h) + req + rsp == VcaOf(h) + (BackToBack(h) + (req + rsp));
  }

  lemma KeepOnlyRecord(x: Att, rsp: bytes)
    requires |rsp| >= 8 && 8 + RecordLength(rsp) <= |rsp|
    ensures var z := Keep(x, rsp).0; z == x.(record := z.record, blocks := z.blocks)
  {
  }

  lemma ExchangingTracks(e: Env, x: Att, h: seq<Event>, operation: byte, signed: bool, reply: Result<bytes>)
    requires TracksM1(x, h) && x.l1l2.data == VcaOf(h) + BackToBack(h) && x.l1l2.state != RunState.None
    requires x.l1l2.state == Open <==> Extends(h)
    ensures var o := Exchanging(e, x, operation, signed, reply); Tracks(o.x, h + MeasureEvents(o))
  {
    hide ParseMeasurements, MeasurementsRequest, Measured, VcaOf, BackToBack, Extends, M1Runs, FetchedSince;
    var req := MeasurementsRequest(e, x.peer, x.draws, operation, signed);
    var x1 := x.(draws := x.draws + (if signed then 1 else 0) + DrawsFor(ReqContextSize(x.peer.ver)));
    assert h + [] == h;
    if SecuredReady(x1.state, x1.sid, Mctp) {
      if reply.Ok? && ParseMeasurements(x.peer, req, reply.value).Ok? {
        MeasuredTracks(e.c, Demote(x1), h, req, reply.value, ParseMeasurements(x.peer, req, reply.value).value);
      } else {
        OtherTracks(x1, h);
      }
    }
  }

  lemma MeasureTracks(e: Env, x: Att, h: seq<Event>, operation: byte, signed: bool, reply: Result<bytes>)
    requires Tracks(x, h)
    ensures var o := GetMeasurements(e, x, operation, signed, reply); Tracks(o.x, h + MeasureEvents(o))
  {
    hide Exchanging, VcaOf, M1Runs, FetchedSince;
    NotExtending(h);
    assert h + [] == h && VcaOf(h) + [] == VcaOf(h);
    ExchangingTracks(e, x.(record := [], blocks := 0, l1l2 := if x.l1l2.state == Open then x.l1l2 else RunStart(x)), h,
                     operation, signed, reply);
  }

  lemma ChallengeTracks(e: Env, pki: X509, x: Att, h: seq<Event>, slot: byte, hashType: byte, reply: Result<bytes>)
    requires Tracks(x, h)
    ensures var o := Challenge(e, pki, x, slot, hashType, reply); Tracks(o.x, h + ChallengeEvents(o))
  {
    hide ParseChallengeAuth, ChallengeRequest, VerifyRspSig, Validate, VcaOf, Extends, BackToBack, M1Runs, FetchedSince;
    var o := Challenge(e, pki, x, slot, hashType, reply);
    assert h + [] == h;
    if o.hashed.Some? {
      AfterChallenge(x, h, o.rc == Success);
      assert VcaOf(h) + [] == VcaOf(h);
    }
  }

  /** What a checked challenge makes of the functions of the history. */
  lemma AfterChallenge(x: Att, h: seq<Event>, ok: bool)
    ensures
      var h' := h + [Challenged(ok)];
      && VcaOf(h') == VcaOf(h) && Extends(h') == Extends(h) && BackToBack(h') == BackToBack(h)
      && M1Runs(h') == ok && FetchedSince(h') == []
  {
    OneMore(h, Challenged(ok));
  }

  lemma ConnectTracks(x: Att, h: seq<Event>, peer: Peer, vca: bytes)
    ensures Tracks(Negotiate(x, peer, vca), h + [Negotiated(vca)])
  {
    OneMore(h, Negotiated(vca));
    assert vca + [] == vca && vca[..|vca|] == vca;
  }

  lemma ResetTracks(x: Att, h: seq<Event>)
    requires Tracks(x, h)
    ensures Tracks(Drop(x), h + [Dropped])
  {
    OneMore(h, Dropped);
  }

  lemma FetchTracks(x: Att, h: seq<Event>, req: bytes, rsp: bytes)
    requires Tracks(x, h)
    ensures Tracks(M1Add(x, req, rsp), h + [Heard(req + rsp)])
  {
    OneMore(h, Heard(req + rsp));
    assert VcaOf(h) + FetchedSince(h) + req + rsp == VcaOf(h) + (FetchedSince(h) + (req + rsp));
  }

  lemma {:induction false} PortionsTrack(x: Att, h: seq<Event>, heard: seq<bytes>)
    requires Tracks(x, h)
    ensures Tracks(M1AddAll(x, heard), h + FetchEvents(heard))
    ensures M1AddAll(x, heard) == x.(m1 := M1AddAll(x, heard).m1)
    decreases |heard|
  {
    hide Tracks;
    if heard == [] {
      assert h + [] == h;
    } else {
      var front, last := heard[..|heard| - 1], heard[|heard| - 1];
      PortionsTrack(x, h, front);
      FetchTracks(M1AddAll(x, front), h + FetchEvents(front), last, []);
      assert last + [] == last;
      assert (h + FetchEvents(front)) + [Heard(last)] == h + (FetchEvents(front) + [Heard(last)]);
    }
  }

  lemma CertifyTracks(e: Env, x: Att, h: seq<Event>, server: Server, slot: int)
    requires Tracks(x, h)
    ensures var (y, _, heard) := GetCertificate(e, x, server, slot); Tracks(y, h + FetchEvents(heard))
  {
    hide Fetch, M1AddAll, FetchEvents, VcaOf, Extends, BackToBack, M1Runs, FetchedSince;
    if slot < 0 || slot > 7 {
      NoPortions();
      assert h + [] == h;
    } else {
      var f := Fetch(server, x.peer.ver, slot as byte, x.peer.dts);
      PortionsTrack(x.(peer := x.peer.(slot := slot as byte), store := Unanchored(x.store).(chain := f.chain)), h, f.heard);
      var x1 := Gathered(x, slot as byte, f);
      assert (x1.transcript + e.c.hash(x1.store.chain))[..x1.vcaLen] == x1.transcript[..x1.vcaLen];
    }
  }

  lemma NoPortions()
    ensures FetchEvents([]) == []
  {
  }

  lemma ExchangeTracks(x: Att, h: seq<Event>)
    requires Tracks(x, h)
    ensures Tracks(M1KeyExchange(x), h + [Exchanged])
  {
    OneMore(h, Exchanged);
    assert VcaOf(h) + [] == VcaOf(h);
  }

  lemma StepTracks(e: Env, pki: X509, s: Sys, op: Op)
    requires Tracks(s.x, s.h)
    ensures Tracks(Step(e, pki, s, op).x, Step(e, pki, s, op).h)
  {
    hide GetMeasurements, GetCertificate, Challenge, Negotiate, Drop, FetchEvents, M1Add, M1KeyExchange, Demote,
      VcaOf, Extends, BackToBack, M1Runs, FetchedSince;
    match op
    case Connect(peer, vca) => ConnectTracks(s.x, s.h, peer, vca);
    case Reset => ResetTracks(s.x, s.h);
    case Become(_, _) =>
    case Record(data) => assert (s.x.transcript + data)[..s.x.vcaLen] == s.x.transcript[..s.x.vcaLen];
    case Digests(req, rsp) => FetchTracks(s.x, s.h, req, rsp);
    case Certify(server, slot) => CertifyTracks(e, s.x, s.h, server, slot);
    case Exchange => ExchangeTracks(s.x, s.h);
    case OtherSecured => OtherTracks(s.x, s.h);
    case Measure(operation, signed, reply) => MeasureTracks(e, s.x, s.h, operation, signed, reply);
    case Attest(slot, hashType, reply) => ChallengeTracks(e, pki, s.x, s.h, slot, hashType, reply);
  }

  /** The stored record is exactly as many blocks as the count says, within the context's array. */
  predicate RecordOk(x: Att) {
    |x.record| <= MAX_MEAS_RECORD && Partition(x.record, x.blocks)
  }

  lemma MeasureKeepsRecord(e: Env, x: Att, operation: byte, signed: bool, reply: Result<bytes>)
    requires x.Valid() && RecordOk(x)
    ensures RecordOk(GetMeasurements(e, x, operation, signed, reply).x)
  {
    hide VerifyRspSig, MeasurementsRequest, ParseMeasurements;
  }

  lemma {:induction false} PortionsKeepRecord(x: Att, heard: seq<bytes>)
    ensures M1AddAll(x, heard).record == x.record && M1AddAll(x, heard).blocks == x.blocks
    decreases |heard|
  {
    if heard != [] {
      PortionsKeepRecord(x, heard[..|heard| - 1]);
    }
  }

  lemma StepKeepsRecord(e: Env, pki: X509, s: Sys, op: Op)
    requires s.x.Valid() && RecordOk(s.x)
    ensures RecordOk(Step(e, pki, s, op).x)
  {
    hide ParseChallengeAuth, ChallengeRequest, VerifyRspSig, Validate, GetMeasurements, Fetch, M1AddAll;
    if op.Measure? {
      MeasureKeepsRecord(e, s.x, op.operation, op.signed, op.reply);
    } else if op.Certify? && 0 <= op.slot <= 7 {
      var f := Fetch(op.server, s.x.peer.ver, op.slot as byte, s.x.peer.dts);
      PortionsKeepRecord(s.x.(peer := s.x.peer.(slot := op.slot as byte), store := Unanchored(s.x.store).(chain := f.chain)), f.heard);
    }
  }

  function Run(e: Env, pki: X509, s: Sys, ops: seq<Op>): (t: Sys)
    requires Tracks(s.x, s.h) && RecordOk(s.x)
    ensures Tracks(t.x, t.h) && RecordOk(t.x)
    decreases |ops|
  {
    if ops == [] then s
    else
      StepTracks(e, pki, s, ops[0]);
      StepKeepsRecord(e, pki, s, ops[0]);
      Run(e, pki, Step(e, pki, s, ops[0]), ops[1..])
  }

  const NO_STORE := Store([], [], Option.None, false, false)
  const NEW_ATT := Att(Peer(0, 0, 0, [], 0, false, false, false), NO_STORE, Init, 0, [], 0, FREE, FREE, [], 0, 0)

  /**
   * L1/L2 refinement: after any run, whenever a measurements signature is checked, the hashed bytes are the VCA,
   * then the unsigned GET_MEASUREMENTS exchanges immediately before it, then this request and its response up to
   * the signature, which is all the rest of the response.
   */
  lemma MeasurementsHash(e: Env, pki: X509, ops: seq<Op>, operation: byte, signed: bool, reply: Result<bytes>)
    requires reply.Err? ==> reply.rc != Success
    ensures Tracks(NEW_ATT, [])
    ensures
      var s := Run(e, pki, Sys(NEW_ATT, []), ops);
      var o := GetMeasurements(e, s.x, operation, signed, reply);
      var req := MeasurementsRequest(e, s.x.peer, s.x.draws, operation, signed);
      && (o.hashed.Some? ==>
            && signed && reply.Ok? && ParseMeasurements(s.x.peer, req, reply.value).Ok?
            && var sigOff := ParseMeasurements(s.x.peer, req, reply.value).value;
               && o.hashed.value == VcaOf(s.h) + BackToBack(s.h) + req + reply.value[..sigOff]
               && |reply.value| - sigOff == SigSize(s.x.peer.level))
      && (signed && o.rc == Success ==>
            && o.hashed.Some?
            && GoodSignature(e.c, s.x.store.rspPub, s.x.peer.ver, s.x.peer.level, SIGN_MEASUREMENTS, e.c.hash(o.hashed.value),
                             reply.value[ParseMeasurements(s.x.peer, req, reply.value).value..]))
  {
    hide Run, ParseMeasurements, MeasurementsRequest, VerifyRspSig, GoodSignature;
    var s := Run(e, pki, Sys(NEW_ATT, []), ops);
    NotExtending(s.h);
    assert VcaOf(s.h) + [] == VcaOf(s.h);
    var o := GetMeasurements(e, s.x, operation, signed, reply);
    var req := MeasurementsRequest(e, s.x.peer, s.x.draws, operation, signed);
    if o.hashed.Some? {
      var sigOff := ParseMeasurements(s.x.peer, req, reply.value).value;
      SignatureVerdict(e.c, s.x.store.rspPub, s.x.peer, SIGN_MEASUREMENTS, e.c.hash(o.hashed.value), reply.value[sigOff..]);
    }
  }

  /** A call that could be made: connected, with measurements of the kind asked for. */
  predicate MayMeasure(x: Att, signed: bool) {
    x.state == State.Connected && (x.peer.measSigned || (!signed && x.peer.measUnsigned))
  }

  /**
   * GET_MEASUREMENTS succeeds exactly when it may be sent, its response is well formed, a signature that was asked for is
   * good, and the record fits; then the record and the count are those of the response. A call that could be made and
   * fails leaves no measurements, one that could not leaves everything.
   */
  lemma MeasurementsKept(e: Env, x: Att, operation: byte, signed: bool, reply: Result<bytes>)
    requires x.Valid() && (reply.Err? ==> reply.rc != Success)
    ensures
      var o := GetMeasurements(e, x, operation, signed, reply);
      var req := MeasurementsRequest(e, x.peer, x.draws, operation, signed);
      && (o.rc == Success <==>
            && MayMeasure(x, signed) && x.sid != 0 && reply.Ok? && ParseMeasurements(x.peer, req, reply.value).Ok?
            && RecordLength(reply.value) <= 1024
            && (signed ==>
                  var sigOff := ParseMeasurements(x.peer, req, reply.value).value;
                  GoodSignature(e.c, x.store.rspPub, x.peer.ver, x.peer.level, SIGN_MEASUREMENTS,
                                e.c.hash((if x.l1l2.state == Open then x.l1l2.data else x.Vca()) + req + reply.value[..sigOff]),
                                reply.value[sigOff..])))
      && (if o.rc == Success then
            o.x.record == reply.value[8..8 + RecordLength(reply.value)] && o.x.blocks == reply.value[4] as nat
          else if MayMeasure(x, signed) then o.x.record == [] && o.x.blocks == 0
          else o.x == x)
  {
    hide ParseMeasurements, MeasurementsRequest, VerifyRspSig, GoodSignature, Partition;
    var req := MeasurementsRequest(e, x.peer, x.draws, operation, signed);
    if signed && reply.Ok? && ParseMeasurements(x.peer, req, reply.value).Ok? {
      var sigOff := ParseMeasurements(x.peer, req, reply.value).value;
      var hashed := (if x.l1l2.state == Open then x.l1l2.data else x.Vca()) + req + reply.value[..sigOff];
      SignatureVerdict(e.c, x.store.rspPub, x.peer, SIGN_MEASUREMENTS, e.c.hash(hashed), reply.value[sigOff..]);
    }
  }

  /**
   * M1 refinement: whenever a challenge signature is checked, the hashed bytes are the VCA, then every DIGESTS and
   * CERTIFICATE exchange since M1 last restarted, then this CHALLENGE and its response up to the signature. Success
   * means that the chain is acceptable and that the signature is good under the key which its validation leaves.
   */
  lemma ChallengeHash(e: Env, pki: X509, ops: seq<Op>, slot: byte, hashType: byte, reply: Result<bytes>)
    requires reply.Err? ==> reply.rc != Success
    ensures Tracks(NEW_ATT, [])
    ensures
      var s := Run(e, pki, Sys(NEW_ATT, []), ops);
      var o := Challenge(e, pki, s.x, slot, hashType, reply);
      var req := ChallengeRequest(e, s.x.peer, s.x.draws, slot, hashType);
      && (o.hashed.Some? ==>
            && M1Runs(s.h) && reply.Ok? && ParseChallengeAuth(s.x.peer, req, reply.value).Ok?
            && var sigOff := ParseChallengeAuth(s.x.peer, req, reply.value).value;
               && o.hashed.value == VcaOf(s.h) + FetchedSince(s.h) + req + reply.value[..sigOff]
               && |reply.value| - sigOff == SigSize(s.x.peer.level))
      && (o.rc == Success ==> o.hashed.Some? && Acceptable(e.c, pki, Unanchored(s.x.store)))
      && (o.hashed.Some? ==>
            (o.rc == Success <==>
               GoodSignature(e.c, Validate(e.c, pki, s.x.store).0.rspPub, s.x.peer.ver, s.x.peer.level, SIGN_CHALLENGE,
                             e.c.hash(o.hashed.value), reply.value[ParseChallengeAuth(s.x.peer, req, reply.value).value..])))
  {
    hide Run, ParseChallengeAuth, ChallengeRequest, VerifyRspSig, Validate, Acceptable, GoodSignature;
    var s := Run(e, pki, Sys(NEW_ATT, []), ops);
    ValidateAccepts(e.c, pki, s.x.store);
    var o := Challenge(e, pki, s.x, slot, hashType, reply);
    var req := ChallengeRequest(e, s.x.peer, s.x.draws, slot, hashType);
    if o.hashed.Some? {
      var sigOff := ParseChallengeAuth(s.x.peer, req, reply.value).value;
      SignatureVerdict(e.c, Validate(e.c, pki, s.x.store).0.rspPub, s.x.peer, SIGN_CHALLENGE, e.c.hash(o.hashed.value),
                       reply.value[sigOff..]);
    }
  }

  /** CHALLENGE goes out exactly for the fetched chain's slot, once one has been fetched, to a responder that can answer it. */
  lemma ChallengeGates(e: Env, pki: X509, x: Att, slot: byte, hashType: byte, reply: Result<bytes>)
    requires x.Valid()
    ensures
      var o := Challenge(e, pki, x, slot, hashType, reply);
      var asked := && x.state in {State.Cert, State.KeyEx, State.Finish, State.Connected} && x.m1.state != RunState.None
                   && slot == x.peer.slot && slot <= 7 && x.peer.canChallenge && Acceptable(e.c, pki, Unanchored(x.store));
      && o.x.draws == x.draws + (if asked then 1 else 0)
      && (!asked ==> o.rc != Success && o.hashed.None? && o.x == x.(store := o.x.store))
      && (o.hashed.Some? <==> asked && reply.Ok? && ParseChallengeAuth(x.peer, ChallengeRequest(e, x.peer, x.draws, slot, hashType), reply.value).Ok?)
      && (o.x.m1 == if o.hashed.None? then x.m1 else if o.rc == Success then Running(Live, x.Vca()) else FREE)
  {
    hide ParseChallengeAuth, ChallengeRequest, VerifyRspSig, Validate, Acceptable;
    ValidateAccepts(e.c, pki, x.store);
  }

  /** A retrieval that succeeds leaves the hash of the chain in transcript and context; a failed one leaves the transcript. */
  lemma CertificateSettles(e: Env, x: Att, server: Server, slot: int)
    requires e.Valid()
    ensures
      var (y, rc, _) := GetCertificate(e, x, server, slot);
      && (rc == Success ==>
            && 0 <= slot <= 7 && y.peer.slot == slot as byte && y.state == State.Cert
            && y.store.chain == Fetch(server, x.peer.ver, slot as byte, x.peer.dts).chain
            && y.peer.certHash == e.c.hash(y.store.chain) && y.transcript == x.transcript + y.peer.certHash)
      && (rc != Success ==> y.transcript == x.transcript && y.state == x.state)
      && (0 <= slot <= 7 ==> !y.store.fromCert && y.store.rspPub == if x.store.fromCert then Option.None else x.store.rspPub)
      && (rc == Success <==>
            && 0 <= slot <= 7 && Fetch(server, x.peer.ver, slot as byte, x.peer.dts).rc == Success
            && |x.transcript| + 48 <= MAX_TRANSCRIPT)
  {
    hide Fetch, M1AddAll;
    if 0 <= slot <= 7 {
      var f := Fetch(server, x.peer.ver, slot as byte, x.peer.dts);
      PortionsLeave(x.(peer := x.peer.(slot := slot as byte), store := Unanchored(x.store).(chain := f.chain)), f.heard);
    }
  }

  lemma {:induction false} PortionsLeave(x: Att, heard: seq<bytes>)
    ensures M1AddAll(x, heard) == x.(m1 := M1AddAll(x, heard).m1)
    decreases |heard|
  {
    if heard != [] {
      PortionsLeave(x, heard[..|heard| - 1]);
    }
  }

  // ----- Reading blocks back -----

  /** A DMTF value carries its type and its own length; anything else is the value as it stands. */
  function Contents(blk: bytes): (byte, bytes)
    requires |blk| >= BLOCK_HDR && |blk| == BLOCK_HDR + Get16(blk, 2)
  {
    var len := Get16(blk, 2);
    if blk[1] == MEAS_SPEC_DMTF && len >= 3 && Get16(blk, 5) <= len - 3 then (blk[4], blk[7..7 + Get16(blk, 5)])
    else (0, blk[4..])
  }

  /** A DMTF block reads back its type and value. */
  lemma DmtfRead(index: byte, kind: byte, value: bytes)
    requires |value| + 3 < 0x1_0000
    ensures
      var blk := [index, 1] + LE(3 + |value|, 2) + [kind] + LE(|value|, 2) + value;
      |blk| == BLOCK_HDR + Get16(blk, 2) && Contents(blk) == (kind, value)
  {
    hide LE, GetLE;
    Pow256Values();
    var blk := [index, 1] + LE(3 + |value|, 2) + [kind] + LE(|value|, 2) + value;
    DmtfParts([index, 1], LE(3 + |value|, 2), [kind], LE(|value|, 2), value);
    SliceReads(blk, 2, 3 + |value|, 2);
    SliceReads(blk, 5, |value|, 2);
    assert blk[7..7 + |value|] == blk[7..];
  }

  lemma DmtfParts(head: bytes, size: bytes, kind: bytes, len: bytes, value: bytes)
    requires |head| == |size| == |len| == 2 && |kind| == 1
    ensures
      var s := head + size + kind + len + value;
      |s| == 7 + |value| && s[1] == head[1] && s[2..4] == size && s[4] == kind[0] && s[5..7] == len && s[7..] == value
  {
  }

  /** A block of another specification, or a DMTF one that announces more than it holds, is passed on as it stands. */
  lemma RawRead(index: byte, spec: byte, raw: bytes)
    requires |raw| < 0x1_0000 && (spec != 1 || |raw| < 3 || Get16(raw, 1) > |raw| - 3)
    ensures
      var blk := [index, spec] + LE(|raw|, 2) + raw;
      |blk| == BLOCK_HDR + Get16(blk, 2) && Contents(blk) == (0, raw)
  {
    hide LE, GetLE;
    Pow256Values();
    var blk := [index, spec] + LE(|raw|, 2) + raw;
    FieldReadBack([index, spec], |raw|, 2, raw);
    RawParts([index, spec], LE(|raw|, 2), raw);
    assert blk[4..|blk|] == raw;
    if |raw| >= 3 {
      FieldOfPart(blk, 4, |blk|, 1);
    }
  }

  lemma RawParts(head: bytes, size: bytes, raw: bytes)
    requires |head| == |size| == 2
    ensures var s := head + size + raw; s[1] == head[1] && s[4..] == raw && |s| == 4 + |raw|
  {
  }

  /** Where the k-th block starts. */
  function Start(record: bytes, n: nat, k: nat): (off: nat)
    requires Partition(record, n) && k <= n
    ensures off <= |record|
  {
    if k == 0 then 0
    else
      var len := BLOCK_HDR + Get16(record, 2);
      len + Start(record[len..], n - 1, k - 1)
  }

  lemma SubSlice(s: bytes, a: nat, b: nat, i: nat, j: nat)
    requires a <= b <= |s| && i <= j <= b - a
    ensures s[a..b][i..j] == s[a + i..a + j]
  {
    var l, r := s[a..b][i..j], s[a + i..a + j];
    assert |l| == |r|;
    forall k | 0 <= k < |l|
      ensures l[k] == r[k]
    {
      assert l[k] == s[a..b][i + k];
    }
  }

  /** A field of a part is a field of the whole. */
  lemma FieldOfPart(s: bytes, a: nat, b: nat, off: nat)
    requires a <= b <= |s| && off + 2 <= b - a
    ensures Get16(s[a..b], off) == Get16(s, a + off)
  {
    SubSlice(s, a, b, off, off + 2);
  }

  /** A field and a slice of what follows the first len bytes. */
  lemma Shifted(record: bytes, len: nat, off: nat)
    requires len <= |record| && off + BLOCK_HDR <= |record| - len
    ensures Get16(record[len..], off + 2) == Get16(record, len + off + 2)
    ensures
      var end := off + BLOCK_HDR + Get16(record, len + off + 2);
      end <= |record| - len ==> record[len..][off..end] == record[len + off..len + end]
  {
    hide Get16;
    assert record[len..] == record[len..|record|];
    FieldOfPart(record, len, |record|, off + 2);
    var end := off + BLOCK_HDR + Get16(record, len + off + 2);
    if end <= |record| - len {
      SubSlice(record, len, |record|, off, end);
    }
  }

  lemma {:induction false} StartStep(record: bytes, n: nat, k: nat)
    requires Partition(record, n) && k < n
    ensures
      var off := Start(record, n, k);
      && off + BLOCK_HDR <= |record| && off + BLOCK_HDR + Get16(record, off + 2) <= |record|
      && Block(record, n, k) == record[off..off + BLOCK_HDR + Get16(record, off + 2)]
      && Start(record, n, k + 1) == off + BLOCK_HDR + Get16(record, off + 2)
  {
    hide Get16;
    if k > 0 {
      var len := BLOCK_HDR + Get16(record, 2);
      StartStep(record[len..], n - 1, k - 1);
      Shifted(record, len, Start(record[len..], n - 1, k - 1));
    }
  }

  /** The blocks, end to end, are the record: nothing between them, before them or after them. */
  lemma {:induction false} BlocksCover(record: bytes, n: nat)
    requires Partition(record, n)
    ensures Start(record, n, n) == |record|
  {
    if n > 0 {
      var len := BLOCK_HDR + Get16(record, 2);
      BlocksCover(record[len..], n - 1);
    }
  }

  // ----- The context object -----

  class Attestor {
    const env: Env
    const certs: CertStore
    var peer: Peer
    var state: State
    var sid: nat
    var transcript: bytes
    var vcaLen: nat
    var l1l2: Running
    var m1: Running
    var record: bytes
    var blocks: nat
    var draws: nat

    function Snap(): Att
      reads this, certs
    {
      Att(peer, certs.Snap(), state, sid, transcript, vcaLen, l1l2, m1, record, blocks, draws)
    }

    ghost predicate Valid()
      reads this, certs
    {
      Snap().Valid() && RecordOk(Snap()) && certs.c == env.c
    }

    constructor (env: Env, pki: X509)
      ensures Valid() && this.env == env && certs.x509 == pki && Snap() == NEW_ATT && fresh(certs)
    {
      this.env := env;
      certs := new CertStore(env.c, pki);
      peer := Peer(0, 0, 0, [], 0, false, false, false);
      state, sid, transcript, vcaLen, l1l2, m1, record, blocks, draws := Init, 0, [], 0, FREE, FREE, [], 0, 0;
    }

    /** A run that is live is freed first; either way it then has absorbed the VCA. */
    method StartRun(r: Running) returns (started: Running)
      requires Valid()
      ensures started == RunStart(Snap())
    {
      started := r;
      if started.state != RunState.None {
        started := FREE;
      }
      started := Running(Live, []);
      started := started.(data := started.data + transcript[..vcaLen]);
    }

    method AddToRun(r: Running, req: bytes, rsp: bytes) returns (r': Running)
      ensures r' == RunAdd(r, req, rsp)
    {
      r' := r.(data := r.data + req);
      r' := r'.(data := r'.data + rsp);
    }

    /** The loop of wolfSPDM_ParseMeasurements: blocks while a header fits, then exactly the end. */
    method WalkBlocks(buf: bytes, count: nat, recordEnd: nat) returns (ok: bool)
      requires 8 <= recordEnd <= |buf|
      ensures ok == Partition(buf[8..recordEnd], count)
    {
      hide GetLE;
      var off, i := 8, 0;
      assert buf[off..recordEnd] == buf[8..recordEnd];
      while i < count && off + BLOCK_HDR <= recordEnd
        invariant 0 <= i <= count && off >= 8
        invariant off <= recordEnd ==> (Partition(buf[off..recordEnd], count - i) == Partition(buf[8..recordEnd], count))
        invariant off > recordEnd ==> !Partition(buf[8..recordEnd], count)
        decreases count - i
      {
        var len := BLOCK_HDR + Get16(buf, off + 2);
        FieldOfPart(buf, off, recordEnd, 2);
        if off + len <= recordEnd {
          assert buf[off..recordEnd][len..] == buf[off + len..recordEnd];
        }
        off := off + len;
        i := i + 1;
      }
      ok := i == count && off == recordEnd;
    }

    method ParseMeasurementsReply(req: bytes, buf: bytes) returns (s: Result<nat>)
      requires |req| >= 4
      ensures s == ParseMeasurements(peer, req, buf)
    {
      if |buf| < 4 || (|buf| < 8 && buf[1] != SPDM_ERROR) {
        return Err(InvalidArg);
      }
      if buf[1] != MEASUREMENTS {
        return Err(if buf[1] == SPDM_ERROR then PeerError else MeasurementErr);
      }
      var signed := req[2] % 2 == 1;
      var recordEnd := 8 + RecordLength(buf);
      if buf[0] != peer.ver || recordEnd > |buf| || (signed && buf[3] % 16 != peer.slot) {
        return Err(MeasurementErr);
      }
      var ok := WalkBlocks(buf, buf[4] as nat, recordEnd);
      if !ok {
        return Err(MeasurementErr);
      }
      var tail := ParseTail(peer.ver, req, buf, recordEnd + NONCE_SIZE, if signed then SigSize(peer.level) else 0);
      s := if tail == Option.None then Err(MeasurementErr) else Ok(tail.value);
    }

    /** Closes the run with this exchange and checks the responder's signature over it. */
    method VerifyRun(r: Running, what: string, req: bytes, rsp: bytes, sigOff: nat) returns (rc: Rc, ghost hashed: bytes)
      requires sigOff <= |rsp| && |what| <= 36
      ensures hashed == r.data + req + rsp[..sigOff]
      ensures rc == Success <==>
                GoodSignature(env.c, certs.rspPub, peer.ver, peer.level, what, env.c.hash(r.data + req + rsp[..sigOff]), rsp[sigOff..])
      ensures rc == VerifyRspSig(env.c, certs.rspPub, peer, what, env.c.hash(r.data + req + rsp[..sigOff]), rsp[sigOff..])
    {
      hide SignedMessage;
      var closed := AddToRun(r, req, rsp[..sigOff]);
      hashed := closed.data;
      SignatureVerdict(env.c, certs.rspPub, peer, what, env.c.hash(hashed), rsp[sigOff..]);
      rc := VerifyRspSig(env.c, certs.rspPub, peer, what, env.c.hash(closed.data), rsp[sigOff..]);
    }

    method StoreRecord(rsp: bytes) returns (rc: Rc)
      requires Valid() && |rsp| >= 8 && 8 + RecordLength(rsp) <= |rsp|
      requires Partition(rsp[8..8 + RecordLength(rsp)], rsp[4] as nat)
      modifies this`record, this`blocks
      ensures Valid() && (Snap(), rc) == Keep(old(Snap()), rsp)
    {
      var len := RecordLength(rsp);
      if len > MAX_MEAS_RECORD {
        return BufferSmall;
      }
      record := rsp[8..8 + len];
      blocks := rsp[4] as nat;
      rc := Success;
    }

    method FinishMeasurements(req: bytes, rsp: bytes, sigOff: nat) returns (rc: Rc, ghost o: Outcome)
      requires Valid() && |req| >= 4 && ParseMeasurements(peer, req, rsp) == Ok(sigOff)
      modifies this
      ensures Valid() && o == Measured(env.c, old(Snap()), req, rsp, sigOff) && Snap() == o.x && rc == o.rc
    {
      hide VerifyRspSig, ParseMeasurements;
      var fits := ParseMeasurements(peer, req, rsp);
      o := Measured(env.c, Snap(), req, rsp, sigOff);
      if req[2] % 2 == 1 {
        var run := l1l2;
        ghost var hashed;
        rc, hashed := VerifyRun(run, SIGN_MEASUREMENTS, req, rsp, sigOff);
        l1l2 := FREE;
        if rc != Success {
          return;
        }
      } else {
        var run := AddToRun(l1l2, req, rsp);
        l1l2 := run.(state := Open);
      }
      rc := StoreRecord(rsp);
    }

    /** The request, sent through wolfSPDM_SecuredExchange, and the reply that comes back. */
    method SendMeasurements(operation: byte, signed: bool, reply: Result<bytes>) returns (rc: Rc, ghost o: Outcome)
      requires Valid()
      modifies this
      ensures Valid() && o == Exchanging(env, old(Snap()), operation, signed, reply) && Snap() == o.x && rc == o.rc
    {
      hide ParseMeasurements, Measured, MeasurementsRequest;
      o := Exchanging(env, Snap(), operation, signed, reply);
      var req := MeasurementsRequest(env, peer, draws, operation, signed);
      draws := draws + (if signed then 1 else 0) + (if peer.ver >= 0x13 then 1 else 0);
      if state.Rank() < KeyEx.Rank() || state == Failed || sid == 0 || state == KeyEx {
        return NotConnected, o;
      }
      if l1l2.state == Open {
        l1l2 := l1l2.(state := Live);
      }
      if reply.Err? {
        return reply.rc, o;
      }
      var parsed := ParseMeasurementsReply(req, reply.value);
      if parsed.Err? {
        return parsed.rc, o;
      }
      ghost var o1;
      rc, o1 := FinishMeasurements(req, reply.value, parsed.value);
    }

    method GetMeasurementsFrom(operation: byte, signed: bool, reply: Result<bytes>) returns (rc: Rc, ghost o: Outcome)
      requires Valid()
      modifies this
      ensures Valid() && o == GetMeasurements(env, old(Snap()), operation, signed, reply) && Snap() == o.x && rc == o.rc
    {
      hide Exchanging;
      o := GetMeasurements(env, Snap(), operation, signed, reply);
      if state != State.Connected {
        return NotConnected, o;
      }
      if !peer.measSigned && (signed || !peer.measUnsigned) {
        return CapsMismatch, o;
      }
      blocks := 0;
      record := [];
      if l1l2.state != Open {
        l1l2 := StartRun(l1l2);
      }
      ghost var o1;
      rc, o1 := SendMeasurements(operation, signed, reply);
    }

    /** The loop of wolfSPDM_GetMeasurementBlock: past blockIdx blocks. */
    method FindBlock(blockIdx: nat) returns (off: nat)
      requires Valid() && blockIdx < blocks
      ensures off == Start(record, blocks, blockIdx) && off + BLOCK_HDR <= |record|
      ensures off + BLOCK_HDR + Get16(record, off + 2) <= |record|
      ensures Block(record, blocks, blockIdx) == record[off..off + BLOCK_HDR + Get16(record, off + 2)]
    {
      hide GetLE;
      off := 0;
      for i := 0 to blockIdx
        invariant off == Start(record, blocks, i)
      {
        StartStep(record, blocks, i);
        off := off + BLOCK_HDR + Get16(record, off + 2);
      }
      StartStep(record, blocks, blockIdx);
    }

    /** Walks to the block and reports its index, type and value; a short buffer learns the size it needs. */
    method GetMeasurementBlock(blockIdx: int, capacity: nat) returns (rc: Rc, index: byte, kind: byte, value: bytes, size: nat)
      requires Valid()
      ensures blockIdx < 0 || blockIdx >= blocks ==> rc == InvalidArg
      ensures 0 <= blockIdx < blocks ==>
                var blk := Block(record, blocks, blockIdx);
                && index == blk[0] && kind == Contents(blk).0 && size == |Contents(blk).1|
                && rc == (if size > capacity then BufferSmall else Success)
                && (rc == Success ==> value == Contents(blk).1)
    {
      hide GetLE, Start, Block, Partition;
      index, kind, value, size := 0, 0, [], 0;
      if blockIdx < 0 || blockIdx >= blocks {
        return InvalidArg, index, kind, value, size;
      }
      var off := FindBlock(blockIdx);
      index := record[off];
      var len := Get16(record, off + 2);
      var end := off + BLOCK_HDR + len;
      FieldOfPart(record, off, end, 2);
      var at := off + BLOCK_HDR;
      if record[off + 1] == MEAS_SPEC_DMTF && len >= 3 {
        FieldOfPart(record, off, end, 5);
        if Get16(record, off + 5) <= len - 3 {
          kind := record[off + 4];
          len := Get16(record, off + 5);
          at := at + 3;
        }
      }
      size := len;
      SubSlice(record, off, end, at - off, at - off + len);
      if len > capacity {
        return BufferSmall, index, kind, value, size;
      }
      value := record[at..at + len];
      rc := Success;
    }

    method AddToM1(req: bytes, rsp: bytes)
      requires Valid()
      modifies this`m1
      ensures Valid() && Snap() == M1Add(old(Snap()), req, rsp)
    {
      if m1.state != RunState.None {
        m1 := AddToRun(m1, req, rsp);
      }
    }

    method RestartM1ForKeyExchange()
      requires Valid()
      modifies this`m1
      ensures Valid() && Snap() == M1KeyExchange(old(Snap()))
    {
      if m1.state != RunState.None {
        m1 := StartRun(m1);
      }
    }

    /** The session goes, and with it the transcripts, the measurements and what CAPABILITIES said. */
    method ResetSession()
      requires Valid()
      modifies this
      ensures Valid() && Snap() == Drop(old(Snap()))
    {
      state := Init;
      sid := 0;
      peer := peer.(dts := 0, canChallenge := false, measUnsigned := false, measSigned := false);
      blocks := 0;
      record := [];
      l1l2 := FREE;
      m1 := FREE;
    }

    method RecordChain() returns (rc: Rc)
      requires Valid()
      modifies this`peer, this`transcript, this`state
      ensures Valid() && (Snap(), rc) == RecordCt(env.c, old(Snap()))
    {
      var ct := env.c.hash(certs.certChain);
      peer := peer.(certHash := ct);
      if |ct| > MAX_TRANSCRIPT - |transcript| {
        return BufferSmall;
      }
      transcript := transcript + ct;
      state := State.Cert;
      rc := Success;
    }

    /** The chain portion by portion, each of which joins a running M1; then Ct. */
    method GetCertificateFrom(server: Server, slot: int) returns (rc: Rc, ghost heard: seq<bytes>)
      requires Valid()
      modifies this, certs
      ensures Valid() && (Snap(), rc, heard) == GetCertificate(env, old(Snap()), server, slot)
    {
      hide Fetch, M1AddAll, RecordCt, Partition;
      if slot < 0 || slot > 7 {
        return InvalidArg, [];
      }
      peer := peer.(slot := slot as byte);
      ghost var asked;
      var portions;
      rc, asked, portions := certs.GetCertificate(server, peer.ver, slot as byte, peer.dts);
      heard := portions;
      AddPortions(portions);
      if rc == Success {
        rc := RecordChain();
      }
    }

    method AddPortions(portions: seq<bytes>)
      requires Valid()
      modifies this`m1
      ensures Valid() && Snap() == M1AddAll(old(Snap()), portions)
    {
      for i := 0 to |portions|
        invariant Valid() && Snap() == M1AddAll(old(Snap()), portions[..i])
      {
        assert portions[..i + 1][..i] == portions[..i];
        AddToM1(portions[i], []);
      }
      assert portions[..|portions|] == portions;
    }

    method ChallengeFrom(slot: byte, hashType: byte, reply: Result<bytes>) returns (rc: Rc, ghost o: Outcome)
      requires Valid()
      modifies this`m1, this`draws, certs
      ensures Valid() && o == Challenge(env, certs.x509, old(Snap()), slot, hashType, reply) && Snap() == o.x && rc == o.rc
    {
      hide Validate, Challenging;
      o := Challenge(env, certs.x509, Snap(), slot, hashType, reply);
      if state.Rank() < State.Cert.Rank() || state == Failed || m1.state == RunState.None || slot != peer.slot {
        return BadState, o;
      }
      if !peer.canChallenge {
        return CapsMismatch, o;
      }
      rc := certs.ValidateCertChain();
      if rc != Success {
        return;
      }
      if slot > 7 {
        return InvalidArg, o;
      }
      ghost var o1;
      rc, o1 := SendChallenge(slot, hashType, reply);
    }

    method SendChallenge(slot: byte, hashType: byte, reply: Result<bytes>) returns (rc: Rc, ghost o: Outcome)
      requires Valid()
      modifies this`m1, this`draws
      ensures Valid() && o == Challenging(env, old(Snap()), slot, hashType, reply) && Snap() == o.x && rc == o.rc
    {
      hide ParseChallengeAuth, ChallengeRequest, VerifyRspSig;
      o := Challenging(env, Snap(), slot, hashType, reply);
      var req := ChallengeRequest(env, peer, draws, slot, hashType);
      draws := draws + 1;
      if reply.Err? {
        return reply.rc, o;
      }
      var parsed := ParseChallengeAuth(peer, req, reply.value);
      if parsed.Err? {
        return parsed.rc, o;
      }
      var run := m1;
      ghost var hashed;
      rc, hashed := VerifyRun(run, SIGN_CHALLENGE, req, reply.value, parsed.value);
      m1 := FREE;
      if rc == Success {
        m1 := StartRun(m1);
      }
    }
  }
}
