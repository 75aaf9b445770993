/** Certificate retrieval and the chain walk (spdm_standard.c), and the key a standard KEY_EXCHANGE relies on. */
module Certificates {
  import opened Bytes
  import opened Codes
  import opened Crypto
  import opened Records

  const CHAIN_HDR: nat := 52
  const MAX_CERT_CHAIN: nat := 24576
  const CERT_PORTION: nat := 1024

  // ----- DER -----

  /** wolfSPDM_DerSeqLen: the full length of the SEQUENCE at the start of der, 0 if malformed. */
  function DerSeqLen(der: bytes): (n: nat)
    ensures n != 0 ==> 2 <= n <= |der|
  {
    if |der| < 2 || der[0] != 0x30 then 0
    else if der[1] < 0x80 then (if der[1] as nat > |der| - 2 then 0 else 2 + der[1] as nat)
    else
      var k := (der[1] - 0x80) as nat;
      if k == 0 || k > 3 || |der| < 2 + k then 0
      else if FromBE(der[2..2 + k]) > |der| - (2 + k) then 0
      else 2 + k + FromBE(der[2..2 + k])
  }

  /** A SEQUENCE with its length in the short form or in k bytes. */
  function Sequence(k: nat, content: bytes): (s: bytes)
    requires k <= 3 && |content| < (if k == 0 then 0x80 else Pow256(k))
    ensures |s| == 2 + k + |content|
  {
    [0x30] + (if k == 0 then [|content| as byte] else [0x80 + k as byte] + BE(|content|, k)) + content
  }

  /** Whatever follows, a SEQUENCE in any of the accepted forms is measured exactly. */
  lemma SequenceMeasured(k: nat, content: bytes, rest: bytes)
    requires k <= 3 && |content| < (if k == 0 then 0x80 else Pow256(k))
    ensures DerSeqLen(Sequence(k, content) + rest) == |Sequence(k, content)|
  {
    hide BE, FromBE;
    var der := Sequence(k, content) + rest;
    assert der[0] == 0x30;
    if k > 0 {
      BERoundTrip(|content|, k);
      assert der[1] == 0x80 + k as byte;
      assert der[2..2 + k] == BE(|content|, k);
    }
  }

  /** Only SEQUENCEs are accepted: what is measured is one, in one of those forms. */
  lemma MeasuredIsSequence(der: bytes)
    requires DerSeqLen(der) != 0
    ensures
      var n := DerSeqLen(der);
      exists k, content :: k <= 3 && |content| < (if k == 0 then 0x80 else Pow256(k)) && der[..n] == Sequence(k, content)
  {
    hide BE, FromBE;
    var n := DerSeqLen(der);
    var k := if der[1] < 0x80 then 0 else (der[1] - 0x80) as nat;
    var content := der[2 + k..n];
    var head := [0x30, der[1]];
    assert der[..2] == head;
    if k > 0 {
      FromBEBound(der[2..2 + k]);
      BEInverse(der[2..2 + k]);
      assert [0x80 + k as byte] == [der[1]] && BE(|content|, k) == der[2..2 + k];
      assert Sequence(k, content) == head + der[2..2 + k] + content;
      assert der[..2] + der[2..2 + k] == der[..2 + k];
    } else {
      assert Sequence(k, content) == head + content;
    }
    assert der[..2 + k] + der[2 + k..n] == der[..n];
    assert der[..n] == Sequence(k, content);
  }

  // ----- Retrieval -----

  /** A script, or a responder that serves chain in the portions it likes. */
  datatype Server =
    | Script(replies: seq<Option<bytes>>)
    | Serves(ver: byte, slot: byte, chain: bytes, portion: nat -> nat)

  /** GET_CERTIFICATE: version, code, slot, 0, offset, length. */
  function Request(ver: byte, slot: byte, offset: nat, len: nat): bytes {
    [ver, GET_CERTIFICATE, slot, 0] + LE(offset, 2) + LE(len, 2)
  }

  /** At least one byte while there are any, at most what was asked for. */
  function Served(s: Server, n: nat, len: nat, left: nat): (k: nat)
    requires s.Serves?
    ensures k <= len && k <= left && (left > 0 && len > 0 ==> k > 0)
  {
    var want := if s.portion(n) == 0 then 1 else s.portion(n);
    var fit := if want > len then len else want;
    if fit > left then left else fit
  }

  function Certificate(ver: byte, slot: byte, portion: bytes, remainder: nat): (m: bytes)
    ensures |m| == 8 + |portion|
  {
    [ver, CERTIFICATE, slot, 0] + LE(|portion|, 2) + LE(remainder, 2) + portion
  }

  /** The reply to the n-th request, if it fits the buffer for one portion. */
  function Reply(s: Server, n: nat, offset: nat, len: nat): (r: Result<bytes>)
    ensures r.Err? ==> r.rc == IoFail
  {
    if s.Script? then
      (if n < |s.replies| && s.replies[n].Some? && |s.replies[n].value| <= 8 + CERT_PORTION then Ok(s.replies[n].value) else Err(IoFail))
    else if offset > |s.chain| then Err(IoFail)
    else
      var k := Served(s, n, len, |s.chain| - offset);
      Ok(Certificate(s.ver, s.slot, s.chain[offset..offset + k], |s.chain| - offset - k))
  }

  /** wolfSPDM_ParseCertificate: the portion and how much remains. */
  datatype Parsed = Bad(rc: Rc) | Good(portion: bytes, remainder: nat)

  function ParseCertificate(slot: byte, gathered: nat, buf: bytes): (p: Parsed)
    requires gathered <= MAX_CERT_CHAIN
    ensures p.Bad? ==> p.rc != Success
    ensures p.Good? ==> gathered + |p.portion| <= MAX_CERT_CHAIN
  {
    if |buf| < 4 then Bad(InvalidArg)
    else if buf[1] != CERTIFICATE then Bad(if buf[1] == SPDM_ERROR then PeerError else CertFail)
    else if |buf| < 8 || buf[2] % 16 != slot then Bad(CertFail)
    else
      var n := Get16(buf, 4);
      if |buf| - 8 < n || n > MAX_CERT_CHAIN - gathered then Bad(BufferSmall)
      else Good(buf[8..8 + n], Get16(buf, 6))
  }

  /** The chain, the return code, the requests made, and what M1 heard: each request with its response up to the portion. */
  datatype Fetched = Fetched(chain: bytes, rc: Rc, asked: seq<bytes>, heard: seq<bytes>)

  /** The retrieval loop; offset is the 16-bit counter of the code, asked and heard what has passed so far. */
  function FetchFrom(s: Server, ver: byte, slot: byte, len: nat, chain: bytes, offset: nat, n: nat,
                     asked: seq<bytes>, heard: seq<bytes>): (f: Fetched)
    requires |chain| <= MAX_CERT_CHAIN
    ensures |f.chain| <= MAX_CERT_CHAIN
    decreases MAX_CERT_CHAIN - |chain|
  {
    var req := Request(ver, slot, offset, len);
    var asked1 := asked + [req];
    var reply := Reply(s, n, offset, len);
    if reply.Err? then Fetched(chain, reply.rc, asked1, heard)
    else match ParseCertificate(slot, |chain|, reply.value)
      case Bad(rc) => Fetched(chain, rc, asked1, heard)
      case Good(portion, remainder) =>
        var heard1 := heard + [req + reply.value[..8 + |portion|]];
        if remainder == 0 then Fetched(chain + portion, Success, asked1, heard1)
        else if portion == [] then Fetched(chain, CertFail, asked1, heard1)
        else FetchFrom(s, ver, slot, len, chain + portion, (offset + |portion|) % 0x1_0000, n + 1, asked1, heard1)
  }

  /** DataTransferSize: unknown, or at least 42 (section 10.4 of DSP0274). */
  type Limit = n: nat | n == 0 || n >= 42 witness 0

  /** A portion fits the responder's DataTransferSize together with its 8-byte header. */
  function PortionSize(dts: Limit): (n: nat)
    ensures 0 < n <= CERT_PORTION && (dts != 0 ==> n + 8 <= dts)
  {
    if dts != 0 && dts < CERT_PORTION + 8 then dts - 8 else CERT_PORTION
  }

  /** The whole of wolfSPDM_GetCertificate up to Ct: the chain must be as long as its own Length field says. */
  function Fetch(s: Server, ver: byte, slot: byte, dts: Limit): Fetched
  {
    var f := FetchFrom(s, ver, slot, PortionSize(dts), [], 0, 0, [], []);
    if f.rc == Success && (|f.chain| <= CHAIN_HDR || Get16(f.chain, 0) != |f.chain|) then f.(rc := CertFail) else f
  }

  /** The offset of the i-th request. */
  function OffsetOf(req: bytes): nat {
    if |req| < 6 then 0 else Get16(req, 4)
  }

  function Total(heard: seq<bytes>, k: nat): nat
    requires k <= |heard|
  {
    if k == 0 then 0 else Total(heard, k - 1) + if |heard[k - 1]| >= 16 then |heard[k - 1]| - 16 else 0
  }

  lemma {:induction false} TotalPrefix(heard: seq<bytes>, h: bytes, k: nat)
    requires k <= |heard|
    ensures Total(heard + [h], k) == Total(heard, k)
  {
    if k > 0 {
      TotalPrefix(heard, h, k - 1);
    }
  }

  lemma RequestOffset(ver: byte, slot: byte, offset: nat, len: nat)
    requires offset < 0x1_0000
    ensures OffsetOf(Request(ver, slot, offset, len)) == offset && |Request(ver, slot, offset, len)| == 8
  {
    hide LE, GetLE;
    Pow256Values();
    FieldReadBack([ver, GET_CERTIFICATE, slot, 0], offset, 2, LE(len, 2));
    assert Request(ver, slot, offset, len) == [ver, GET_CERTIFICATE, slot, 0] + LE(offset, 2) + LE(len, 2);
  }

  /** Every request asks for exactly the bytes after those gathered, and every answer but the last brings some. */
  predicate InOrder(asked: seq<bytes>, heard: seq<bytes>) {
    && |heard| <= |asked|
    && (forall i :: 0 <= i < |asked| && i <= |heard| ==> OffsetOf(asked[i]) == Total(heard, i))
    && (forall i :: 0 <= i < |heard| ==> |heard[i]| >= 16 && (i < |asked| - 1 ==> |heard[i]| > 16))
  }

  lemma AskInOrder(asked: seq<bytes>, heard: seq<bytes>, req: bytes)
    requires InOrder(asked, heard) && |asked| == |heard| && OffsetOf(req) == Total(heard, |heard|)
    requires forall i :: 0 <= i < |heard| ==> |heard[i]| > 16
    ensures InOrder(asked + [req], heard)
  {
  }

  lemma HearInOrder(asked: seq<bytes>, heard: seq<bytes>, h: bytes)
    requires InOrder(asked, heard) && |asked| == |heard| + 1 && |h| >= 16
    requires forall i :: 0 <= i < |heard| ==> |heard[i]| > 16
    ensures InOrder(asked, heard + [h]) && Total(heard + [h], |heard| + 1) == Total(heard, |heard|) + |h| - 16
  {
    hide OffsetOf;
    forall i | 0 <= i <= |heard|
      ensures Total(heard + [h], i) == Total(heard, i)
    {
      TotalPrefix(heard, h, i);
    }
    assert Total(heard + [h], |heard| + 1) == Total(heard, |heard|) + |h| - 16;
    hide Total;
  }

  /** One turn of the loop against any responder. */
  lemma FetchTurn(s: Server, ver: byte, slot: byte, len: nat, chain: bytes, n: nat, asked: seq<bytes>, heard: seq<bytes>)
    requires |chain| <= MAX_CERT_CHAIN
    ensures
      var f := FetchFrom(s, ver, slot, len, chain, |chain|, n, asked, heard);
      var req := Request(ver, slot, |chain|, len);
      var reply := Reply(s, n, |chain|, len);
      if reply.Err? || ParseCertificate(slot, |chain|, reply.value).Bad? then
        f.rc != Success && f.chain == chain && f.asked == asked + [req] && f.heard == heard
      else
        var p := ParseCertificate(slot, |chain|, reply.value);
        && |reply.value| >= 8 + |p.portion|
        && var h := req + reply.value[..8 + |p.portion|];
           |h| == 16 + |p.portion| &&
           if p.remainder == 0 then f == Fetched(chain + p.portion, Success, asked + [req], heard + [h])
           else if p.portion == [] then f == Fetched(chain, CertFail, asked + [req], heard + [h])
           else f == FetchFrom(s, ver, slot, len, chain + p.portion, |chain| + |p.portion|, n + 1, asked + [req], heard + [h])
  {
    hide Reply, ParseCertificate, Request, GetLE;
    RequestOffset(ver, slot, |chain|, len);
    var reply := Reply(s, n, |chain|, len);
    if reply.Ok? && ParseCertificate(slot, |chain|, reply.value).Good? {
      GoodPortion(slot, |chain|, reply.value);
    }
  }

  lemma {:induction false} FetchInOrder(s: Server, ver: byte, slot: byte, len: nat, chain: bytes, n: nat, asked: seq<bytes>, heard: seq<bytes>)
    requires |chain| <= MAX_CERT_CHAIN && InOrder(asked, heard) && |asked| == |heard| && |chain| == Total(heard, |heard|)
    requires forall i :: 0 <= i < |heard| ==> |heard[i]| > 16
    ensures
      var f := FetchFrom(s, ver, slot, len, chain, |chain|, n, asked, heard);
      && InOrder(f.asked, f.heard) && |f.asked| <= |asked| + MAX_CERT_CHAIN - |chain| + 1
      && (f.rc == Success ==> |f.heard| == |f.asked| && |f.chain| == Total(f.heard, |f.heard|))
    decreases MAX_CERT_CHAIN - |chain|
  {
    hide Reply, ParseCertificate, Request, OffsetOf, InOrder, FetchFrom;
    var req := Request(ver, slot, |chain|, len);
    RequestOffset(ver, slot, |chain|, len);
    AskInOrder(asked, heard, req);
    FetchTurn(s, ver, slot, len, chain, n, asked, heard);
    var reply := Reply(s, n, |chain|, len);
    if reply.Ok? && ParseCertificate(slot, |chain|, reply.value).Good? {
      var p := ParseCertificate(slot, |chain|, reply.value);
      var h := req + reply.value[..8 + |p.portion|];
      HearInOrder(asked + [req], heard, h);
      if p.remainder != 0 && p.portion != [] {
        FetchInOrder(s, ver, slot, len, chain + p.portion, n + 1, asked + [req], heard + [h]);
      }
    }
  }

  /**
   * Whatever the responder sends, retrieval ends after at most one request per byte of the array; every request asks
   * for exactly the bytes after those gathered, so the 16-bit offset never wraps; and on success the chain is all
   * that was heard.
   */
  lemma OffsetsAreGathered(s: Server, ver: byte, slot: byte, dts: Limit)
    ensures
      var f := Fetch(s, ver, slot, dts);
      && InOrder(f.asked, f.heard) && |f.asked| <= MAX_CERT_CHAIN + 1
      && (f.rc == Success ==> |f.heard| == |f.asked| && |f.chain| == Total(f.heard, |f.heard|) == Get16(f.chain, 0))
  {
    FetchInOrder(s, ver, slot, PortionSize(dts), [], 0, [], []);
  }

  lemma GoodPortion(slot: byte, gathered: nat, buf: bytes)
    requires gathered <= MAX_CERT_CHAIN && ParseCertificate(slot, gathered, buf).Good?
    ensures |buf| >= 8 + |ParseCertificate(slot, gathered, buf).portion|
  {
  }

  lemma CertificateParsed(ver: byte, slot: byte, portion: bytes, remainder: nat, gathered: nat)
    requires slot < 16 && |portion| <= MAX_CERT_CHAIN - gathered && gathered <= MAX_CERT_CHAIN && remainder < 0x1_0000
    ensures ParseCertificate(slot, gathered, Certificate(ver, slot, portion, remainder)) == Good(portion, remainder)
  {
    hide LE, GetLE;
    Pow256Values();
    var head := [ver, CERTIFICATE, slot, 0];
    var buf := Certificate(ver, slot, portion, remainder);
    assert buf == head + LE(|portion|, 2) + (LE(remainder, 2) + portion);
    FieldReadBack(head, |portion|, 2, LE(remainder, 2) + portion);
    assert buf == (head + LE(|portion|, 2)) + LE(remainder, 2) + portion;
    FieldReadBack(head + LE(|portion|, 2), remainder, 2, portion);
    assert buf[8..8 + |portion|] == portion;
  }

  /** A CERTIFICATE is taken exactly for the slot asked for, with a portion that is there and still fits. */
  lemma CertificateAccepted(slot: byte, gathered: nat, buf: bytes, portion: bytes, remainder: nat)
    requires gathered <= MAX_CERT_CHAIN
    ensures ParseCertificate(slot, gathered, buf) == Good(portion, remainder) <==>
              && |buf| >= 8 + |portion| && buf[1] == 0x02 && buf[2] % 16 == slot && Get16(buf, 4) == |portion| && Get16(buf, 6) == remainder
              && buf[8..8 + |portion|] == portion && gathered + |portion| <= 24576
  {
    hide GetLE;
  }

  /** A request: version, slot, and the length of a portion that fits the responder's DataTransferSize with its header. */
  predicate Asks(req: bytes, ver: byte, slot: byte, len: nat) {
    |req| == 8 && req[..4] == [ver, 0x82, slot, 0] && Get16(req, 6) == len
  }

  lemma RequestAsks(ver: byte, slot: byte, offset: nat, len: nat)
    requires len < 0x1_0000
    ensures Asks(Request(ver, slot, offset, len), ver, slot, len)
  {
    hide LE, GetLE;
    Pow256Values();
    var head := [ver, GET_CERTIFICATE, slot, 0] + LE(offset, 2);
    assert Request(ver, slot, offset, len) == head + LE(len, 2) + [];
    FieldReadBack(head, len, 2, []);
  }

  lemma {:induction false} FetchAsks(s: Server, ver: byte, slot: byte, len: nat, chain: bytes, n: nat, asked: seq<bytes>, heard: seq<bytes>)
    requires |chain| <= MAX_CERT_CHAIN && len < 0x1_0000 && (forall i :: 0 <= i < |asked| ==> Asks(asked[i], ver, slot, len))
    ensures
      var f := FetchFrom(s, ver, slot, len, chain, |chain|, n, asked, heard);
      forall i :: 0 <= i < |f.asked| ==> Asks(f.asked[i], ver, slot, len)
    decreases MAX_CERT_CHAIN - |chain|
  {
    hide Reply, ParseCertificate, Request, Asks, FetchFrom;
    var req := Request(ver, slot, |chain|, len);
    RequestAsks(ver, slot, |chain|, len);
    FetchTurn(s, ver, slot, len, chain, n, asked, heard);
    var reply := Reply(s, n, |chain|, len);
    if reply.Ok? && ParseCertificate(slot, |chain|, reply.value).Good? {
      var p := ParseCertificate(slot, |chain|, reply.value);
      if p.remainder != 0 && p.portion != [] {
        FetchAsks(s, ver, slot, len, chain + p.portion, n + 1, asked + [req], heard + [req + reply.value[..8 + |p.portion|]]);
      }
    }
  }

  /** Every request of a retrieval is for this version and slot, in portions of 1024 bytes or what the responder can send. */
  lemma RequestsAsk(s: Server, ver: byte, slot: byte, dts: Limit)
    ensures
      var f, len := Fetch(s, ver, slot, dts), if dts == 0 || dts >= 1032 then 1024 else dts - 8;
      forall i :: 0 <= i < |f.asked| ==> Asks(f.asked[i], ver, slot, len)
  {
    hide FetchFrom, Asks;
    var len := if dts == 0 || dts >= 1032 then 1024 else dts - 8;
    assert PortionSize(dts) == len;
    var none: seq<bytes> := [];
    FetchAsks(s, ver, slot, len, [], 0, none, none);
    assert Fetch(s, ver, slot, dts).asked == FetchFrom(s, ver, slot, len, [], 0, 0, none, none).asked;
  }

  lemma TakeMore(s: bytes, n: nat, k: nat)
    requires n + k <= |s|
    ensures s[..n] + s[n..n + k] == s[..n + k] && s[..|s|] == s
  {
  }

  lemma ServedReply(s: Server, n: nat, offset: nat, len: nat)
    requires s.Serves? && offset <= |s.chain|
    ensures
      var k := Served(s, n, len, |s.chain| - offset);
      Reply(s, n, offset, len) == Ok(Certificate(s.ver, s.slot, s.chain[offset..offset + k], |s.chain| - offset - k))
  {
  }

  /** One turn of the loop against a serving responder. */
  lemma ServedTurn(s: Server, ver: byte, slot: byte, len: nat, gathered: nat, n: nat, asked: seq<bytes>, heard: seq<bytes>)
    requires s.Serves? && s.ver == ver && s.slot == slot && slot < 16 && len > 0
    requires gathered <= |s.chain| <= MAX_CERT_CHAIN && (gathered == |s.chain| ==> gathered == 0)
    ensures
      var k := Served(s, n, len, |s.chain| - gathered);
      var asked1 := asked + [Request(ver, slot, gathered, len)];
      var reply := Certificate(ver, slot, s.chain[gathered..gathered + k], |s.chain| - gathered - k);
      var heard1 := heard + [Request(ver, slot, gathered, len) + reply[..8 + k]];
      FetchFrom(s, ver, slot, len, s.chain[..gathered], gathered, n, asked, heard)
      == if gathered + k == |s.chain| then Fetched(s.chain, Success, asked1, heard1)
         else FetchFrom(s, ver, slot, len, s.chain[..gathered + k], gathered + k, n + 1, asked1, heard1)
  {
    hide ParseCertificate, Certificate, Request, Served, Reply, FetchFrom;
    var k := Served(s, n, len, |s.chain| - gathered);
    ServedReply(s, n, gathered, len);
    FetchTurn(s, ver, slot, len, s.chain[..gathered], n, asked, heard);
    CertificateParsed(ver, slot, s.chain[gathered..gathered + k], |s.chain| - gathered - k, gathered);
    TakeMore(s.chain, gathered, k);
  }

  lemma {:induction false} Reassembled(s: Server, ver: byte, slot: byte, len: nat, gathered: nat, n: nat, asked: seq<bytes>, heard: seq<bytes>)
    requires s.Serves? && s.ver == ver && s.slot == slot && slot < 16 && len > 0
    requires gathered <= |s.chain| <= MAX_CERT_CHAIN && (gathered == |s.chain| ==> gathered == 0)
    ensures
      var f := FetchFrom(s, ver, slot, len, s.chain[..gathered], gathered, n, asked, heard);
      f.rc == Success && f.chain == s.chain
    decreases |s.chain| - gathered
  {
    hide FetchFrom, Certificate, Request, Served;
    ServedTurn(s, ver, slot, len, gathered, n, asked, heard);
    var k := Served(s, n, len, |s.chain| - gathered);
    if gathered + k < |s.chain| {
      var req := Request(ver, slot, gathered, len);
      var reply := Certificate(ver, slot, s.chain[gathered..gathered + k], |s.chain| - gathered - k);
      Reassembled(s, ver, slot, len, gathered + k, n + 1, asked + [req], heard + [req + reply[..8 + k]]);
    }
  }

  /**
   * Against a responder that serves a chain that fits, in whatever portions: all of it arrives, and retrieval
   * succeeds if and only if the chain is longer than its header and as long as its Length field says.
   */
  lemma ChainFetched(s: Server, ver: byte, slot: byte, dts: Limit)
    requires s.Serves? && s.ver == ver && s.slot == slot && slot < 16
    requires |s.chain| <= MAX_CERT_CHAIN
    ensures
      var f := Fetch(s, ver, slot, dts);
      f.chain == s.chain && (f.rc == Success <==> |s.chain| > CHAIN_HDR && Get16(s.chain, 0) == |s.chain|)
  {
    assert s.chain[..0] == [];
    Reassembled(s, ver, slot, PortionSize(dts), 0, 0, [], []);
  }

  // ----- The chain walk -----

  /** What a certificate says about its subject. */
  datatype CertKey = CertKey(key: bytes, isCA: bool)

  /** X.509: a certificate's subject key and CA flag, who signed it, and a key in the form the context stores. */
  datatype X509 = X509(subject: bytes -> Option<CertKey>, signedBy: (bytes, bytes) -> bool, leaf: (bytes, nat) -> Option<bytes>)

  /** The chain, the configured root, the responder's key with its origin, and the policy. */
  datatype Store = Store(chain: bytes, root: bytes, rspPub: Option<bytes>, fromCert: bool, allowUntrusted: bool)
  {
    predicate Pinned() {
      rspPub.Some? && !fromCert
    }
  }

  const ECC_KEY_BYTES: nat := 96
  const RSP_KEY_BYTES: nat := 2592

  /** The bytes split into DER SEQUENCEs with nothing left over. */
  function Split(der: bytes): (r: Option<seq<bytes>>)
    ensures r.Some? && der != [] ==> r.value != []
    decreases |der|
  {
    if der == [] then Some([])
    else
      var n := DerSeqLen(der);
      if n == 0 then None
      else match Split(der[n..])
        case None => None
        case Some(rest) => Some([der[..n]] + rest)
  }

  /** cert is a certificate of a CA whose key signed next. */
  predicate Link(x: X509, cert: bytes, next: bytes) {
    x.subject(cert).Some? && x.subject(cert).value.isCA && x.signedBy(next, x.subject(cert).value.key)
  }

  predicate LinkAt(x: X509, certs: seq<bytes>, i: nat)
    requires i + 1 < |certs|
  {
    Link(x, certs[i], certs[i + 1])
  }

  /** Each certificate has a subject key and is signed by the CA before it: prev for the first, if there is one. */
  predicate Signed(x: X509, certs: seq<bytes>, prev: Option<CertKey>) {
    && (forall i :: 0 <= i < |certs| ==> x.subject(certs[i]).Some?)
    && (certs != [] && prev.Some? ==> prev.value.isCA && x.signedBy(certs[0], prev.value.key))
    && (forall i :: 0 <= i < |certs| - 1 ==> LinkAt(x, certs, i))
  }

  /** The configured root's key, when a root is configured. */
  function Root(x: X509, s: Store): Option<CertKey> {
    if s.root == [] then None else x.subject(s.root)
  }

  /** The loop: the last key, or why the chain is refused. */
  function Walk(x: X509, der: bytes, prev: Option<CertKey>): (r: Result<Option<CertKey>>)
    ensures r.Err? ==> r.rc != Success
    decreases |der|
  {
    if der == [] then Ok(prev)
    else
      var n := DerSeqLen(der);
      if n == 0 then Err(CertParse)
      else if prev.Some? && !(prev.value.isCA && x.signedBy(der[..n], prev.value.key)) then Err(CertFail)
      else match x.subject(der[..n])
        case None => Err(CertParse)
        case Some(k) => Walk(x, der[n..], Some(k))
  }

  /** The walk succeeds exactly on a clean split whose certificates sign one another, and ends at the leaf's key. */
  lemma {:induction false} WalkAccepts(x: X509, der: bytes, prev: Option<CertKey>)
    ensures Walk(x, der, prev).Ok? <==> Split(der).Some? && Signed(x, Split(der).value, prev)
    ensures Walk(x, der, prev).Ok? ==>
              var certs := Split(der).value;
              Walk(x, der, prev).value == if certs == [] then prev else x.subject(certs[|certs| - 1])
    decreases |der|
  {
    hide DerSeqLen, Signed;
    SignedEmpty(x, prev);
    if der != [] && DerSeqLen(der) != 0 {
      var n := DerSeqLen(der);
      var k := x.subject(der[..n]);
      WalkAccepts(x, der[n..], k);
      if Split(der[n..]).Some? {
        var cert, rest := der[..n], Split(der[n..]).value;
        if Signed(x, [cert] + rest, prev) {
          SignedSplit(x, cert, rest, prev);
        } else if k.Some? && (prev.Some? ==> prev.value.isCA && x.signedBy(cert, prev.value.key)) && Signed(x, rest, k) {
          SignedJoin(x, cert, rest, prev);
        }
      }
    }
  }

  lemma SignedEmpty(x: X509, prev: Option<CertKey>)
    ensures Signed(x, [], prev)
  {
  }

  lemma SignedSplit(x: X509, cert: bytes, rest: seq<bytes>, prev: Option<CertKey>)
    requires Signed(x, [cert] + rest, prev)
    ensures x.subject(cert).Some? && (prev.Some? ==> prev.value.isCA && x.signedBy(cert, prev.value.key))
    ensures Signed(x, rest, x.subject(cert))
  {
    var certs := [cert] + rest;
    assert certs[0] == cert;
    forall i | 0 <= i < |rest|
      ensures x.subject(rest[i]).Some?
    {
      assert rest[i] == certs[i + 1];
    }
    forall i | 0 <= i < |rest| - 1
      ensures LinkAt(x, rest, i)
    {
      assert LinkAt(x, certs, i + 1) && certs[i + 1] == rest[i] && certs[i + 2] == rest[i + 1];
    }
    if rest != [] {
      assert LinkAt(x, certs, 0) && certs[1] == rest[0];
    }
  }

  lemma SignedJoin(x: X509, cert: bytes, rest: seq<bytes>, prev: Option<CertKey>)
    requires x.subject(cert).Some? && (prev.Some? ==> prev.value.isCA && x.signedBy(cert, prev.value.key))
    requires Signed(x, rest, x.subject(cert))
    ensures Signed(x, [cert] + rest, prev)
  {
    var certs := [cert] + rest;
    assert certs[0] == cert;
    forall i | 0 <= i < |certs|
      ensures x.subject(certs[i]).Some?
    {
      if i > 0 {
        assert certs[i] == rest[i - 1];
      }
    }
    forall i | 0 <= i < |certs| - 1
      ensures LinkAt(x, certs, i)
    {
      assert certs[i + 1] == rest[i];
      if i > 0 {
        assert certs[i] == rest[i - 1] && rest[i] == rest[i - 1 + 1];
        assert LinkAt(x, rest, i - 1);
      }
    }
  }

  /** A key taken from an earlier chain is no anchor for this one. */
  function Unanchored(s: Store): Store {
    if s.fromCert then s.(rspPub := None, fromCert := false) else s
  }

  /** What the leaf's key must be or may become. */
  function Conclude(x: X509, s: Store, last: Option<CertKey>): (r: (Store, Rc)) {
    if last.None? then (s, CertParse)
    else if s.Pinned() then
      match x.leaf(last.value.key, ECC_KEY_BYTES)
      case None => (s, CertParse)
      case Some(k) => (s, if s.rspPub.value != k then CertFail else Success)
    else if s.root == [] && !s.allowUntrusted then (s, CertFail)
    else match x.leaf(last.value.key, RSP_KEY_BYTES)
      case None => (s, CertParse)
      case Some(k) => (s.(rspPub := Some(k), fromCert := true), Success)
  }

  /** wolfSPDM_ValidateCertChain. */
  function Validate(c: Crypto, x: X509, s0: Store): (r: (Store, Rc)) {
    var s := Unanchored(s0);
    if |s.chain| <= CHAIN_HDR then (s, CertFail)
    else if s.root != [] && c.hash(s.root) != s.chain[4..CHAIN_HDR] then (s, CertFail)
    else if s.root != [] && x.subject(s.root).None? then (s, CertParse)
    else match Walk(x, s.chain[CHAIN_HDR..], Root(x, s))
      case Err(rc) => (s, rc)
      case Ok(last) => Conclude(x, s, last)
  }

  /** The chain after its header, as certificates, if it is nothing else. */
  function Certs(s: Store): Option<seq<bytes>> {
    if |s.chain| <= CHAIN_HDR then None else Split(s.chain[CHAIN_HDR..])
  }

  /** Anchored, signed link by link, and its leaf is the pinned key or may supply one under the policy. */
  predicate Acceptable(c: Crypto, x: X509, s: Store) {
    && Certs(s).Some?
    && (s.root != [] ==> c.hash(s.root) == s.chain[4..CHAIN_HDR] && x.subject(s.root).Some?)
    && Signed(x, Certs(s).value, Root(x, s))
    && var certs := Certs(s).value;
       var leaf := x.subject(certs[|certs| - 1]);
       leaf.Some? &&
       if s.Pinned() then x.leaf(leaf.value.key, ECC_KEY_BYTES) == s.rspPub
       else (s.root != [] || s.allowUntrusted) && x.leaf(leaf.value.key, RSP_KEY_BYTES).Some?
  }

  /** Validation succeeds exactly on an acceptable chain; only then is a key installed, the leaf's; a pinned key never moves. */
  lemma ValidateAccepts(c: Crypto, x: X509, s: Store)
    ensures
      var (s', rc) := Validate(c, x, s);
      && (rc == Success <==> Acceptable(c, x, Unanchored(s)))
      && (s.Pinned() ==> s' == s)
      && (rc != Success ==> s' == Unanchored(s))
      && (rc == Success && !s.Pinned() ==>
            s'.fromCert && s'.rspPub.Some? && s' == Unanchored(s).(rspPub := s'.rspPub, fromCert := true))
      && (rc != Success && !s.Pinned() ==> s'.rspPub.None? && !s'.fromCert)
      && s'.chain == s.chain && s'.root == s.root && s'.allowUntrusted == s.allowUntrusted
      && (rc == Success && !s.Pinned() ==>
            var certs := Certs(s).value;
            x.leaf(x.subject(certs[|certs| - 1]).value.key, RSP_KEY_BYTES) == s'.rspPub)
  {
    hide Split, DerSeqLen, Walk, Signed;
    var t := Unanchored(s);
    if |t.chain| > CHAIN_HDR {
      WalkAccepts(x, t.chain[CHAIN_HDR..], Root(x, t));
    }
  }

  // ----- The key behind KEY_EXCHANGE -----

  /** The guard of wolfSPDM_KeyExchange in standard mode: a key taken from a chain is validated again first. */
  function KeyExchangeGuard(c: Crypto, x: X509, s: Store): (r: (Store, Rc)) {
    if s.rspPub.None? then (s, BadState)
    else if s.fromCert then Validate(c, x, s)
    else (s, Success)
  }

  /** KEY_EXCHANGE goes out exactly with a pinned key or with a key whose chain is acceptable under the present policy. */
  lemma KeyExchangeTrusts(c: Crypto, x: X509, s: Store)
    ensures
      var (s', rc) := KeyExchangeGuard(c, x, s);
      && (rc == Success <==> s.Pinned() || (s.rspPub.Some? && s.fromCert && Acceptable(c, x, Unanchored(s))))
      && (rc == Success ==> s'.rspPub.Some? && (s.Pinned() ==> s' == s))
      && (rc == Success && !s.Pinned() ==>
            var certs := Certs(s).value;
            x.leaf(x.subject(certs[|certs| - 1]).value.key, RSP_KEY_BYTES) == s'.rspPub)
  {
    hide Split, DerSeqLen, Walk, Signed;
    ValidateAccepts(c, x, s);
    var t := Unanchored(s);
    if |t.chain| > CHAIN_HDR {
      WalkAccepts(x, t.chain[CHAIN_HDR..], Root(x, t));
    }
  }

  // ----- The object -----

  class CertStore {
    const c: Crypto
    const x509: X509
    var certChain: bytes
    var trustedCA: bytes
    var rspPub: Option<bytes>
    var rspKeyFromCert: bool
    var allowUntrusted: bool

    function Snap(): Store
      reads this
    {
      Store(certChain, trustedCA, rspPub, rspKeyFromCert, allowUntrusted)
    }

    constructor (c: Crypto, x509: X509)
      ensures this.c == c && this.x509 == x509 && Snap() == Store([], [], None, false, false)
    {
      this.c, this.x509 := c, x509;
      certChain, trustedCA, rspPub, rspKeyFromCert, allowUntrusted := [], [], None, false, false;
    }

    /** The length bytes are folded from the left. */
    method MeasureSequence(der: bytes) returns (n: nat)
      ensures n == DerSeqLen(der)
    {
      if |der| < 2 || der[0] != 0x30 {
        return 0;
      }
      var len: nat := 0;
      var hdr: nat := 2;
      if der[1] < 0x80 {
        len := der[1] as nat;
      } else {
        var k: nat := (der[1] - 0x80) as nat;
        if k == 0 || k > 3 || |der| < 2 + k {
          return 0;
        }
        for i := 0 to k
          invariant len == FromBE(der[2..2 + i])
        {
          assert der[2..2 + i + 1][..i] == der[2..2 + i];
          len := 256 * len + der[2 + i] as nat;
        }
        hdr := hdr + k;
      }
      if len > |der| - hdr {
        return 0;
      }
      n := hdr + len;
    }

    /** wolfSPDM_GetCertificate: request after request until nothing remains. */
    method GetCertificate(server: Server, ver: byte, slot: byte, dts: Limit) returns (rc: Rc, ghost asked: seq<bytes>, heard: seq<bytes>)
      modifies this`certChain, this`rspPub, this`rspKeyFromCert
      ensures Fetched(certChain, rc, asked, heard) == Fetch(server, ver, slot, dts)
      ensures rspPub == (if old(rspKeyFromCert) then None else old(rspPub)) && !rspKeyFromCert
    {
      hide Reply, ParseCertificate, Request;
      var len := PortionSize(dts);
      certChain := [];
      if rspKeyFromCert {
        rspPub := None;
        rspKeyFromCert := false;
      }
      rc, asked, heard := GatherPortions(server, ver, slot, len);
      if rc == Success && (|certChain| <= CHAIN_HDR || Get16(certChain, 0) != |certChain|) {
        rc := CertFail;
      }
    }

    method GatherPortions(server: Server, ver: byte, slot: byte, len: nat) returns (rc: Rc, ghost asked: seq<bytes>, heard: seq<bytes>)
      requires certChain == []
      modifies this`certChain
      ensures Fetched(certChain, rc, asked, heard) == FetchFrom(server, ver, slot, len, [], 0, 0, [], [])
    {
      hide Reply, ParseCertificate, Request;
      var offset: nat, n: nat, more := 0, 0, true;
      rc, asked, heard := Success, [], [];
      while more
        invariant |certChain| <= MAX_CERT_CHAIN && (more ==> rc == Success)
        invariant more ==> FetchFrom(server, ver, slot, len, certChain, offset, n, asked, heard)
                           == FetchFrom(server, ver, slot, len, [], 0, 0, [], [])
        invariant !more ==> Fetched(certChain, rc, asked, heard) == FetchFrom(server, ver, slot, len, [], 0, 0, [], [])
        decreases more, MAX_CERT_CHAIN - |certChain|
      {
        var req := Request(ver, slot, offset, len);
        var reply := Reply(server, n, offset, len);
        asked := asked + [req];
        if reply.Err? {
          return reply.rc, asked, heard;
        }
        match ParseCertificate(slot, |certChain|, reply.value)
        case Bad(bad) =>
          return bad, asked, heard;
        case Good(portion, remainder) =>
          GoodPortion(slot, |certChain|, reply.value);
          certChain := certChain + portion;
          heard := heard + [req + reply.value[..8 + |portion|]];
          // every portion but the last must make progress
          if portion == [] && remainder > 0 {
            rc := CertFail;
          }
          offset := (offset + |portion|) % 0x1_0000;
          n := n + 1;
          more := rc == Success && remainder > 0;
      }
    }

    /** The walk over the chain, then the leaf. */
    method ValidateCertChain() returns (rc: Rc)
      modifies this`rspPub, this`rspKeyFromCert
      ensures (Snap(), rc) == Validate(c, x509, old(Snap()))
    {
      hide DerSeqLen;
      if rspKeyFromCert {
        rspPub := None;
        rspKeyFromCert := false;
      }
      if |certChain| <= CHAIN_HDR {
        return CertFail;
      }
      var last: Option<CertKey> := None;
      if trustedCA != [] {
        if c.hash(trustedCA) != certChain[4..CHAIN_HDR] {
          return CertFail;
        }
        last := x509.subject(trustedCA);
        if last == None {
          return CertParse;
        }
      }
      ghost var prev := last;
      var pos: nat := CHAIN_HDR;
      while pos < |certChain|
        invariant CHAIN_HDR <= pos <= |certChain|
        invariant Walk(x509, certChain[pos..], last) == Walk(x509, certChain[CHAIN_HDR..], prev)
        invariant Snap() == Unanchored(old(Snap()))
      {
        var rest := certChain[pos..];
        var n := MeasureSequence(rest);
        if n == 0 {
          return CertParse;
        }
        if last != None && !(last.value.isCA && x509.signedBy(rest[..n], last.value.key)) {
          return CertFail;
        }
        last := x509.subject(rest[..n]);
        if last == None {
          return CertParse;
        }
        SeqLenBound(rest);
        assert rest[n..] == certChain[pos + n..];
        pos := pos + n;
      }
      assert certChain[pos..] == [];
      rc := FinishChain(last);
    }

    method FinishChain(last: Option<CertKey>) returns (rc: Rc)
      modifies this`rspPub, this`rspKeyFromCert
      ensures (Snap(), rc) == Conclude(x509, old(Snap()), last)
    {
      if last == None {
        return CertParse;
      }
      if rspPub != None && !rspKeyFromCert {
        var leaf := x509.leaf(last.value.key, ECC_KEY_BYTES);
        if leaf == None {
          return CertParse;
        }
        return if rspPub.value != leaf.value then CertFail else Success;
      }
      if trustedCA == [] && !allowUntrusted {
        return CertFail;
      }
      var leaf := x509.leaf(last.value.key, RSP_KEY_BYTES);
      if leaf == None {
        return CertParse;
      }
      rspPub := leaf;
      rspKeyFromCert := true;
      rc := Success;
    }

    /** What wolfSPDM_KeyExchange checks before it builds its request. */
    method CheckKeyExchange() returns (rc: Rc)
      modifies this`rspPub, this`rspKeyFromCert
      ensures (Snap(), rc) == KeyExchangeGuard(c, x509, old(Snap()))
      ensures rc == Success <==> old(Snap()).Pinned()
                                 || (old(rspPub).Some? && old(rspKeyFromCert) && Acceptable(c, x509, Unanchored(old(Snap()))))
    {
      hide Validate, Acceptable;
      KeyExchangeTrusts(c, x509, Snap());
      if rspPub == None {
        return BadState;
      }
      rc := Success;
      if rspKeyFromCert {
        rc := ValidateCertChain();
      }
    }
  }

  lemma SeqLenBound(der: bytes)
    ensures DerSeqLen(der) <= |der|
  {
  }
}
