/** The secured record format of spdm_secured.c in both transport bindings, as functions on byte strings. */
module Records {
  import opened Bytes
  import opened Crypto

  /** Return codes of wolfspdm/spdm_error.h. */
  datatype Rc =
    | Success | InvalidArg | BufferSmall | BadState | VersionMismatch | CryptoFail | BadSignature | BadHmac
    | IoFail | PeerError | DecryptFail | SequenceErr | NotConnected | SessionInvalid | KeyExchangeErr
    | NotAvailable | Framing | CertFail | CapsMismatch | AlgoMismatch | CertParse | KeyUpdateErr
    | MeasurementErr | ChallengeErr | ChunkErr

  datatype Result<+T> = Ok(value: T) | Err(rc: Rc)

  /** The transport binding: 14-byte headers for TCG, 8-byte headers for MCTP. */
  datatype Format = Tcg | Mctp

  /** One traffic direction: AEAD key, base IV and the number of the next record. */
  datatype Dir = Dir(key: bytes, iv: bytes, num: nat)
  {
    predicate Valid() {
      |iv| == IV_SIZE && num < TWO64
    }

    function Next(): Dir {
      Dir(key, iv, (num + 1) % TWO64)
    }
  }

  const MAX_MSG_SIZE: nat := 8192
  const XFER_MSG_SIZE: nat := 8192
  const SECURED_PAD: nat := 48
  const MCTP_TYPE_SPDM: byte := 0x05

  function HeaderSize(f: Format): nat {
    if f.Tcg? then 14 else 8
  }

  function Header(f: Format, sid: nat, num: nat, len: nat): (h: bytes)
    ensures |h| == HeaderSize(f)
  {
    LE(sid, 4) + LE(num, if f.Tcg? then 8 else 2) + LE(len, 2)
  }

  function PadSize(f: Format, n: nat): nat {
    if f.Tcg? then (16 - (2 + n) % 16) % 16 else 0
  }

  /** AppDataLength, the MCTP type byte unless the message carries its own, the message, random padding. */
  function Frame(f: Format, app: bool, p: bytes, pad: bytes): bytes {
    if f.Tcg? then LE(|p|, 2) + p + pad
    else if app then LE(|p|, 2) + p
    else LE(1 + |p|, 2) + [MCTP_TYPE_SPDM] + p
  }

  /** The record that carries a framed plaintext. */
  function Record(c: Crypto, f: Format, sid: nat, d: Dir, framed: bytes): bytes
    requires d.Valid()
  {
    var h := Header(f, sid, d.num, |framed| + TAG_SIZE);
    h + c.seal(d.key, RecordIV(d.iv, d.num), h, framed)
  }

  /** wolfSPDM_EncryptRecord: the record, or why none is produced. */
  function Seal(c: Crypto, f: Format, app: bool, sid: nat, d: Dir, p: bytes, pad: bytes, cap: nat): (r: Result<bytes>)
    requires d.Valid()
    ensures r.Err? ==> r.rc != Success
  {
    var framed := Frame(f, app, p, pad);
    if |p| > XFER_MSG_SIZE then Err(BufferSmall)
    else if f.Mctp? && d.num > 0xFFFF then Err(SequenceErr)
    else if cap < HeaderSize(f) + |framed| + TAG_SIZE then Err(BufferSmall)
    else Ok(Record(c, f, sid, d, framed))
  }

  datatype Opened = Rejected(rc: Rc) | Verified(framed: bytes)

  /** Header checks and AEAD of wolfSPDM_DecryptRecord; only Verified advances the counter. */
  function Open(c: Crypto, f: Format, sid: nat, d: Dir, enc: bytes): (o: Opened)
    requires d.Valid()
    ensures o.Rejected? ==> o.rc != Success
  {
    var h := HeaderSize(f);
    if |enc| < h + TAG_SIZE then Rejected(BufferSmall)
    else
      var num := if f.Tcg? then Get64(enc, 4) else Get16(enc, 4);
      var len := Get16(enc, h - 2);
      if Get32(enc, 0) != sid then Rejected(SessionInvalid)
      else if num != d.num then Rejected(SequenceErr)
      else if len < TAG_SIZE || (if f.Tcg? then |enc| < h + len else |enc| != h + len) then Rejected(BufferSmall)
      else if len - TAG_SIZE > XFER_MSG_SIZE + SECURED_PAD then Rejected(BufferSmall)
      else match c.open(d.key, RecordIV(d.iv, num), enc[..h], enc[h..h + len])
        case None => Rejected(DecryptFail)
        case Some(framed) => Verified(framed)
  }

  /** The message inside a verified plaintext. */
  function Unframe(f: Format, app: bool, framed: bytes, cap: nat): (r: Result<bytes>)
    ensures r.Err? ==> r.rc != Success
    ensures r.Ok? ==> |r.value| <= cap
  {
    if |framed| < 2 then Err(BufferSmall)
    else
      var n := Get16(framed, 0);
      var t := if f.Tcg? || app then 0 else 1;
      if |framed| < 2 + n || (f.Mctp? && n < 1) || cap < n - t then Err(BufferSmall)
      else if t == 1 && framed[2] != MCTP_TYPE_SPDM then Err(DecryptFail)
      else Ok(framed[2 + t..2 + n])
  }

  /** A message that the binding can carry and the receiver can store. */
  predicate Carried(f: Format, app: bool, p: bytes, pad: bytes, cap: nat) {
    |p| <= XFER_MSG_SIZE && |pad| == PadSize(f, |p|) && |p| <= cap && (f.Mctp? && app ==> p != [])
  }

  lemma FrameUnframe(f: Format, app: bool, p: bytes, pad: bytes, cap: nat)
    requires Carried(f, app, p, pad, cap)
    ensures Unframe(f, app, Frame(f, app, p, pad), cap) == Ok(p)
  {
    hide LE, GetLE, PadSize;
    Pow256Values();
    var n := if f.Mctp? && !app then 1 + |p| else |p|;
    var body := if f.Tcg? then p + pad else if app then p else [MCTP_TYPE_SPDM] + p;
    var framed := Frame(f, app, p, pad);
    assert framed == [] + LE(n, 2) + body;
    FieldReadBack([], n, 2, body);
    var t := if f.Tcg? || app then 0 else 1;
    assert framed[2 + t..2 + n] == p;
  }

  lemma FrameSize(f: Format, app: bool, p: bytes, pad: bytes)
    requires |p| <= XFER_MSG_SIZE && |pad| == PadSize(f, |p|)
    ensures 2 <= |Frame(f, app, p, pad)| <= XFER_MSG_SIZE + 18
  {
  }

  /** The three header fields read back as written. */
  lemma HeaderFields(f: Format, sid: nat, num: nat, len: nat, rest: bytes)
    requires sid < 0x1_0000_0000 && len < 0x1_0000
    requires num < if f.Tcg? then TWO64 else 0x1_0000
    ensures
      var r := Header(f, sid, num, len) + rest;
      && Get32(r, 0) == sid
      && (if f.Tcg? then Get64(r, 4) else Get16(r, 4)) == num
      && Get16(r, HeaderSize(f) - 2) == len
  {
    hide LE, GetLE;
    Pow256Values();
    var w := if f.Tcg? then 8 else 2;
    var r := Header(f, sid, num, len) + rest;
    assert r == [] + LE(sid, 4) + (LE(num, w) + LE(len, 2) + rest);
    FieldReadBack([], sid, 4, LE(num, w) + LE(len, 2) + rest);
    assert r == LE(sid, 4) + LE(num, w) + (LE(len, 2) + rest);
    FieldReadBack(LE(sid, 4), num, w, LE(len, 2) + rest);
    assert r == (LE(sid, 4) + LE(num, w)) + LE(len, 2) + rest;
    FieldReadBack(LE(sid, 4) + LE(num, w), len, 2, rest);
  }

  /** A receiver in step with the sender verifies every record and recovers its framed plaintext. */
  lemma SealThenOpen(c: Crypto, f: Format, app: bool, sid: nat, d: Dir, p: bytes, pad: bytes, cap: nat)
    requires c.AeadCorrect() && d.Valid() && sid < 0x1_0000_0000
    requires |pad| == PadSize(f, |p|)
    requires Seal(c, f, app, sid, d, p, pad, cap).Ok?
    ensures Open(c, f, sid, d, Seal(c, f, app, sid, d, p, pad, cap).value) == Verified(Frame(f, app, p, pad))
  {
    hide LE, GetLE, RecordIV, Frame, PadSize;
    var framed := Frame(f, app, p, pad);
    FrameSize(f, app, p, pad);
    var len := |framed| + TAG_SIZE;
    var h := Header(f, sid, d.num, len);
    var ct := c.seal(d.key, RecordIV(d.iv, d.num), h, framed);
    var enc := h + ct;
    HeaderFields(f, sid, d.num, len, ct);
    assert enc[..|h|] == h && enc[|h|..|h| + len] == ct;
  }

  /** A field that reads as v is the encoding of v. */
  lemma FieldIs(buf: bytes, off: nat, n: nat, v: nat)
    requires off + n <= |buf| && GetLE(buf, off, n) == v
    ensures buf[off..off + n] == LE(v, n)
  {
    FromLEBound(buf[off..off + n]);
    LERoundTrip(v, n);
    FromLEInjective(buf[off..off + n], LE(v, n));
  }

  /** What a record that verifies says about itself: the sender's own header, and its AEAD input. */
  lemma OpenVerified(c: Crypto, f: Format, sid: nat, d: Dir, enc: bytes)
    requires d.Valid() && Open(c, f, sid, d, enc).Verified?
    ensures
      var h := HeaderSize(f);
      && |enc| >= h + TAG_SIZE
      && var len := Get16(enc, h - 2);
      && TAG_SIZE <= len <= |enc| - h
      && enc[..h] == Header(f, sid, d.num, len)
      && c.open(d.key, RecordIV(d.iv, d.num), enc[..h], enc[h..h + len]) == Some(Open(c, f, sid, d, enc).framed)
  {
    hide RecordIV, LE, GetLE;
    var h, w := HeaderSize(f), if f.Tcg? then 8 else 2;
    FieldIs(enc, 0, 4, sid);
    FieldIs(enc, 4, w, d.num);
    FieldIs(enc, h - 2, 2, Get16(enc, h - 2));
    assert enc[..h] == enc[0..4] + enc[4..4 + w] + enc[h - 2..h];
  }
  /**
   * A record verifies if and only if it starts with the header of this session and number, announces an AEAD output of a
   * permitted length that is there (in the MCTP binding with nothing after it), and the AEAD opens it.
   */
  lemma OpenMeans(c: Crypto, f: Format, sid: nat, d: Dir, enc: bytes, framed: bytes)
    requires d.Valid() && sid < 0x1_0000_0000 && (f.Mctp? ==> d.num < 0x1_0000)
    ensures
      var h := HeaderSize(f);
      Open(c, f, sid, d, enc) == Verified(framed) <==>
        && |enc| >= h + 16
        && var len := Get16(enc, h - 2);
           && enc[..h] == Header(f, sid, d.num, len) && 16 <= len <= 16 + 8192 + 48
           && (if f.Tcg? then h + len <= |enc| else h + len == |enc|)
           && c.open(d.key, RecordIV(d.iv, d.num), enc[..h], enc[h..h + len]) == Some(framed)
  {
    hide RecordIV, LE, GetLE, Header;
    var h := HeaderSize(f);
    if Open(c, f, sid, d, enc).Verified? {
      OpenVerified(c, f, sid, d, enc);
    }
    if |enc| >= h + 16 {
      var len := Get16(enc, h - 2);
      if enc[..h] == Header(f, sid, d.num, len) {
        assert enc == enc[..h] + enc[h..];
        HeaderFields(f, sid, d.num, len, enc[h..]);
      }
    }
  }

  lemma PrefixParts(s: bytes, a: bytes, b: bytes, c: bytes)
    ensures a + b + c <= s <==>
              |a| + |b| + |c| <= |s| && s[0..|a|] == a && s[|a|..|a| + |b|] == b && s[|a| + |b|..|a| + |b| + |c|] == c
  {
    var q := a + b + c;
    assert q[0..|a|] == a && q[|a|..|a| + |b|] == b && q[|a| + |b|..|q|] == c;
    if q <= s {
      assert s[..|q|] == q;
      assert s[0..|a|] == q[0..|a|] && s[|a|..|a| + |b|] == q[|a|..|a| + |b|] && s[|a| + |b|..|q|] == q[|a| + |b|..|q|];
    }
    if |q| <= |s| && s[0..|a|] == a && s[|a|..|a| + |b|] == b && s[|a| + |b|..|q|] == c {
      assert s[..|q|] == s[0..|a|] + s[|a|..|a| + |b|] + s[|a| + |b|..|q|];
    }
  }

  lemma LengthHolds(framed: bytes, n: nat)
    requires |framed| >= 2 && n < 0x1_0000
    ensures Get16(framed, 0) == n <==> framed[0..2] == LE(n, 2)
  {
    hide LE, FromLE;
    Pow256Values();
    if Get16(framed, 0) == n {
      FieldIs(framed, 0, 2, n);
    }
    if framed[0..2] == LE(n, 2) {
      SliceReads(framed, 0, n, 2);
    }
  }

  function TypeTag(f: Format, app: bool): bytes {
    if f.Mctp? && !app then [0x05] else []
  }

  lemma UnframeIs(f: Format, app: bool, framed: bytes, cap: nat, p: bytes)
    ensures
      var (tag, n) := (TypeTag(f, app), |TypeTag(f, app)| + |p|);
      Unframe(f, app, framed, cap) == Ok(p) <==>
        && |p| <= cap && (f.Mctp? && app ==> p != []) && 2 + n <= |framed| && Get16(framed, 0) == n
        && framed[2..2 + |tag|] == tag && framed[2 + |tag|..2 + n] == p
  {
    hide Get16;
    var tag := TypeTag(f, app);
    if |framed| >= 3 && |tag| == 1 {
      assert framed[2..3] == [framed[2]];
    }
  }

  /** The plaintext is the length of type byte and message, the type byte where the binding has one, the message, and padding. */
  lemma UnframeMeans(f: Format, app: bool, framed: bytes, cap: nat, p: bytes)
    ensures
      var (tag, n) := (TypeTag(f, app), |TypeTag(f, app)| + |p|);
      Unframe(f, app, framed, cap) == Ok(p) <==>
        |p| <= cap && (f.Mctp? && app ==> p != []) && n < 0x1_0000 && LE(n, 2) + tag + p <= framed
  {
    hide LE, GetLE, Unframe, TypeTag;
    var (tag, n) := (TypeTag(f, app), |TypeTag(f, app)| + |p|);
    UnframeIs(f, app, framed, cap, p);
    PrefixParts(framed, LE(n, 2), tag, p);
    if |framed| >= 2 && n < 0x1_0000 {
      LengthHolds(framed, n);
    }
  }
  /** Padding fills a TCG plaintext to whole 16-byte blocks, with less than a block; MCTP has none. */
  lemma PadMeans(f: Format, n: nat)
    ensures f.Tcg? ==> (2 + n + PadSize(f, n)) % 16 == 0 && PadSize(f, n) < 16
    ensures f.Mctp? ==> PadSize(f, n) == 0
  {
  }

  /** A message is sealed exactly when it is short enough, its number fits the binding's header, and the record fits. */
  lemma SealMeans(c: Crypto, f: Format, sid: nat, d: Dir, p: bytes, pad: bytes, cap: nat)
    requires d.Valid() && |pad| == PadSize(f, |p|)
    ensures
      var r := Seal(c, f, false, sid, d, p, pad, cap);
      && (r.Ok? <==>
            && |p| <= 8192 && (f.Mctp? ==> d.num <= 0xFFFF)
            && cap >= if f.Tcg? then 14 + 2 + |p| + |pad| + 16 else 8 + 3 + |p| + 16)
      && (r == Err(SequenceErr) <==> |p| <= 8192 && f.Mctp? && d.num > 0xFFFF)
  {
    hide Record, LE;
  }
}
