/** Capabilities and algorithms of the standard requester (spdm_standard.c): what may be agreed is what was offered. */
module Negotiation {
  import opened Bytes
  import opened Codes
  import opened Records
  import Chunks

  const ALG_DHE: byte := 2
  const ALG_AEAD: byte := 3
  const ALG_REQ_BASE_ASYM: byte := 4
  const ALG_KEY_SCHEDULE: byte := 5
  const ALG_KEM: byte := 7

  const ECDSA_P384: nat := 0x80
  const SHA_384: nat := 2
  const SECP384R1: nat := 0x10
  const AES_256_GCM: nat := 2
  const KEY_SCHEDULE_SPDM: nat := 1
  /** ML-DSA-44, 65, 87 and ML-KEM-512, 768, 1024: bits 0 to 2 of their fields. */
  const ALL_SETS: nat := 7

  /** Preferences (advDhe, advKem) and what has been negotiated; 0 stands for ECDSA and for ECDHE. */
  datatype Neg = Neg(ver: byte, advDhe: bool, advKem: nat, pqcSel: nat, kemSel: nat)
  {
    /** As wolfSPDM_SetKeyExchangePref and wolfSPDM_Init leave the preferences. */
    predicate Valid() {
      advKem <= ALL_SETS && (advDhe || advKem != 0)
    }
  }

  // ----- The offer -----

  predicate OffersKem(n: Neg) {
    n.ver >= 0x14 && n.advKem != 0
  }

  predicate OffersPqc(n: Neg) {
    n.ver >= 0x14
  }

  function AlgStruct(kind: byte, sel: nat): (s: bytes)
    ensures |s| == 4
  {
    [kind, 0x20] + LE(sel, 2)
  }

  function OfferedStructs(n: Neg): bytes {
    (if n.advDhe then AlgStruct(ALG_DHE, SECP384R1) else []) +
    AlgStruct(ALG_AEAD, AES_256_GCM) + AlgStruct(ALG_REQ_BASE_ASYM, ECDSA_P384) + AlgStruct(ALG_KEY_SCHEDULE, KEY_SCHEDULE_SPDM) +
    (if OffersKem(n) then AlgStruct(ALG_KEM, n.advKem) else [])
  }

  /** wolfSPDM_BuildNegotiateAlgorithms: a preference that leaves nothing to offer is refused, not widened. */
  function BuildRequest(n: Neg): Result<bytes> {
    if !n.advDhe && !OffersKem(n) then Err(AlgoMismatch)
    else
      var s := OfferedStructs(n);
      Ok([n.ver, NEGOTIATE_ALGORITHMS, (|s| / 4) as byte, 0] + LE(32 + |s|, 2) + [1, 2] + LE(ECDSA_P384, 4) + LE(SHA_384, 4) +
         LE(if OffersPqc(n) then ALL_SETS else 0, 4) + Zeros(12) + s)
  }

  // ----- The answer -----

  /** What the AlgStructs read so far have selected. */
  datatype Picked = Picked(dhe: bool, kem: nat, aead: bool, schedule: bool)

  const NOTHING := Picked(false, 0, false, false)

  /** A non-zero selection with one bit, among those offered. */
  predicate KemAllowed(n: Neg, sel: nat) {
    AndBits(sel, if sel == 0 then 0 else sel - 1, 16) == 0 && AndBits(AndBits(sel, n.advKem, 16), ALL_SETS, 16) != 0 && n.ver >= 0x14
  }

  /** One AlgStruct; None when it selects something that was not offered. */
  function Pick(n: Neg, p: Picked, kind: byte, sel: nat): Option<Picked> {
    if kind == ALG_DHE then
      if (sel != 0 && sel != SECP384R1) || (sel == SECP384R1 && !n.advDhe) then None else Some(p.(dhe := sel == SECP384R1))
    else if kind == ALG_KEM then
      if sel != 0 && !KemAllowed(n, sel) then None else Some(p.(kem := sel))
    else if kind == ALG_AEAD then Some(p.(aead := sel == AES_256_GCM))
    else if kind == ALG_KEY_SCHEDULE then Some(p.(schedule := sel == KEY_SCHEDULE_SPDM))
    else Some(p)
  }

  /** The loop over count AlgStructs from off on. */
  function PickAll(n: Neg, buf: bytes, off: nat, count: nat, p: Picked): Option<Picked>
    decreases count
  {
    if count == 0 then Some(p)
    else if off + 4 > |buf| then None
    else match Pick(n, p, buf[off], Get16(buf, off + 2))
      case None => None
      case Some(p1) => PickAll(n, buf, off + 4 + 4 * (buf[off + 1] % 16) as nat, count - 1, p1)
  }

  function MlDsaLevel(sel: nat): nat {
    if sel == 1 then 2 else if sel == 2 then 3 else if sel == 4 then 5 else 0
  }

  predicate HeaderOk(n: Neg, buf: bytes) {
    && |buf| >= 36 && buf[0] == n.ver && Get16(buf, 4) == |buf| && buf[6] <= 1 && buf[7] == 2 && Get32(buf, 16) == SHA_384
  }

  function PqcField(n: Neg, buf: bytes): nat
    requires |buf| >= 36
  {
    if n.ver >= 0x14 then Get32(buf, 20) else 0
  }

  /** One signature algorithm across BaseAsymSel and, from 1.4, PqcAsymSel. */
  predicate SignatureOk(n: Neg, buf: bytes)
    requires |buf| >= 36
  {
    if PqcField(n, buf) != 0 then Get32(buf, 12) == 0 && MlDsaLevel(PqcField(n, buf)) != 0 else Get32(buf, 12) == ECDSA_P384
  }

  predicate Complete(p: Picked) {
    p.dhe != (p.kem != 0) && p.aead && p.schedule
  }

  /** The AlgStructs follow the ExtAsymSel and ExtHashSel tables. */
  function FirstStruct(buf: bytes): nat
    requires |buf| >= 36
  {
    36 + 4 * buf[32] as nat + 4 * buf[33] as nat
  }

  /** wolfSPDM_ParseAlgorithms. */
  function ParseAlgorithms(n: Neg, buf: bytes): (r: (Neg, Rc)) {
    if |buf| < 4 then (n, InvalidArg)
    else if buf[1] != ALGORITHMS_RSP then (n, if buf[1] == SPDM_ERROR then PeerError else AlgoMismatch)
    else if !HeaderOk(n, buf) then (n, AlgoMismatch)
    else
      var n1 := n.(pqcSel := 0, kemSel := 0);
      if !SignatureOk(n, buf) then (n1, AlgoMismatch)
      else match PickAll(n, buf, FirstStruct(buf), buf[2] as nat, NOTHING)
        case None => (n1, AlgoMismatch)
        case Some(p) => if !Complete(p) then (n1, AlgoMismatch) else (n1.(pqcSel := PqcField(n, buf), kemSel := p.kem), Success)
  }

  // ----- Within the offer -----

  /** One of the three sets, and the mask has its bit. */
  predicate OneOf(sel: nat, mask: nat) {
    (sel == 1 && mask % 2 == 1) || (sel == 2 && mask / 2 % 2 == 1) || (sel == 4 && mask / 4 % 2 == 1)
  }

  lemma {:induction false} SingleBit(s: nat, n: nat)
    requires 0 < s < Pow2(n) && AndBits(s, s - 1, n) == 0
    ensures exists k :: 0 <= k < n && s == Pow2(k)
  {
    if s % 2 == 1 {
      AndSelf(s / 2, n - 1);
      assert (s - 1) / 2 == s / 2;
      assert s == Pow2(0);
    } else {
      assert (s - 1) / 2 == s / 2 - 1;
      SingleBit(s / 2, n - 1);
      var k :| 0 <= k < n - 1 && s / 2 == Pow2(k);
      assert s == Pow2(k + 1);
    }
  }

  lemma {:induction false} AndSelf(s: nat, n: nat)
    requires s < Pow2(n)
    ensures AndBits(s, s, n) == s
  {
    if n > 0 {
      AndSelf(s / 2, n - 1);
    }
  }

  lemma {:induction false} AndZero(s: nat, n: nat)
    ensures AndBits(s, 0, n) == 0 && AndBits(0, s, n) == 0
  {
  }

  lemma ThreeBits(s: nat, mask: nat)
    requires mask <= ALL_SETS && (s == 1 || s == 2 || s == 4)
    ensures AndBits(AndBits(s, mask, 16), ALL_SETS, 16) != 0 <==> OneOf(s, mask)
  {
    hide AndBits;
    Unfold3(s, mask);
    var m := AndBits(s, mask, 16);
    Unfold3(m, ALL_SETS);
    if s == 1 {
      assert m == mask % 2;
    } else if s == 2 {
      assert m == 2 * (mask / 2 % 2);
    } else {
      assert m == 4 * (mask / 4 % 2);
    }
  }

  /** A mask of three bits meets a power of two only in one of them. */
  lemma LowBits(k: nat, mask: nat)
    requires k < 16 && mask <= ALL_SETS
    ensures AndBits(AndBits(Pow2(k), mask, 16), ALL_SETS, 16) != 0 <==> OneOf(Pow2(k), mask)
  {
    if k >= 3 {
      HighBit(k, mask);
      AndZero(ALL_SETS, 16);
    } else {
      assert Pow2(0) == 1 && Pow2(1) == 2 && Pow2(2) == 4;
      ThreeBits(Pow2(k), mask);
    }
  }

  lemma HighBit(k: nat, mask: nat)
    requires 3 <= k < 16 && mask <= ALL_SETS
    ensures AndBits(Pow2(k), mask, 16) == 0 && Pow2(k) >= 8
  {
    hide AndBits;
    var m := Pow2(k - 3);
    assert Pow2(k - 2) == 2 * m && Pow2(k - 1) == 2 * Pow2(k - 2) && Pow2(k) == 2 * Pow2(k - 1);
    EightTimes(Pow2(k), m);
    Unfold3(Pow2(k), mask);
  }

  lemma EightTimes(s: nat, m: nat)
    requires s == 8 * m
    ensures s % 2 == 0 && s / 2 % 2 == 0 && s / 4 % 2 == 0
  {
    assert s / 2 == 4 * m && s / 4 == 2 * m;
  }

  /** And with a three-bit mask, bit by bit. */
  lemma Unfold3(s: nat, mask: nat)
    requires mask <= ALL_SETS
    ensures AndBits(s, mask, 16) == (if s % 2 == 1 && mask % 2 == 1 then 1 else 0) +
              2 * ((if s / 2 % 2 == 1 && mask / 2 % 2 == 1 then 1 else 0) + 2 * (if s / 4 % 2 == 1 && mask / 4 % 2 == 1 then 1 else 0))
  {
    AndZero(s / 8, 13);
    assert AndBits(s / 8, mask / 8, 13) == 0;
    assert s / 2 / 2 == s / 4 && mask / 2 / 2 == mask / 4 && s / 4 / 2 == s / 8 && mask / 4 / 2 == mask / 8;
    assert AndBits(s / 4, mask / 4, 14) == if s / 4 % 2 == 1 && mask / 4 % 2 == 1 then 1 else 0;
    assert AndBits(s / 2, mask / 2, 15) == (if s / 2 % 2 == 1 && mask / 2 % 2 == 1 then 1 else 0) + 2 * AndBits(s / 4, mask / 4, 14);
  }

  /** The bit tricks of the code accept exactly the single offered sets. */
  lemma KemAllowedMeans(n: Neg, sel: nat)
    requires n.advKem <= ALL_SETS && 0 < sel < 0x1_0000
    ensures KemAllowed(n, sel) <==> n.ver >= 0x14 && OneOf(sel, n.advKem)
  {
    assert Pow2(16) == 0x1_0000 by { assert Pow2(8) == 256; Pow2Split(); }
    if AndBits(sel, sel - 1, 16) == 0 {
      SingleBit(sel, 16);
      var k :| 0 <= k < 16 && sel == Pow2(k);
      LowBits(k, n.advKem);
    } else if OneOf(sel, n.advKem) {
      PowersClear();
    }
  }

  lemma Pow2Split()
    ensures Pow2(8) == 256 && Pow2(12) == 4096 && Pow2(16) == 0x1_0000
  {
    assert Pow2(4) == 16;
    assert Pow2(8) == 256;
    assert Pow2(12) == 4096;
  }

  lemma PowersClear()
    ensures AndBits(1, 0, 16) == 0 && AndBits(2, 1, 16) == 0 && AndBits(4, 3, 16) == 0
  {
    AndZero(1, 16);
    Unfold3(2, 1);
    Unfold3(4, 3);
  }

  /** What one AlgStruct says. */
  datatype Choice = Choice(kind: byte, sel: nat)

  /** The count AlgStructs from off on, if the buffer holds them. */
  function Choices(buf: bytes, off: nat, count: nat): Option<seq<Choice>>
    decreases count
  {
    if count == 0 then Some([])
    else if off + 4 > |buf| then None
    else match Choices(buf, off + 4 + 4 * (buf[off + 1] % 16) as nat, count - 1)
      case None => None
      case Some(rest) => Some([Choice(buf[off], Get16(buf, off + 2))] + rest)
  }

  /** No key exchange, or one that was offered; other kinds are not limited one by one. */
  predicate Offered(n: Neg, ch: Choice) {
    && (ch.kind == ALG_DHE ==> ch.sel == 0 || (ch.sel == SECP384R1 && n.advDhe))
    && (ch.kind == ALG_KEM ==> ch.sel == 0 || (n.ver >= 0x14 && OneOf(ch.sel, n.advKem)))
  }

  predicate AllOffered(n: Neg, cs: seq<Choice>) {
    forall i :: 0 <= i < |cs| ==> Offered(n, cs[i])
  }

  /** The selection of the last AlgStruct of a kind; before when there is none. */
  function LastOf(cs: seq<Choice>, kind: byte, before: nat): nat
    decreases |cs|
  {
    if cs == [] then before
    else if cs[|cs| - 1].kind == kind then cs[|cs| - 1].sel
    else LastOf(cs[..|cs| - 1], kind, before)
  }

  /** The last AlgStruct of each kind decides. */
  function Decided(cs: seq<Choice>): Picked {
    Picked(LastOf(cs, ALG_DHE, 0) == SECP384R1, LastOf(cs, ALG_KEM, 0), LastOf(cs, ALG_AEAD, 0) == AES_256_GCM,
           LastOf(cs, ALG_KEY_SCHEDULE, 0) == KEY_SCHEDULE_SPDM)
  }

  lemma {:induction false} LastOfFront(ch: Choice, rest: seq<Choice>, kind: byte, before: nat)
    ensures LastOf([ch] + rest, kind, before) == LastOf(rest, kind, if ch.kind == kind then ch.sel else before)
    decreases |rest|
  {
    if rest == [] {
      assert [ch] + rest == [ch];
    } else {
      var cs := [ch] + rest;
      assert cs[..|cs| - 1] == [ch] + rest[..|rest| - 1];
      LastOfFront(ch, rest[..|rest| - 1], kind, before);
    }
  }

  /** How the picks before a list of AlgStructs show in the numbers that LastOf starts from. */
  predicate Shows(p: Picked, dhe: nat, kem: nat, aead: nat, schedule: nat) {
    p == Picked(dhe == SECP384R1, kem, aead == AES_256_GCM, schedule == KEY_SCHEDULE_SPDM)
  }

  lemma PickMeans(n: Neg, p: Picked, ch: Choice, dhe: nat, kem: nat, aead: nat, schedule: nat)
    requires n.Valid() && ch.sel < 0x1_0000 && Shows(p, dhe, kem, aead, schedule)
    ensures Pick(n, p, ch.kind, ch.sel).Some? <==> Offered(n, ch)
    ensures Offered(n, ch) ==>
              Shows(Pick(n, p, ch.kind, ch.sel).value,
                    if ch.kind == ALG_DHE then ch.sel else dhe, if ch.kind == ALG_KEM then ch.sel else kem,
                    if ch.kind == ALG_AEAD then ch.sel else aead, if ch.kind == ALG_KEY_SCHEDULE then ch.sel else schedule)
  {
    hide AndBits, KemAllowed;
    if ch.kind == ALG_KEM && ch.sel != 0 {
      KemAllowedMeans(n, ch.sel);
    }
  }

  /** The loop succeeds exactly when every AlgStruct is there and within the offer; of each kind the last one decides. */
  lemma {:induction false} PickAllMeans(n: Neg, buf: bytes, off: nat, count: nat, p: Picked,
                                        dhe: nat, kem: nat, aead: nat, schedule: nat)
    requires n.Valid() && Shows(p, dhe, kem, aead, schedule)
    ensures
      var cs := Choices(buf, off, count);
      var r := PickAll(n, buf, off, count, p);
      && (r.Some? <==> cs.Some? && AllOffered(n, cs.value))
      && (r.Some? ==>
            Shows(r.value, LastOf(cs.value, ALG_DHE, dhe), LastOf(cs.value, ALG_KEM, kem), LastOf(cs.value, ALG_AEAD, aead),
                  LastOf(cs.value, ALG_KEY_SCHEDULE, schedule)))
    decreases count
  {
    hide Pick, Shows, Offered, LastOf;
    if count == 0 {
      LastOfEmpty(dhe, kem, aead, schedule);
    } else if off + 4 <= |buf| {
      var ch := Choice(buf[off], Get16(buf, off + 2));
      var off1 := off + 4 + 4 * (buf[off + 1] % 16) as nat;
      PickMeans(n, p, ch, dhe, kem, aead, schedule);
      if Offered(n, ch) {
        PickAllMeans(n, buf, off1, count - 1, Pick(n, p, ch.kind, ch.sel).value,
                     if ch.kind == ALG_DHE then ch.sel else dhe, if ch.kind == ALG_KEM then ch.sel else kem,
                     if ch.kind == ALG_AEAD then ch.sel else aead, if ch.kind == ALG_KEY_SCHEDULE then ch.sel else schedule);
      }
      if Choices(buf, off1, count - 1).Some? {
        var rest := Choices(buf, off1, count - 1).value;
        assert ([ch] + rest)[0] == ch && ([ch] + rest)[1..] == rest;
        FrontOffered(n, ch, rest);
        LastOfFront(ch, rest, ALG_DHE, dhe);
        LastOfFront(ch, rest, ALG_KEM, kem);
        LastOfFront(ch, rest, ALG_AEAD, aead);
        LastOfFront(ch, rest, ALG_KEY_SCHEDULE, schedule);
      }
    }
  }

  lemma LastOfEmpty(dhe: nat, kem: nat, aead: nat, schedule: nat)
    ensures LastOf([], ALG_DHE, dhe) == dhe && LastOf([], ALG_KEM, kem) == kem && LastOf([], ALG_AEAD, aead) == aead
    ensures LastOf([], ALG_KEY_SCHEDULE, schedule) == schedule
  {
  }

  lemma FrontOffered(n: Neg, ch: Choice, rest: seq<Choice>)
    ensures AllOffered(n, [ch] + rest) <==> Offered(n, ch) && AllOffered(n, rest)
  {
    hide Offered;
    var cs := [ch] + rest;
    assert cs[0] == ch;
    if AllOffered(n, cs) {
      forall i | 0 <= i < |rest|
        ensures Offered(n, rest[i])
      {
        assert cs[i + 1] == rest[i];
      }
    }
  }

  /** The AlgStructs of a response. */
  function ChoicesOf(buf: bytes): Option<seq<Choice>>
    requires |buf| >= 36
  {
    Choices(buf, FirstStruct(buf), buf[2] as nat)
  }

  /** A response that answers the offer: each AlgStruct within it, and the last ones a complete algorithm set. */
  predicate Answers(n: Neg, buf: bytes) {
    && |buf| >= 36 && buf[0] == n.ver && buf[1] == ALGORITHMS_RSP && Get16(buf, 4) == |buf| && buf[6] <= 1 && buf[7] == 2
    && Get32(buf, 16) == SHA_384
    && (if n.ver >= 0x14 && Get32(buf, 20) != 0 then Get32(buf, 12) == 0 && OneOf(Get32(buf, 20), ALL_SETS)
        else Get32(buf, 12) == ECDSA_P384)
    && ChoicesOf(buf).Some? && AllOffered(n, ChoicesOf(buf).value) && Complete(Decided(ChoicesOf(buf).value))
  }

  /** Success is exactly an answer to the offer; what is recorded is what its last AlgStructs select. */
  lemma AcceptsAnswers(n: Neg, buf: bytes)
    requires n.Valid()
    ensures
      var (n', rc) := ParseAlgorithms(n, buf);
      && (rc == Success <==> Answers(n, buf))
      && (rc == Success ==> n' == n.(pqcSel := PqcField(n, buf), kemSel := LastOf(ChoicesOf(buf).value, ALG_KEM, 0)))
      && (rc != Success ==> n' == n || n' == n.(pqcSel := 0, kemSel := 0))
  {
    hide AndBits, GetLE, PickAll, Choices, LastOf, AllOffered, KemAllowed, Pick;
    if |buf| >= 36 {
      PickAllMeans(n, buf, FirstStruct(buf), buf[2] as nat, NOTHING, 0, 0, 0, 0);
    }
  }

  lemma {:induction false} LastIsOffered(n: Neg, cs: seq<Choice>)
    requires AllOffered(n, cs)
    ensures LastOf(cs, ALG_DHE, 0) == 0 || (LastOf(cs, ALG_DHE, 0) == SECP384R1 && n.advDhe)
    ensures LastOf(cs, ALG_KEM, 0) == 0 || (n.ver >= 0x14 && OneOf(LastOf(cs, ALG_KEM, 0), n.advKem))
    decreases |cs|
  {
    if cs != [] {
      assert Offered(n, cs[|cs| - 1]);
      LastIsOffered(n, cs[..|cs| - 1]);
    }
  }

  // ----- Every legal choice is accepted -----

  /** One AlgStruct: its type, the width of its fixed field, its selection, and any external algorithms after it. */
  datatype Struct = Struct(kind: byte, width: nat, sel: nat, ext: bytes)
  {
    predicate Valid() {
      width < 16 && sel < 0x1_0000 && |ext| % 4 == 0 && |ext| / 4 < 16
    }

    function Encode(): (s: bytes)
      requires Valid()
      ensures |s| == 4 + |ext|
    {
      [kind, (16 * width + |ext| / 4) as byte] + LE(sel, 2) + ext
    }
  }

  function EncodeAll(ss: seq<Struct>): bytes
    requires forall s :: s in ss ==> s.Valid()
  {
    if ss == [] then [] else ss[0].Encode() + EncodeAll(ss[1..])
  }

  function Said(ss: seq<Struct>): (cs: seq<Choice>)
    ensures |cs| == |ss| && forall i :: 0 <= i < |ss| ==> cs[i] == Choice(ss[i].kind, ss[i].sel)
  {
    if ss == [] then [] else [Choice(ss[0].kind, ss[0].sel)] + Said(ss[1..])
  }

  /** AlgStructs read back as they were encoded, whatever external algorithms stand between them. */
  lemma {:induction false} ChoicesRead(pre: bytes, ss: seq<Struct>)
    requires forall s :: s in ss ==> s.Valid()
    ensures Choices(pre + EncodeAll(ss), |pre|, |ss|) == Some(Said(ss))
    decreases |ss|
  {
    hide LE, Get16, Struct.Encode, EncodeAll, Choices, Said;
    if ss == [] {
      NothingRead(pre);
    } else {
      var enc, tail := ss[0].Encode(), EncodeAll(ss[1..]);
      StructReads(pre, ss[0], tail);
      FrontOf(ss);
      assert pre + (enc + tail) == pre + enc + tail;
      ChoicesRead(pre + enc, ss[1..]);
      ChoicesStep(pre + enc + tail, |pre|, |ss|, Choice(ss[0].kind, ss[0].sel), Said(ss[1..]));
    }
  }

  lemma NothingRead(pre: bytes)
    ensures Choices(pre + EncodeAll([]), |pre|, 0) == Some(Said([]))
  {
  }

  lemma FrontOf(ss: seq<Struct>)
    requires ss != [] && forall s :: s in ss ==> s.Valid()
    ensures EncodeAll(ss) == ss[0].Encode() + EncodeAll(ss[1..]) && Said(ss) == [Choice(ss[0].kind, ss[0].sel)] + Said(ss[1..])
  {
    hide Struct.Encode;
  }

  lemma ChoicesStep(buf: bytes, off: nat, count: nat, ch: Choice, rest: seq<Choice>)
    requires count > 0 && off + 4 <= |buf| && ch == Choice(buf[off], Get16(buf, off + 2))
    requires Choices(buf, off + 4 + 4 * (buf[off + 1] % 16) as nat, count - 1) == Some(rest)
    ensures Choices(buf, off, count) == Some([ch] + rest)
  {
    hide Get16;
  }

  lemma StructReads(pre: bytes, s: Struct, post: bytes)
    requires s.Valid()
    ensures
      var buf := pre + s.Encode() + post;
      && |buf| >= |pre| + 4 && buf[|pre|] == s.kind && 4 + 4 * (buf[|pre| + 1] % 16) as nat == |s.Encode()|
      && Get16(buf, |pre| + 2) == s.sel
  {
    hide LE, GetLE;
    Pow256Values();
    var head := [s.kind, (16 * s.width + |s.ext| / 4) as byte];
    var buf := pre + s.Encode() + post;
    assert buf == (pre + head) + LE(s.sel, 2) + (s.ext + post);
    FieldReadBack(pre + head, s.sel, 2, s.ext + post);
  }

  /** A response header with the choice of signature algorithm, and AlgStructs after tables of external algorithms. */
  predicate Responds(n: Neg, buf: bytes, ss: seq<Struct>, pqc: nat) {
    && |buf| >= 36 && buf[0] == n.ver && buf[1] == ALGORITHMS_RSP && buf[2] as nat == |ss| && Get16(buf, 4) == |buf|
    && buf[6] <= 1 && buf[7] == 2 && Get32(buf, 16) == SHA_384
    && Get32(buf, 12) == (if pqc == 0 then ECDSA_P384 else 0) && (n.ver >= 0x14 ==> Get32(buf, 20) == pqc)
    && FirstStruct(buf) <= |buf| && (forall s :: s in ss ==> s.Valid()) && buf[FirstStruct(buf)..] == EncodeAll(ss)
  }

  predicate LegalSignature(n: Neg, pqc: nat) {
    pqc == 0 || (n.ver >= 0x14 && OneOf(pqc, ALL_SETS))
  }

  /** AlgStructs that repeat and contradict one another are accepted; the last one of each kind wins. */
  lemma LastStructWins(n: Neg, buf: bytes, ss: seq<Struct>, pqc: nat)
    requires n.Valid() && LegalSignature(n, pqc) && Responds(n, buf, ss, pqc)
    requires AllOffered(n, Said(ss)) && Complete(Decided(Said(ss)))
    ensures ParseAlgorithms(n, buf) == (n.(pqcSel := pqc, kemSel := LastOf(Said(ss), ALG_KEM, 0)), Success)
  {
    hide GetLE, Choices, LastOf, AllOffered, Offered, Said;
    var off := FirstStruct(buf);
    assert buf == buf[..off] + EncodeAll(ss);
    ChoicesRead(buf[..off], ss);
    AcceptsAnswers(n, buf);
  }

  /** For example two different ML-KEM selections in one response: the first is overridden without a complaint. */
  lemma ConflictAccepted(n: Neg, buf: bytes, first: nat, second: nat)
    requires n.Valid() && n.ver >= 0x14 && OneOf(first, n.advKem) && OneOf(second, n.advKem) && first != second
    requires Responds(n, buf, [Struct(ALG_KEM, 2, first, []), Struct(ALG_KEM, 2, second, []), Struct(ALG_AEAD, 2, AES_256_GCM, []),
                               Struct(ALG_KEY_SCHEDULE, 2, KEY_SCHEDULE_SPDM, [])], 0)
    ensures ParseAlgorithms(n, buf) == (n.(pqcSel := 0, kemSel := second), Success)
  {
    hide Responds, ParseAlgorithms;
    var ss := [Struct(ALG_KEM, 2, first, []), Struct(ALG_KEM, 2, second, []), Struct(ALG_AEAD, 2, AES_256_GCM, []),
               Struct(ALG_KEY_SCHEDULE, 2, KEY_SCHEDULE_SPDM, [])];
    var cs := Said(ss);
    var (c3, c2, c1) := (cs[..3], cs[..2], cs[..1]);
    assert c3[..2] == c2 && c2[..1] == c1 && c1[..0] == [];
    assert LastOf(cs, ALG_KEM, 0) == LastOf(c3, ALG_KEM, 0) == LastOf(c2, ALG_KEM, 0) == second;
    assert LastOf(cs, ALG_DHE, 0) == LastOf(c3, ALG_DHE, 0) == LastOf(c2, ALG_DHE, 0) == LastOf(c1, ALG_DHE, 0) == 0;
    assert LastOf(cs, ALG_AEAD, 0) == LastOf(c3, ALG_AEAD, 0) == AES_256_GCM;
    LastStructWins(n, buf, ss, 0);
  }

  // ----- The offer as the responder reads it -----

  /** What a NEGOTIATE_ALGORITHMS request offers under each kind. */
  function OfferOf(req: bytes): Option<seq<Choice>>
    requires |req| >= 32
  {
    Choices(req, 32, req[2] as nat)
  }

  function OfferList(n: Neg): seq<Struct> {
    (if n.advDhe then [Struct(ALG_DHE, 2, SECP384R1, [])] else []) +
    [Struct(ALG_AEAD, 2, AES_256_GCM, []), Struct(ALG_REQ_BASE_ASYM, 2, ECDSA_P384, []), Struct(ALG_KEY_SCHEDULE, 2, KEY_SCHEDULE_SPDM, [])] +
    (if OffersKem(n) then [Struct(ALG_KEM, 2, n.advKem, [])] else [])
  }

  lemma {:induction false} EncodeJoins(ss: seq<Struct>, ts: seq<Struct>)
    requires (forall s :: s in ss ==> s.Valid()) && (forall t :: t in ts ==> t.Valid())
    ensures EncodeAll(ss + ts) == EncodeAll(ss) + EncodeAll(ts)
    decreases |ss|
  {
    hide Struct.Encode;
    if ss == [] {
      assert ss + ts == ts;
    } else {
      assert (ss + ts)[1..] == ss[1..] + ts;
      EncodeJoins(ss[1..], ts);
    }
  }

  lemma EncodeOne(s: Struct)
    requires s.Valid() && s.width == 2 && s.ext == []
    ensures EncodeAll([s]) == AlgStruct(s.kind, s.sel)
  {
    hide LE;
    assert [s][1..] == [];
    assert EncodeAll([s]) == s.Encode() + [];
  }

  /** The bytes of the offer are the encoding of its list. */
  lemma OfferEncoded(n: Neg)
    requires n.Valid()
    ensures (forall s :: s in OfferList(n) ==> s.Valid()) && EncodeAll(OfferList(n)) == OfferedStructs(n)
  {
    hide AlgStruct, Struct.Encode, EncodeAll;
    var dhe := if n.advDhe then [Struct(ALG_DHE, 2, SECP384R1, [])] else [];
    var kem := if OffersKem(n) then [Struct(ALG_KEM, 2, n.advKem, [])] else [];
    var (a, b, c) := (Struct(ALG_AEAD, 2, AES_256_GCM, []), Struct(ALG_REQ_BASE_ASYM, 2, ECDSA_P384, []), Struct(ALG_KEY_SCHEDULE, 2, KEY_SCHEDULE_SPDM, []));
    assert [a, b, c] == [a] + ([b] + [c]);
    EncodeOne(a);
    EncodeOne(b);
    EncodeOne(c);
    EncodeJoins([b], [c]);
    EncodeJoins([a], [b] + [c]);
    EncodeJoins(dhe, [a, b, c]);
    EncodeJoins(dhe + [a, b, c], kem);
    EncodeNone();
    if n.advDhe { EncodeOne(dhe[0]); }
    if OffersKem(n) { EncodeOne(kem[0]); }
  }

  lemma EncodeNone()
    ensures EncodeAll([]) == []
  {
  }

  /** What the preferences say is to be offered, as AlgStructs to be read. */
  function Offer(n: Neg): seq<Choice> {
    (if n.advDhe then [Choice(2, 0x10)] else []) + [Choice(3, 2), Choice(4, 0x80), Choice(5, 1)] +
    (if n.ver >= 0x14 && n.advKem != 0 then [Choice(7, n.advKem)] else [])
  }

  lemma OfferSaid(n: Neg)
    ensures Said(OfferList(n)) == Offer(n)
  {
  }

  /** The fixed part of the request. */
  lemma RequestHeader(n: Neg, s: bytes, req: bytes)
    requires |s| <= 20 && |s| % 4 == 0
    requires req == [n.ver, NEGOTIATE_ALGORITHMS, (|s| / 4) as byte, 0] + LE(32 + |s|, 2) + [1, 2] + LE(ECDSA_P384, 4) + LE(SHA_384, 4) +
                    LE(if OffersPqc(n) then ALL_SETS else 0, 4) + Zeros(12) + s
    ensures |req| == 32 + |s| && req[0] == n.ver && req[1] == 0xE3 && req[2] as nat == |s| / 4 && req[3] == 0 && req[6] == 1 && req[7] == 2
    ensures Get16(req, 4) == |req| && Get32(req, 8) == 0x80 && Get32(req, 12) == 2
    ensures Get32(req, 16) == (if n.ver >= 0x14 then 7 else 0) && req[20..32] == Zeros(12) && req[32..] == s
  {
    hide LE, GetLE, Zeros;
    Pow256Values();
    var pqc := if OffersPqc(n) then ALL_SETS else 0;
    HeaderParts([n.ver, NEGOTIATE_ALGORITHMS, (|s| / 4) as byte, 0], LE(32 + |s|, 2), LE(ECDSA_P384, 4), LE(SHA_384, 4), LE(pqc, 4), Zeros(12), s);
    SliceReads(req, 4, 32 + |s|, 2);
    SliceReads(req, 8, ECDSA_P384, 4);
    SliceReads(req, 12, SHA_384, 4);
    SliceReads(req, 16, pqc, 4);
  }

  lemma HeaderParts(h: bytes, l: bytes, a: bytes, d: bytes, q: bytes, z: bytes, s: bytes)
    requires |h| == |a| == |d| == |q| == 4 && |l| == 2 && |z| == 12
    ensures
      var r := h + l + [1, 2] + a + d + q + z + s;
      && |r| == 32 + |s| && r[0] == h[0] && r[1] == h[1] && r[2] == h[2] && r[3] == h[3] && r[4..6] == l && r[6] == 1 && r[7] == 2
      && r[8..12] == a && r[12..16] == d && r[16..20] == q && r[20..32] == z && r[32..] == s
  {
    var p0 := h + l + [1, 2];
    var (p1, p2, p3, p4) := (p0 + a, p0 + a + d, p0 + a + d + q, p0 + a + d + q + z);
    var r := p4 + s;
    Behind(h, l);
    Behind(h + l, [1, 2]);
    Behind(p0, a);
    Behind(p1, d);
    Behind(p2, q);
    Behind(p3, z);
    Behind(p4, s);
    Within(r, p4, 20, 32);
    Within(r, p4, 16, 20);
    Within(p4, p3, 16, 20);
    Within(r, p4, 12, 16);
    Within(p4, p2, 12, 16);
    Within(r, p4, 8, 12);
    Within(p4, p1, 8, 12);
    Within(r, p4, 4, 6);
    Within(p4, h + l, 4, 6);
  }

  lemma Behind(p: bytes, x: bytes)
    ensures p <= p + x && (p + x)[|p|..] == x && (p + x)[|p|..|p + x|] == x
  {
  }

  lemma Within(r: bytes, p: bytes, i: nat, j: nat)
    requires p <= r && i <= j <= |p|
    ensures r[i..j] == p[i..j]
  {
  }

  /**
   * The request says what the preferences say, as its receiver reads it: a request is built unless nothing is left to
   * offer; it offers ECDHE if and only if that is preferred, the ML-KEM sets preferred at 1.4, AEAD, mutual signature and
   * key schedule once each, ECDSA and SHA-384, the ML-DSA sets at 1.4, and nothing else.
   */
  lemma OfferRead(n: Neg)
    requires n.Valid()
    ensures BuildRequest(n) == Err(AlgoMismatch) || (BuildRequest(n).Ok? && |BuildRequest(n).value| >= 32)
    ensures BuildRequest(n).Ok? <==> n.advDhe || (n.ver >= 0x14 && n.advKem != 0)
    ensures BuildRequest(n).Ok? ==>
              var req := BuildRequest(n).value;
              && req[0] == n.ver && req[1] == 0xE3 && req[3] == 0 && Get16(req, 4) == |req| && req[6] == 1 && req[7] == 2
              && Get32(req, 8) == 0x80 && Get32(req, 12) == 2 && Get32(req, 16) == (if n.ver >= 0x14 then 7 else 0)
              && req[20..32] == Zeros(12) && OfferOf(req) == Some(Offer(n)) && |req| == 32 + 4 * |Offer(n)|
  {
    hide LE, GetLE, EncodeAll, OfferedStructs, Choices, Offer, OfferList, Said, Zeros;
    if BuildRequest(n).Ok? {
      var req := BuildRequest(n).value;
      OfferEncoded(n);
      OfferSizes(n);
      RequestHeader(n, OfferedStructs(n), req);
      assert req == req[..32] + EncodeAll(OfferList(n));
      ChoicesRead(req[..32], OfferList(n));
      OfferSaid(n);
    }
  }

  lemma OfferSizes(n: Neg)
    ensures |OfferedStructs(n)| == 4 * |OfferList(n)| <= 20 && |Offer(n)| == |OfferList(n)|
  {
    hide AlgStruct;
  }

  /** Under each kind one selection is offered, or none. */
  lemma OfferedOnce(n: Neg)
    ensures LastOf(Offer(n), ALG_DHE, 0) == (if n.advDhe then SECP384R1 else 0)
    ensures LastOf(Offer(n), ALG_KEM, 0) == (if n.ver >= 0x14 then n.advKem else 0)
    ensures LastOf(Offer(n), ALG_AEAD, 0) == AES_256_GCM && LastOf(Offer(n), ALG_KEY_SCHEDULE, 0) == KEY_SCHEDULE_SPDM
  {
    var cs := Offer(n);
    assert n.advDhe ==> cs[0] == Choice(ALG_DHE, SECP384R1);
    OnceOf(cs, ALG_DHE, if n.advDhe then SECP384R1 else 0);
    assert n.ver >= 0x14 && n.advKem != 0 ==> cs[|cs| - 1] == Choice(ALG_KEM, n.advKem);
    OnceOf(cs, ALG_KEM, if n.ver >= 0x14 then n.advKem else 0);
    assert cs[if n.advDhe then 1 else 0] == Choice(ALG_AEAD, AES_256_GCM);
    OnceOf(cs, ALG_AEAD, AES_256_GCM);
    assert cs[if n.advDhe then 3 else 2] == Choice(ALG_KEY_SCHEDULE, KEY_SCHEDULE_SPDM);
    OnceOf(cs, ALG_KEY_SCHEDULE, KEY_SCHEDULE_SPDM);
  }

  lemma OnceOf(cs: seq<Choice>, kind: byte, v: nat)
    requires forall i :: 0 <= i < |cs| && cs[i].kind == kind ==> cs[i].sel == v
    requires v != 0 ==> exists i :: 0 <= i < |cs| && cs[i].kind == kind
    ensures LastOf(cs, kind, 0) == v
  {
    LastStated(cs, kind, v);
  }

  /** A choice that the request leaves to its receiver: a key exchange (0 for ECDHE) and a signature algorithm (0 for ECDSA). */
  predicate ChoosesFrom(req: bytes, kem: nat, pqc: nat) {
    && |req| >= 32 && OfferOf(req).Some?
    && var offer := OfferOf(req).value;
       && (if kem == 0 then LastOf(offer, ALG_DHE, 0) == SECP384R1 else OneOf(kem, LastOf(offer, ALG_KEM, 0)))
       && (if pqc == 0 then Get32(req, 8) == ECDSA_P384 else OneOf(pqc, Get32(req, 16)))
  }

  /**
   * Negotiation stays within the offer that was sent. Whatever ALGORITHMS says, in whatever order and however often:
   * success means that the header repeats what was asked for, that exactly one key exchange was chosen, ECDHE if it was
   * offered or one single offered ML-KEM set, as the last AlgStructs of their kinds say, with the AEAD and key schedule
   * offered, and exactly one offered signature algorithm, ECDSA or one single ML-DSA set.
   */
  lemma StaysWithinOffer(n: Neg, buf: bytes)
    requires n.Valid()
    ensures
      var (n', rc) := ParseAlgorithms(n, buf);
      && n' == n.(pqcSel := n'.pqcSel, kemSel := n'.kemSel)
      && (rc != Success ==> n' == n || (n'.pqcSel == 0 && n'.kemSel == 0))
      && (rc == Success ==>
            && |buf| >= 36 && ChoicesOf(buf).Some? && BuildRequest(n).Ok?
            && var req, cs := BuildRequest(n).value, ChoicesOf(buf).value;
               && ChoosesFrom(req, n'.kemSel, n'.pqcSel)
               && n'.kemSel == LastOf(cs, ALG_KEM, 0)
               && LastOf(cs, ALG_DHE, 0) == (if n'.kemSel == 0 then SECP384R1 else 0)
               && LastOf(cs, ALG_AEAD, 0) == LastOf(OfferOf(req).value, ALG_AEAD, 0) == AES_256_GCM
               && LastOf(cs, ALG_KEY_SCHEDULE, 0) == LastOf(OfferOf(req).value, ALG_KEY_SCHEDULE, 0) == KEY_SCHEDULE_SPDM
               && (if n'.kemSel == 0 then n.advDhe else n.ver >= 0x14 && OneOf(n'.kemSel, n.advKem))
               && (if n'.pqcSel == 0 then Get32(buf, 12) == ECDSA_P384
                   else n.ver >= 0x14 && OneOf(n'.pqcSel, ALL_SETS) && Get32(buf, 12) == 0)
               && buf[0] == req[0] && buf[1] == 0x63 && Get16(buf, 4) == |buf| && buf[6] <= req[6] && buf[7] == req[7]
               && Get32(buf, 16) == Get32(req, 12))
  {
    hide AndBits, GetLE, Choices, LastOf, AllOffered, LE, AlgStruct, HeaderOk, Offer, BuildRequest;
    AcceptsAnswers(n, buf);
    if Answers(n, buf) {
      LastIsOffered(n, ChoicesOf(buf).value);
      OfferRead(n);
      OfferedOnce(n);
    }
  }

  /** The selection of an AlgStruct that states the choice. */
  function Stated(kem: nat, kind: byte): nat {
    if kind == ALG_DHE then (if kem == 0 then SECP384R1 else 0)
    else if kind == ALG_KEM then kem
    else if kind == ALG_AEAD then AES_256_GCM
    else KEY_SCHEDULE_SPDM
  }

  /** AlgStructs that state one choice: any number, in any order, none contradicting it. */
  predicate States(ss: seq<Struct>, kem: nat) {
    forall i :: 0 <= i < |ss| && (ss[i].kind == ALG_DHE || ss[i].kind == ALG_KEM || ss[i].kind == ALG_AEAD || ss[i].kind == ALG_KEY_SCHEDULE) ==>
      ss[i].sel == Stated(kem, ss[i].kind)
  }

  predicate Has(ss: seq<Struct>, kind: byte) {
    exists i :: 0 <= i < |ss| && ss[i].kind == kind
  }

  lemma {:induction false} LastStated(cs: seq<Choice>, kind: byte, v: nat)
    requires forall i :: 0 <= i < |cs| && cs[i].kind == kind ==> cs[i].sel == v
    ensures LastOf(cs, kind, 0) == if exists i :: 0 <= i < |cs| && cs[i].kind == kind then v else 0
    decreases |cs|
  {
    if cs != [] {
      LastStated(cs[..|cs| - 1], kind, v);
    }
  }

  /** Every single choice that the bytes of the request leave to the responder is accepted and recorded. */
  lemma LegalChoiceAccepted(n: Neg, req: bytes, buf: bytes, ss: seq<Struct>, kem: nat, pqc: nat)
    requires n.Valid() && BuildRequest(n) == Ok(req) && ChoosesFrom(req, kem, pqc)
    requires States(ss, kem) && Responds(n, buf, ss, pqc)
    requires Has(ss, if kem == 0 then ALG_DHE else ALG_KEM) && Has(ss, ALG_AEAD) && Has(ss, ALG_KEY_SCHEDULE)
    ensures ParseAlgorithms(n, buf) == (n.(pqcSel := pqc, kemSel := kem), Success)
  {
    hide Responds, ParseAlgorithms, LastOf, BuildRequest, GetLE, Offer, Choices;
    OfferRead(n);
    OfferedOnce(n);
    assert if kem == 0 then n.advDhe else n.ver >= 0x14 && OneOf(kem, n.advKem);
    assert LegalSignature(n, pqc);
    StatedAccepted(n, buf, ss, kem, pqc);
  }

  lemma StatedAccepted(n: Neg, buf: bytes, ss: seq<Struct>, kem: nat, pqc: nat)
    requires n.Valid() && LegalSignature(n, pqc) && (if kem == 0 then n.advDhe else n.ver >= 0x14 && OneOf(kem, n.advKem))
    requires States(ss, kem) && Responds(n, buf, ss, pqc)
    requires Has(ss, if kem == 0 then ALG_DHE else ALG_KEM) && Has(ss, ALG_AEAD) && Has(ss, ALG_KEY_SCHEDULE)
    ensures ParseAlgorithms(n, buf) == (n.(pqcSel := pqc, kemSel := kem), Success)
  {
    hide Responds, ParseAlgorithms, LastOf;
    var cs := Said(ss);
    LastStated(cs, ALG_DHE, Stated(kem, ALG_DHE));
    LastStated(cs, ALG_KEM, Stated(kem, ALG_KEM));
    LastStated(cs, ALG_AEAD, Stated(kem, ALG_AEAD));
    LastStated(cs, ALG_KEY_SCHEDULE, Stated(kem, ALG_KEY_SCHEDULE));
    HasSaid(ss, if kem == 0 then ALG_DHE else ALG_KEM);
    HasSaid(ss, ALG_AEAD);
    HasSaid(ss, ALG_KEY_SCHEDULE);
    LastStructWins(n, buf, ss, pqc);
  }

  lemma HasSaid(ss: seq<Struct>, kind: byte)
    requires Has(ss, kind)
    ensures exists i :: 0 <= i < |Said(ss)| && Said(ss)[i].kind == kind
  {
    var i :| 0 <= i < |ss| && ss[i].kind == kind;
    assert Said(ss)[i].kind == kind;
  }

  // ----- CAPABILITIES -----

  /** Responder capabilities and limits; all zero until CAPABILITIES says otherwise. */
  datatype Caps = Caps(flags: nat, dts: nat, maxMsg: nat)

  /** wolfSPDM_ParseCapabilities: CERT, ENCRYPT, MAC and KEY_EX, and MinDataTransferSize. */
  function ParseCapabilities(ver: byte, c: Caps, buf: bytes): (Caps, Rc) {
    if |buf| < 4 then (c, InvalidArg)
    else if buf[1] != CAPABILITIES_RSP then (c, if buf[1] == SPDM_ERROR then PeerError else CapsMismatch)
    else if |buf| < 20 || buf[0] != ver then (c, CapsMismatch)
    else
      var flags, dts, max := Get32(buf, 8), Get32(buf, 12), Get32(buf, 16);
      if !Bit(flags, 1) || !Bit(flags, 6) || !Bit(flags, 7) || !Bit(flags, 9) || dts < 42 || max < dts then (c, CapsMismatch)
      else (Caps(flags, dts, max), Success)
  }

  /** Accepted exactly with certificates, encryption, MAC and key exchange, a DataTransferSize of at least 42, and no larger one. */
  lemma CapabilitiesAccepted(ver: byte, c: Caps, buf: bytes)
    ensures
      var (c', rc) := ParseCapabilities(ver, c, buf);
      && (rc == Success <==>
            && |buf| >= 20 && buf[0] == ver && buf[1] == 0x61 && 42 <= Get32(buf, 12) <= Get32(buf, 16)
            && Bit(Get32(buf, 8), 1) && Bit(Get32(buf, 8), 6) && Bit(Get32(buf, 8), 7) && Bit(Get32(buf, 8), 9))
      && c' == (if rc == Success then Caps(Get32(buf, 8), Get32(buf, 12), Get32(buf, 16)) else c)
      && (rc == PeerError <==> |buf| >= 4 && buf[1] == 0x7F)
  {
    hide Bit, GetLE;
  }

  /** CAPABILITIES replies and session resets: what can happen to the limits. */
  datatype LimitEvent = Reset | Reply(ver: byte, buf: bytes)

  function Limits(c: Caps, evs: seq<LimitEvent>): Caps
    decreases |evs|
  {
    if evs == [] then c
    else Limits(match evs[0] case Reset => Caps(0, 0, 0) case Reply(ver, buf) => ParseCapabilities(ver, c, buf).0, evs[1..])
  }

  /** Whatever arrives, the DataTransferSize the chunk engine works with is 0 or at least 42, and never above the maximum. */
  lemma {:induction false} LimitsValid(ver: byte, c: Caps, evs: seq<LimitEvent>)
    requires Chunks.Params(ver, c.dts, c.maxMsg).Valid() && c.dts <= c.maxMsg
    ensures
      var c' := Limits(c, evs);
      Chunks.Params(ver, c'.dts, c'.maxMsg).Valid() && c'.dts <= c'.maxMsg
    decreases |evs|
  {
    if evs != [] {
      var c1 := match evs[0] case Reset => Caps(0, 0, 0) case Reply(v, buf) => ParseCapabilities(v, c, buf).0;
      LimitsValid(ver, c1, evs[1..]);
    }
  }

  // ----- The object -----

  class Negotiator {
    var ver: byte
    var advDhe: bool
    var advKem: nat
    var pqcSel: nat
    var kemSel: nat
    var caps: Caps

    function Snap(): Neg
      reads this
    {
      Neg(ver, advDhe, advKem, pqcSel, kemSel)
    }

    constructor (ver: byte)
      ensures Snap() == Neg(ver, true, ALL_SETS, 0, 0) && Snap().Valid() && caps == Caps(0, 0, 0)
    {
      this.ver, advDhe, advKem, pqcSel, kemSel, caps := ver, true, ALL_SETS, 0, 0, Caps(0, 0, 0);
    }

    /** wolfSPDM_SetKeyExchangePref. */
    method SetKeyExchangePref(dhe: bool, kemMask: nat) returns (rc: Rc)
      modifies this`advDhe, this`advKem
      ensures rc == (if (!dhe && kemMask == 0) || kemMask > ALL_SETS then InvalidArg else Success)
      ensures rc == Success ==> Snap() == old(Snap()).(advDhe := dhe, advKem := kemMask) && Snap().Valid()
      ensures rc != Success ==> Snap() == old(Snap())
    {
      if !dhe && kemMask == 0 {
        return InvalidArg;
      }
      if kemMask > ALL_SETS {
        return InvalidArg;
      }
      advDhe := dhe;
      advKem := kemMask;
      rc := Success;
    }

    method ParseCapabilitiesReply(buf: bytes) returns (rc: Rc)
      modifies this`caps
      ensures (caps, rc) == ParseCapabilities(ver, old(caps), buf)
    {
      if |buf| < 4 {
        return InvalidArg;
      }
      if buf[1] != CAPABILITIES_RSP {
        return if buf[1] == SPDM_ERROR then PeerError else CapsMismatch;
      }
      if |buf| < 20 || buf[0] != ver {
        return CapsMismatch;
      }
      var flags := Get32(buf, 8);
      var dts := Get32(buf, 12);
      var max := Get32(buf, 16);
      if !(Bit(flags, 1) && Bit(flags, 6) && Bit(flags, 7) && Bit(flags, 9)) || dts < 42 || max < dts {
        return CapsMismatch;
      }
      caps := Caps(flags, dts, max);
      rc := Success;
    }

    /** NEGOTIATE_ALGORITHMS, struct by struct. */
    method BuildNegotiateAlgorithms() returns (r: Result<bytes>)
      ensures r == BuildRequest(Snap())
    {
      hide AlgStruct, LE;
      var offersKem := ver >= 0x14 && advKem != 0;
      if !advDhe && !offersKem {
        return Err(AlgoMismatch);
      }
      var s: bytes := [];
      if advDhe {
        s := s + AlgStruct(ALG_DHE, SECP384R1);
      }
      s := s + AlgStruct(ALG_AEAD, AES_256_GCM);
      s := s + AlgStruct(ALG_REQ_BASE_ASYM, ECDSA_P384);
      s := s + AlgStruct(ALG_KEY_SCHEDULE, KEY_SCHEDULE_SPDM);
      if offersKem {
        s := s + AlgStruct(ALG_KEM, advKem);
      }
      assert s == OfferedStructs(Snap());
      var msg := [ver, NEGOTIATE_ALGORITHMS, (|s| / 4) as byte, 0] + LE(32 + |s|, 2) + [1, 2] + LE(ECDSA_P384, 4) + LE(SHA_384, 4);
      msg := msg + LE(if ver >= 0x14 then ALL_SETS else 0, 4) + Zeros(12);
      r := Ok(msg + s);
    }

    method ParseAlgorithmsReply(buf: bytes) returns (rc: Rc)
      modifies this`pqcSel, this`kemSel
      ensures (Snap(), rc) == ParseAlgorithms(old(Snap()), buf)
    {
      hide KemAllowed, GetLE;
      if |buf| < 4 {
        return InvalidArg;
      }
      if buf[1] != ALGORITHMS_RSP {
        return if buf[1] == SPDM_ERROR then PeerError else AlgoMismatch;
      }
      if |buf| < 36 || buf[0] != ver || Get16(buf, 4) != |buf| {
        return AlgoMismatch;
      }
      if buf[6] > 1 || buf[7] != 2 {
        return AlgoMismatch;
      }
      if Get32(buf, 16) != SHA_384 {
        return AlgoMismatch;
      }
      ghost var n := Snap();
      pqcSel := 0;
      kemSel := 0;
      var base := Get32(buf, 12);
      var pqc := if ver >= 0x14 then Get32(buf, 20) else 0;
      if pqc != 0 {
        if base != 0 || MlDsaLevel(pqc) == 0 {
          return AlgoMismatch;
        }
      } else if base != ECDSA_P384 {
        return AlgoMismatch;
      }
      var p := WalkStructs(buf, n);
      if p == None || !(p.value.dhe != (p.value.kem != 0)) || !p.value.aead || !p.value.schedule {
        return AlgoMismatch;
      }
      pqcSel := pqc;
      kemSel := p.value.kem;
      rc := Success;
    }

    /** The loop over the AlgStructs. */
    method WalkStructs(buf: bytes, ghost n: Neg) returns (r: Option<Picked>)
      requires |buf| >= 36 && n == Snap().(pqcSel := n.pqcSel, kemSel := n.kemSel)
      ensures r == PickAll(n, buf, FirstStruct(buf), buf[2] as nat, NOTHING)
    {
      hide AndBits, GetLE;
      var p := NOTHING;
      var off: nat := 36 + 4 * buf[32] as nat + 4 * buf[33] as nat;
      var count: nat := buf[2] as nat;
      for i := 0 to count
        invariant PickAll(n, buf, off, count - i, p) == PickAll(n, buf, FirstStruct(buf), count, NOTHING)
      {
        if off > |buf| || |buf| - off < 4 {
          return None;
        }
        var sel := Get16(buf, off + 2);
        if buf[off] == ALG_DHE {
          var ok := sel == SECP384R1;
          if (sel != 0 && !ok) || (ok && !advDhe) {
            return None;
          }
          p := p.(dhe := ok);
        } else if buf[off] == ALG_KEM {
          if sel != 0 && !KemAllowed(Snap(), sel) {
            return None;
          }
          p := p.(kem := sel);
        } else if buf[off] == ALG_AEAD {
          p := p.(aead := sel == AES_256_GCM);
        } else if buf[off] == ALG_KEY_SCHEDULE {
          p := p.(schedule := sel == KEY_SCHEDULE_SPDM);
        }
        off := off + 4 + 4 * (buf[off + 1] % 16) as nat;
      }
      r := Some(p);
    }
  }
}
