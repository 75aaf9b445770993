/** Byte strings, the fixed-width integer encodings of spdm_internal.h and the IV construction. */
module Bytes {

  newtype byte = x: int | 0 <= x < 256

  type bytes = seq<byte>

  datatype Option<+T> = None | Some(value: T)

  const TWO64: nat := 0x1_0000_0000_0000_0000

  function Pow256(n: nat): (p: nat)
    ensures p > 0
  {
    if n == 0 then 1 else 256 * Pow256(n - 1)
  }

  /** The n low-order bytes of v, least significant first. */
  function LE(v: nat, n: nat): (s: bytes)
    ensures |s| == n
  {
    if n == 0 then [] else [(v % 256) as byte] + LE(v / 256, n - 1)
  }

  function FromLE(s: bytes): nat {
    if s == [] then 0 else s[0] as nat + 256 * FromLE(s[1..])
  }

  /** The n low-order bytes of v, most significant first (TCG binding header fields). */
  function BE(v: nat, n: nat): (s: bytes)
    ensures |s| == n
  {
    if n == 0 then [] else BE(v / 256, n - 1) + [(v % 256) as byte]
  }

  function FromBE(s: bytes): nat {
    if s == [] then 0 else 256 * FromBE(s[..|s| - 1]) + s[|s| - 1] as nat
  }

  lemma {:induction false} LERoundTrip(v: nat, n: nat)
    requires v < Pow256(n)
    ensures FromLE(LE(v, n)) == v
  {
    if n > 0 {
      LERoundTrip(v / 256, n - 1);
      assert LE(v, n)[1..] == LE(v / 256, n - 1);
    }
  }

  lemma {:induction false} BERoundTrip(v: nat, n: nat)
    requires v < Pow256(n)
    ensures FromBE(BE(v, n)) == v
  {
    if n > 0 {
      BERoundTrip(v / 256, n - 1);
      assert BE(v, n)[..n - 1] == BE(v / 256, n - 1);
    }
  }

  lemma {:induction false} FromLEBound(s: bytes)
    ensures FromLE(s) < Pow256(|s|)
  {
    if s != [] {
      FromLEBound(s[1..]);
    }
  }

  lemma {:induction false} FromBEBound(s: bytes)
    ensures FromBE(s) < Pow256(|s|)
  {
    if s != [] {
      FromBEBound(s[..|s| - 1]);
    }
  }

  /** Every n-byte string is the encoding of the number it stands for. */
  lemma {:induction false} BEInverse(s: bytes)
    ensures BE(FromBE(s), |s|) == s
  {
    if s != [] {
      BEInverse(s[..|s| - 1]);
      assert s == s[..|s| - 1] + [s[|s| - 1]];
    }
  }

  lemma {:induction false} FromLEInjective(s: bytes, t: bytes)
    requires |s| == |t| && FromLE(s) == FromLE(t)
    ensures s == t
  {
    if s != [] {
      FromLEInjective(s[1..], t[1..]);
      assert s == [s[0]] + s[1..] && t == [t[0]] + t[1..];
    }
  }

  lemma Pow256Values()
    ensures Pow256(1) == 0x100 && Pow256(2) == 0x1_0000 && Pow256(4) == 0x1_0000_0000 && Pow256(8) == TWO64
  {
    assert Pow256(3) == 0x100_0000;
    assert Pow256(4) == 0x1_0000_0000;
    assert Pow256(5) == 0x100_0000_0000;
    assert Pow256(6) == 0x1_0000_0000_0000;
    assert Pow256(7) == 0x100_0000_0000_0000;
  }

  /** The n-byte little-endian field at offset off (SPDM_Get16LE, 32LE, 64LE). */
  function GetLE(buf: bytes, off: nat, n: nat): nat
    requires off + n <= |buf|
  {
    FromLE(buf[off..off + n])
  }

  function Get16(buf: bytes, off: nat): (v: nat)
    requires off + 2 <= |buf|
    ensures v < 0x1_0000
  {
    FromLEBound(buf[off..off + 2]);
    Pow256Values();
    GetLE(buf, off, 2)
  }

  function Get32(buf: bytes, off: nat): (v: nat)
    requires off + 4 <= |buf|
    ensures v < 0x1_0000_0000
  {
    FromLEBound(buf[off..off + 4]);
    Pow256Values();
    GetLE(buf, off, 4)
  }

  function Get64(buf: bytes, off: nat): (v: nat)
    requires off + 8 <= |buf|
    ensures v < TWO64
  {
    FromLEBound(buf[off..off + 8]);
    Pow256Values();
    GetLE(buf, off, 8)
  }

  /** A field written in the middle of a message is read back from there. */
  lemma FieldReadBack(pre: bytes, v: nat, n: nat, post: bytes)
    requires v < Pow256(n)
    ensures GetLE(pre + LE(v, n) + post, |pre|, n) == v
  {
    var buf := pre + LE(v, n) + post;
    assert buf[|pre|..|pre| + n] == LE(v, n);
    LERoundTrip(v, n);
  }

  /** Bytes that are the encoding of a number read as that number. */
  lemma SliceReads(buf: bytes, off: nat, v: nat, n: nat)
    requires off + n <= |buf| && v < Pow256(n) && buf[off..off + n] == LE(v, n)
    ensures GetLE(buf, off, n) == v
  {
    LERoundTrip(v, n);
  }

  function Zeros(n: nat): (s: bytes)
    ensures |s| == n && forall i :: 0 <= i < n ==> s[i] == 0
  {
    seq(n, i => 0)
  }

  function Fill(b: byte, n: nat): (s: bytes)
    ensures |s| == n && forall i :: 0 <= i < n ==> s[i] == b
  {
    seq(n, i => b)
  }

  /** The characters of an ASCII label as bytes. */
  function Ascii(s: string): (r: bytes)
    ensures |r| == |s|
  {
    seq(|s|, i requires 0 <= i < |s| => (s[i] as int % 256) as byte)
  }

  // ----- Exclusive or and the IV of a record -----

  function Pow2(n: nat): (p: nat)
    ensures p > 0
  {
    if n == 0 then 1 else 2 * Pow2(n - 1)
  }

  /** The k-th bit of v. */
  predicate Bit(v: nat, k: nat) {
    v / Pow2(k) % 2 == 1
  }

  /** Bitwise exclusive or of the n low bits. */
  function XorBits(a: nat, b: nat, n: nat): (x: nat)
    ensures x < Pow2(n)
  {
    if n == 0 then 0 else (if a % 2 == b % 2 then 0 else 1) + 2 * XorBits(a / 2, b / 2, n - 1)
  }

  /** Bitwise and of the n low bits. */
  function AndBits(a: nat, b: nat, n: nat): (x: nat)
    ensures x <= a && x <= b
  {
    if n == 0 then 0 else (if a % 2 == 1 && b % 2 == 1 then 1 else 0) + 2 * AndBits(a / 2, b / 2, n - 1)
  }

  lemma {:induction false} XorBitsInjective(a: nat, b: nat, c: nat, n: nat)
    requires b < Pow2(n) && c < Pow2(n)
    requires XorBits(a, b, n) == XorBits(a, c, n)
    ensures b == c
  {
    if n > 0 {
      var x, y := XorBits(a / 2, b / 2, n - 1), XorBits(a / 2, c / 2, n - 1);
      assert (if a % 2 == b % 2 then 0 else 1) + 2 * x == (if a % 2 == c % 2 then 0 else 1) + 2 * y;
      assert x == y && b % 2 == c % 2;
      XorBitsInjective(a / 2, b / 2, c / 2, n - 1);
    }
  }

  lemma Pow2Of8()
    ensures Pow2(8) == 256
  {
    assert Pow2(4) == 16;
  }

  function Xor(a: byte, b: byte): byte {
    Pow2Of8();
    XorBits(a as nat, b as nat, 8) as byte
  }

  lemma XorInjective(a: byte, b: byte, c: byte)
    requires Xor(a, b) == Xor(a, c)
    ensures b == c
  {
    Pow2Of8();
    XorBitsInjective(a as nat, b as nat, c as nat, 8);
  }

  const IV_SIZE: nat := 12

  /** DSP0277: the base IV with its leftmost eight bytes xored with the record's sequence number. */
  function RecordIV(base: bytes, num: nat): (iv: bytes)
    requires |base| == IV_SIZE
    ensures |iv| == IV_SIZE
  {
    var s := LE(num, 8);
    seq(IV_SIZE, i requires 0 <= i < IV_SIZE => if i < 8 then Xor(base[i], s[i]) else base[i])
  }

  method BuildIV(base: bytes, num: nat) returns (iv: array<byte>)
    requires |base| == IV_SIZE
    ensures fresh(iv) && iv[..] == RecordIV(base, num)
  {
    iv := new byte[IV_SIZE](i requires 0 <= i < IV_SIZE => base[i]);
    var s := LE(num, 8);
    for i := 0 to 8
      invariant forall k :: 0 <= k < i ==> iv[k] == Xor(base[k], s[k])
      invariant forall k :: i <= k < IV_SIZE ==> iv[k] == base[k]
    {
      iv[i] := Xor(iv[i], s[i]);
    }
  }

  /** Under one base IV, two sequence numbers never share an IV. */
  lemma RecordIVInjective(base: bytes, m: nat, n: nat)
    requires |base| == IV_SIZE
    requires m < TWO64 && n < TWO64
    requires RecordIV(base, m) == RecordIV(base, n)
    ensures m == n
  {
    var s, t := LE(m, 8), LE(n, 8);
    forall i | 0 <= i < 8
      ensures s[i] == t[i]
    {
      assert RecordIV(base, m)[i] == Xor(base[i], s[i]);
      assert RecordIV(base, n)[i] == Xor(base[i], t[i]);
      XorInjective(base[i], s[i], t[i]);
    }
    assert s == t;
    Pow256Values();
    LERoundTrip(m, 8);
    LERoundTrip(n, 8);
  }
  // ----- Byte by byte, bit by bit -----

  lemma {:induction false} LEByte(v: nat, n: nat, i: nat)
    requires i < n
    ensures LE(v, n)[i] == (v / Pow256(i) % 256) as byte
  {
    if i > 0 {
      LEByte(v / 256, n - 1, i - 1);
      DivideTwice(v, Pow256(i - 1));
    }
  }

  lemma DivideTwice(v: nat, p: nat)
    requires p > 0
    ensures v / 256 / p == v / (256 * p)
  {
    var q := v / 256 / p;
    var r := v / 256 - p * q;
    assert 0 <= r < p;
    var s := v - 256 * (v / 256);
    assert v == (256 * p) * q + (256 * r + s) && 0 <= 256 * r + s < 256 * p;
    QuotientIs(v, 256 * p, q, 256 * r + s);
  }

  lemma QuotientIs(v: nat, d: nat, q: nat, r: nat)
    requires d > 0 && v == d * q + r && r < d
    ensures v / d == q
  {
    var k: int, m: int, x: int := v / d, v % d, v / d - q;
    assert d * x == d * k - d * q == r - m;
    NoMultiple(d, x);
  }

  /** A multiple of d that is nearer to 0 than d is 0. */
  lemma NoMultiple(d: int, x: int)
    requires -d < d * x < d
    ensures x == 0
  {
  }

  /** Most significant first: the same bytes in the other order. */
  lemma {:induction false} BEByte(v: nat, n: nat, i: nat)
    requires i < n
    ensures BE(v, n)[n - 1 - i] == LE(v, n)[i]
  {
    if i > 0 {
      BEByte(v / 256, n - 1, i - 1);
    }
  }

  /** A bit of the exclusive or is set exactly when it is set in one of the two. */
  lemma {:induction false} XorBit(a: nat, b: nat, n: nat, k: nat)
    requires k < n
    ensures Bit(XorBits(a, b, n), k) <==> Bit(a, k) != Bit(b, k)
  {
    var x := XorBits(a / 2, b / 2, n - 1);
    var d := if a % 2 == b % 2 then 0 else 1;
    assert XorBits(a, b, n) == d + 2 * x;
    assert (d + 2 * x) / 2 == x && (d + 2 * x) % 2 == d;
    if k == 0 {
      assert Pow2(0) == 1;
    } else {
      XorBit(a / 2, b / 2, n - 1, k - 1);
      HalfBit(a, k);
      HalfBit(b, k);
      HalfBit(d + 2 * x, k);
    }
  }

  lemma HalfBit(v: nat, k: nat)
    requires k > 0
    ensures Bit(v, k) == Bit(v / 2, k - 1)
  {
    var p := Pow2(k - 1);
    var q := v / 2 / p;
    var r := v / 2 - p * q;
    assert 0 <= r < p;
    var s := v - 2 * (v / 2);
    assert v == (2 * p) * q + (2 * r + s) && 2 * r + s < 2 * p;
    QuotientIs(v, 2 * p, q, 2 * r + s);
  }

  /** DSP0277: byte i of the number, counted from the least significant, goes into byte i of the IV; the last four stay. */
  lemma RecordIVBytes(base: bytes, num: nat, i: nat)
    requires |base| == IV_SIZE && i < IV_SIZE
    ensures RecordIV(base, num)[i] == if i < 8 then Xor(base[i], (num / Pow256(i) % 256) as byte) else base[i]
  {
    hide LE, Xor;
    if i < 8 {
      LEByte(num, 8, i);
    }
  }
}
