/** The 24-bit checksum of armored packets, and that it sees every change of a single byte. */
module Crc24 {
  import opened Common

  type byte = b: nat | b < 256

  function Snoc(x: bv32, bit: bool): bv32 { (x << 1) | (if bit then 1 else 0) }

  function Half(x: bv32): bv32 { x >> 1 }

  predicate Odd(x: bv32) { x & 1 == 1 }

  function Xor(x: bv32, y: bv32): bv32 { x ^ y }

  /** A byte in the top of the 24 bits. */
  function High(x: bv32): bv32 { x << 16 }

  /** The low k bits of n. */
  function ToBits(n: nat, k: nat): bv32 {
    if k == 0 then 0 else Snoc(ToBits(n / 2, k - 1), n % 2 == 1)
  }

  /** The low k bits of x as a number. */
  function FromBits(x: bv32, k: nat): nat {
    if k == 0 then 0 else 2 * FromBits(Half(x), k - 1) + if Odd(x) then 1 else 0
  }

  /** One bit of the division by the generator 0x1864cfb. */
  function Shift(crc: bv32): bv32 {
    if Double(crc) & 0x1000000 != 0 then Subtract(Double(crc)) else Double(crc)
  }

  function Double(crc: bv32): bv32 { crc << 1 }

  function Subtract(crc: bv32): bv32 { crc ^ 0x1864cfb }

  function Shifts(crc: bv32, n: nat): bv32 {
    if n == 0 then crc else Shift(Shifts(crc, n - 1))
  }

  function AddByte(crc: bv32, b: byte): bv32 {
    Shifts(Xor(crc, High(ToBits(b, 8))), 8)
  }

  function Crc(pkt: seq<byte>): bv32 {
    if pkt == [] then 0xb704ce else AddByte(Crc(pkt[..|pkt| - 1]), pkt[|pkt| - 1])
  }

  /** The checksum as a number. */
  function Checksum(pkt: seq<byte>): nat {
    FromBits(Crc(pkt) & 0xffffff, 24)
  }

  lemma EightShifts()
    ensures Shifts(0x8604ce, 8) == 0x2eba48
  {
    assert Shifts(0x8604ce, 2) == 0x92c635 by { assert Shifts(0x8604ce, 1) == 0x8a4567; }
    assert Shifts(0x8604ce, 4) == 0xc1cdd9 by { assert Shifts(0x8604ce, 3) == 0xa3c091; }
    assert Shifts(0x8604ce, 6) == 0xbae92 by { assert Shifts(0x8604ce, 5) == 0x5d749; }
    assert Shifts(0x8604ce, 7) == 0x175d24;
  }

  lemma BitsOf31()
    ensures ToBits(0x31, 8) == 0x31
  {
    assert ToBits(0, 2) == 0 by { assert ToBits(0, 1) == 0; }
    assert ToBits(3, 4) == 3 by { assert ToBits(1, 3) == 1; }
    assert ToBits(12, 6) == 12 by { assert ToBits(6, 5) == 6; }
    assert ToBits(24, 7) == 24;
  }

  lemma {:induction false} NoBits(k: nat)
    ensures FromBits(0, k) == 0
  {
    if k > 0 { NoBits(k - 1); }
  }

  lemma SixFromBits()
    ensures FromBits(6, 24) == 6
  {
    hide FromBits;
    NoBits(21);
    FromStep(1, 22);
    FromStep(3, 23);
    FromStep(6, 24);
  }

  lemma FromStep(x: bv32, k: nat)
    requires k > 0
    ensures FromBits(x, k) == 2 * FromBits(x >> 1, k - 1) + if x & 1 == 1 then 1 else 0
  {
  }

  /** The start value of section 6.1 of RFC 4880, and its checksum of the single byte 0x31. */
  lemma ReferenceValues()
    ensures Crc([]) == 0xb704ce && Crc([0x31]) == 0x2eba48 && FromBits(6, 24) == 6
  {
    hide Shifts, ToBits;
    assert [0x31][..0] == [];
    BitsOf31();
    EightShifts();
    SixFromBits();
    assert Xor(0xb704ce, High(0x31)) == 0x8604ce;
  }

  method ComputeCrc(pkt: seq<byte>) returns (v: nat)
    ensures v == Checksum(pkt)
  {
    hide AddByte, FromBits;
    var crc: bv32 := 0xb704ce;
    for i := 0 to |pkt|
      invariant crc == Crc(pkt[..i])
    {
      assert pkt[..i + 1][..i] == pkt[..i];
      crc := DivideByte(crc, pkt[i]);
    }
    assert pkt[..|pkt|] == pkt;
    return FromBits(crc & 0xffffff, 24);
  }

  method DivideByte(crc0: bv32, b: byte) returns (crc: bv32)
    ensures crc == AddByte(crc0, b)
  {
    hide Double, Subtract, ToBits, Xor, High;
    crc := Xor(crc0, High(ToBits(b, 8)));
    ghost var start := crc;
    for j := 0 to 8
      invariant crc == Shifts(start, j)
    {
      crc := Double(crc);
      if crc & 0x1000000 != 0 {
        crc := Subtract(crc);
      }
    }
  }

  // ----- no two values collide in one step -----

  predicate In24(x: bv32) { x & 0xff000000 == 0 }

  /** The generator is odd, so the low bit tells whether it was subtracted. */
  function Unshift(z: bv32): bv32 {
    if Odd(z) then Half(Subtract(z)) else Half(z)
  }

  lemma DoubleHalf(x: bv32)
    requires In24(x)
    ensures Half(Double(x)) == x && !Odd(Double(x))
  {
  }

  lemma SubtractTwice(y: bv32)
    ensures Subtract(Subtract(y)) == y && (!Odd(y) ==> Odd(Subtract(y)))
  {
  }

  lemma StaysIn24(x: bv32)
    requires In24(x)
    ensures In24(Shift(x))
  {
  }

  lemma ShiftBack(x: bv32)
    requires In24(x)
    ensures Unshift(Shift(x)) == x
  {
    hide In24, Double, Subtract, Half, Odd;
    DoubleHalf(x);
    SubtractTwice(Double(x));
  }

  lemma ShiftOne(x: bv32, y: bv32)
    requires In24(x) && In24(y)
    ensures In24(Shift(x)) && (Shift(x) == Shift(y) ==> x == y)
  {
    hide In24, Shift, Unshift;
    StaysIn24(x);
    ShiftBack(x);
    ShiftBack(y);
  }

  lemma {:induction false} ShiftsInjective(x: bv32, y: bv32, n: nat)
    requires In24(x) && In24(y)
    ensures In24(Shifts(x, n)) && In24(Shifts(y, n)) && (Shifts(x, n) == Shifts(y, n) ==> x == y)
  {
    hide Shift, In24;
    if n > 0 {
      ShiftsInjective(x, y, n - 1);
      ShiftOne(Shifts(x, n - 1), Shifts(y, n - 1));
      ShiftOne(Shifts(y, n - 1), Shifts(x, n - 1));
    }
  }

  /** All but the low k bits. */
  function Mask(k: nat): bv32 {
    if k == 0 then 0xffffffff else Mask(k - 1) << 1
  }

  lemma Masks()
    ensures Mask(8) == 0xffffff00 && Mask(24) == 0xff000000
    ensures forall k: nat :: k <= 8 ==> Top(Mask(k))
  {
    assert Mask(0) == 0xffffffff;
    assert Mask(1) == 0xfffffffe;
    assert Mask(2) == 0xfffffffc;
    assert Mask(3) == 0xfffffff8;
    assert Mask(4) == 0xfffffff0;
    assert Mask(5) == 0xffffffe0;
    assert Mask(6) == 0xffffffc0;
    assert Mask(7) == 0xffffff80;
    assert Mask(8) == 0xffffff00;
    assert Mask(9) == 0xfffffe00;
    assert Mask(10) == 0xfffffc00;
    assert Mask(11) == 0xfffff800;
    assert Mask(12) == 0xfffff000;
    assert Mask(13) == 0xffffe000;
    assert Mask(14) == 0xffffc000;
    assert Mask(15) == 0xffff8000;
    assert Mask(16) == 0xffff0000;
    assert Mask(17) == 0xfffe0000;
    assert Mask(18) == 0xfffc0000;
    assert Mask(19) == 0xfff80000;
    assert Mask(20) == 0xfff00000;
    assert Mask(21) == 0xffe00000;
    assert Mask(22) == 0xffc00000;
    assert Mask(23) == 0xff800000;
    assert Mask(24) == 0xff000000;
    forall k: nat | k <= 8 ensures Top(Mask(k)) {
      assert k == 0 || k == 1 || k == 2 || k == 3 || k == 4 || k == 5 || k == 6 || k == 7 || k == 8;
    }
  }

  predicate Clear(x: bv32, m: bv32) { x & m == 0 }

  predicate Top(m: bv32) { m & 0x80000000 != 0 }

  lemma BitMask(x: bv32, m: bv32, bit: bool)
    requires Clear(x, m)
    ensures Clear(Snoc(x, bit), m << 1)
  {
  }

  lemma SnocInjective(x: bv32, y: bv32, m: bv32, a: bool, b: bool)
    requires Clear(x, m) && Clear(y, m) && Top(m) && Snoc(x, a) == Snoc(y, b)
    ensures x == y && a == b
  {
    assert !Top(x) && !Top(y);
  }

  lemma {:induction false} ToBitsLow(n: nat, k: nat)
    ensures Clear(ToBits(n, k), Mask(k))
  {
    hide Clear, Snoc;
    if k > 0 {
      ToBitsLow(n / 2, k - 1);
      BitMask(ToBits(n / 2, k - 1), Mask(k - 1), n % 2 == 1);
    } else {
      Zero();
    }
  }

  lemma Zero()
    ensures Clear(0, 0xffffffff)
  {
  }

  lemma {:induction false} ToBitsInjective(m: nat, n: nat, k: nat)
    requires k <= 8 && m < Pow2(k) && n < Pow2(k) && ToBits(m, k) == ToBits(n, k)
    ensures m == n
  {
    hide Clear, Snoc, Mask, Top;
    if k > 0 {
      Masks();
      ToBitsLow(m / 2, k - 1);
      ToBitsLow(n / 2, k - 1);
      SnocInjective(ToBits(m / 2, k - 1), ToBits(n / 2, k - 1), Mask(k - 1), m % 2 == 1, n % 2 == 1);
      ToBitsInjective(m / 2, n / 2, k - 1);
    }
  }

  lemma HalfMask(x: bv32, m: bv32)
    requires Clear(x, m << 1)
    ensures Clear(Half(x), m)
  {
  }

  lemma SameBits(x: bv32, y: bv32)
    requires Half(x) == Half(y) && (Odd(x) <==> Odd(y))
    ensures x == y
  {
  }

  lemma HalfClear(x: bv32, k: nat)
    requires k > 0 && Clear(x, Mask(k))
    ensures Clear(Half(x), Mask(k - 1))
  {
    hide Clear, Half;
    HalfMask(x, Mask(k - 1));
  }

  lemma {:induction false} FromBitsInjective(x: bv32, y: bv32, k: nat)
    requires Clear(x, Mask(k)) && Clear(y, Mask(k)) && FromBits(x, k) == FromBits(y, k)
    ensures x == y
    decreases k
  {
    hide Clear, Half, Odd, Mask;
    if k == 0 {
      All(x);
      All(y);
    } else {
      HalfClear(x, k);
      HalfClear(y, k);
      FromBitsInjective(Half(x), Half(y), k - 1);
      SameBits(x, y);
    }
  }

  lemma All(x: bv32)
    requires Clear(x, Mask(0))
    ensures x == 0
  {
  }

  lemma {:induction false} FromBitsBound(x: bv32, k: nat)
    ensures FromBits(x, k) < Pow2(k)
    decreases k
  {
    hide Half, Odd;
    if k > 0 { FromBitsBound(Half(x), k - 1); }
  }

  // ----- bytes -----

  lemma XorByte(crc: bv32, x: bv32)
    requires In24(crc) && Clear(x, 0xffffff00)
    ensures In24(Xor(crc, High(x)))
  {
  }

  lemma XorCancel(crc: bv32, x: bv32, y: bv32)
    requires Clear(x, 0xffffff00) && Clear(y, 0xffffff00) && Xor(crc, High(x)) == Xor(crc, High(y))
    ensures x == y
  {
  }

  lemma XorSame(c: bv32, d: bv32, x: bv32)
    requires Xor(c, x) == Xor(d, x)
    ensures c == d
  {
  }

  lemma ByteIn24(crc: bv32, b: byte)
    requires In24(crc)
    ensures In24(AddByte(crc, b)) && In24(Xor(crc, High(ToBits(b, 8)))) && Clear(ToBits(b, 8), 0xffffff00)
  {
    hide In24, ToBits, Mask, Shifts, Xor, High, Clear, Top;
    Masks();
    ToBitsLow(b, 8);
    XorByte(crc, ToBits(b, 8));
    ShiftsInjective(Xor(crc, High(ToBits(b, 8))), Xor(crc, High(ToBits(b, 8))), 8);
  }

  lemma {:induction false} CrcIn24(pkt: seq<byte>)
    ensures In24(Crc(pkt))
  {
    if pkt == [] {
      assert In24(0xb704ce);
    } else {
      CrcIn24(pkt[..|pkt| - 1]);
      ByteIn24(Crc(pkt[..|pkt| - 1]), pkt[|pkt| - 1]);
    }
  }

  /** Different bytes after the same ones, or the same byte after different checksums, give different checksums. */
  lemma AddByteInjective(c: bv32, d: bv32, a: byte, b: byte)
    requires In24(c) && In24(d) && (c == d || a == b) && AddByte(c, a) == AddByte(d, b)
    ensures c == d && a == b
  {
    hide In24, ToBits, Shifts, Pow2, Xor, High, Clear;
    ByteIn24(c, a);
    ByteIn24(d, b);
    ShiftsInjective(Xor(c, High(ToBits(a, 8))), Xor(d, High(ToBits(b, 8))), 8);
    if a == b {
      XorSame(c, d, High(ToBits(a, 8)));
    } else {
      XorCancel(c, ToBits(a, 8), ToBits(b, 8));
      Power8();
      ToBitsInjective(a, b, 8);
    }
  }

  lemma Power8()
    ensures Pow2(8) == 256 && Pow2(24) == 0x1000000
  {
    assert Pow2(4) == 16 && Pow2(8) == 256;
    assert Pow2(12) == 4096 && Pow2(16) == 65536 && Pow2(20) == 1048576;
  }

  lemma {:induction false} CrcDiffers(p: seq<byte>, i: nat, b: byte)
    requires i < |p| && p[i] != b
    ensures Crc(p) != Crc(p[i := b])
  {
    hide AddByte;
    var q := p[i := b];
    var n := |p| - 1;
    CrcIn24(p[..n]);
    CrcIn24(q[..n]);
    if i == n {
      assert q[..n] == p[..n];
    } else {
      assert q[..n] == p[..n][i := b];
      CrcDiffers(p[..n], i, b);
    }
    if Crc(p) == Crc(q) { AddByteInjective(Crc(p[..n]), Crc(q[..n]), p[n], q[n]); }
  }

  lemma Low24(x: bv32)
    requires In24(x)
    ensures x & 0xffffff == x && Clear(x, 0xff000000)
  {
  }

  /** A packet with one byte changed has another checksum. */
  lemma OneByteDetected(p: seq<byte>, i: nat, b: byte)
    requires i < |p| && p[i] != b
    ensures Checksum(p) != Checksum(p[i := b])
  {
    hide Crc, In24, FromBits, Mask, Clear, Top;
    CrcDiffers(p, i, b);
    CrcIn24(p);
    CrcIn24(p[i := b]);
    Low24(Crc(p));
    Low24(Crc(p[i := b]));
    Masks();
    if Checksum(p) == Checksum(p[i := b]) { FromBitsInjective(Crc(p), Crc(p[i := b]), 24); }
  }

  lemma ChecksumBound(p: seq<byte>)
    ensures Checksum(p) < 0x1000000
  {
    FromBitsBound(Crc(p) & 0xffffff, 24);
    Power8();
  }
}
