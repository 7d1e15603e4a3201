/** Interleaved double-scalar multiplication over an arbitrary commutative group. */
module ScalarMult {
  import opened Common
  import opened Limbs
  import opened MpArith

  /** Points with a neutral element and an addition; doubling is adding a point to itself. */
  datatype Group<!T> = Group(zero: T, add: (T, T) -> T)

  ghost predicate Commutative<T(!new)>(g: Group<T>) {
    && (forall a: T, b: T :: g.add(a, b) == g.add(b, a))
    && (forall a: T, b: T, c: T :: g.add(g.add(a, b), c) == g.add(a, g.add(b, c)))
    && (forall a: T :: g.add(g.zero, a) == a)
  }

  /** n * p. */
  ghost function Times<T>(g: Group<T>, n: nat, p: T): T {
    if n == 0 then g.zero else g.add(p, Times(g, n - 1, p))
  }

  /** a * p1 + b * p2. */
  ghost function Combine<T>(g: Group<T>, a: nat, p1: T, b: nat, p2: T): T {
    g.add(Times(g, a, p1), Times(g, b, p2))
  }

  lemma {:induction false} TimesPlus<T(!new)>(g: Group<T>, m: nat, n: nat, p: T)
    requires Commutative(g)
    ensures Times(g, m + n, p) == g.add(Times(g, m, p), Times(g, n, p))
  {
    if m > 0 {
      TimesPlus(g, m - 1, n, p);
      assert g.add(g.add(p, Times(g, m - 1, p)), Times(g, n, p)) == g.add(p, g.add(Times(g, m - 1, p), Times(g, n, p)));
    }
  }

  lemma CombinePlus<T(!new)>(g: Group<T>, a: nat, b: nat, c: nat, d: nat, p1: T, p2: T)
    requires Commutative(g)
    ensures g.add(Combine(g, a, p1, b, p2), Combine(g, c, p1, d, p2)) == Combine(g, a + c, p1, b + d, p2)
  {
    TimesPlus(g, a, c, p1);
    TimesPlus(g, b, d, p2);
    Shuffle(g, Times(g, a, p1), Times(g, b, p2), Times(g, c, p1), Times(g, d, p2));
  }

  lemma Shuffle<T(!new)>(g: Group<T>, a: T, b: T, c: T, d: T)
    requires Commutative(g)
    ensures g.add(g.add(a, b), g.add(c, d)) == g.add(g.add(a, c), g.add(b, d))
  {
    assert g.add(g.add(a, b), g.add(c, d)) == g.add(a, g.add(b, g.add(c, d)));
    assert g.add(b, g.add(c, d)) == g.add(g.add(b, c), d) == g.add(g.add(c, b), d) == g.add(c, g.add(b, d));
    assert g.add(a, g.add(c, g.add(b, d))) == g.add(g.add(a, c), g.add(b, d));
  }

  lemma SmallTimes<T(!new)>(g: Group<T>, p: T)
    requires Commutative(g)
    ensures Times(g, 0, p) == g.zero && Times(g, 1, p) == p
    ensures Times(g, 2, p) == g.add(p, p) && Times(g, 3, p) == g.add(p, g.add(p, p))
  {
    assert g.add(p, g.zero) == g.add(g.zero, p);
  }

  // ----- the scalar's bits -----

  /** `e >> t`. */
  function Shr(e: limb, t: nat): limb {
    if t == 0 then e else Shr(e, t - 1) / 2
  }

  /** `s[i / 32] & (1 << (i % 32))`, as 0 or 1. */
  function Bit(s: seq<limb>, i: nat): (b: nat)
    requires i < 32 * |s|
    ensures b <= 1
  {
    Shr(s[i / 32], i % 32) % 2
  }

  /** The number formed by the bits from index i up. */
  ghost function HighBits(s: seq<limb>, i: nat): nat
    requires i <= 32 * |s|
    decreases 32 * |s| - i
  {
    if i == 32 * |s| then 0 else 2 * HighBits(s, i + 1) + Bit(s, i)
  }

  lemma {:induction false} ShrBound(e: limb, t: nat)
    requires t <= 32
    ensures Shr(e, t) < Pow2(32 - t)
  {
    if t == 0 {
      assert Pow2(4) == 16; assert Pow2(8) == 256; assert Pow2(12) == 0x1000; assert Pow2(16) == 0x1_0000;
      assert Pow2(20) == 0x10_0000; assert Pow2(24) == 0x100_0000; assert Pow2(28) == 0x1000_0000;
    } else {
      ShrBound(e, t - 1);
    }
  }

  /** Within limb k, the high bits are the higher limbs shifted up plus the limb shifted down. */
  lemma {:induction false} HighBitsInLimb(s: seq<limb>, k: nat, t: nat)
    requires k < |s| && t <= 32
    requires HighBits(s, 32 * k + 32) == TopPart(s, k + 1)
    ensures HighBits(s, 32 * k + t) == TopPart(s, k + 1) * Pow2(32 - t) + Shr(s[k], t)
    decreases 32 - t
  {
    hide TopPart;
    if t == 32 {
      ShrBound(s[k], 32);
    } else {
      HighBitsInLimb(s, k, t + 1);
      assert (32 * k + t) / 32 == k && (32 * k + t) % 32 == t;
      assert Bit(s, 32 * k + t) == Shr(s[k], t) % 2;
      assert Shr(s[k], t) == 2 * Shr(s[k], t + 1) + Shr(s[k], t) % 2;
      ScaleTwo(TopPart(s, k + 1), Pow2(32 - t - 1));
    }
  }

  lemma ScaleTwo(a: nat, w: nat)
    ensures 2 * (a * w) == a * (2 * w)
  {
  }

  lemma {:induction false} HighBitsAtLimb(s: seq<limb>, k: nat)
    requires k <= |s|
    ensures HighBits(s, 32 * k) == TopPart(s, k)
    decreases |s| - k
  {
    if k < |s| {
      HighBitsAtLimb(s, k + 1);
      HighBitsInLimb(s, k, 0);
      assert Shr(s[k], 0) == s[k];
      TwoTo32();
      TopPartStep(s, k);
    }
  }

  lemma TwoTo32()
    ensures Pow2(32) == 0x1_0000_0000
  {
    assert Pow2(4) == 16; assert Pow2(8) == 256; assert Pow2(12) == 0x1000; assert Pow2(16) == 0x1_0000;
    assert Pow2(20) == 0x10_0000; assert Pow2(24) == 0x100_0000; assert Pow2(28) == 0x1000_0000;
  }

  /** All the bits together are the number. */
  lemma HighBitsAll(s: seq<limb>)
    ensures HighBits(s, 0) == Val(s)
    ensures HighBits(s, 32 * |s|) == 0
  {
    HighBitsAtLimb(s, 0);
    assert s[0..] == s;
  }

  // ----- the algorithm -----

  /** tab[4 * i + j] == i * p1 + j * p2. */
  method SetupTable<T(!new)>(g: Group<T>, p1: T, p2: T) returns (tab: array<T>)
    requires Commutative(g)
    ensures tab.Length == 16 && fresh(tab)
    ensures forall k :: 0 <= k < 16 ==> tab[k] == Combine(g, k / 4, p1, k % 4, p2)
  {
    hide Commutative, Combine, Times;
    Column0(g, p1, p2);
    tab := new T[16](_ => g.zero);
    tab[4] := p1;
    tab[8] := p1;
    tab[12] := p1;
    tab[8] := g.add(tab[8], tab[8]);
    tab[12] := g.add(tab[12], tab[8]);
    tab[1] := p2;
    for i := 2 to 16
      invariant forall k :: 0 <= k < i || k % 4 == 0 ==> 0 <= k < 16 ==> tab[k] == Combine(g, k / 4, p1, k % 4, p2)
    {
      if i % 4 == 0 {
        continue;
      }
      CombinePlus(g, i / 4, (i - 1) % 4, 0, 1, p1, p2);
      tab[i] := g.add(tab[i - 1], p2);
    }
  }

  lemma Column0<T(!new)>(g: Group<T>, p1: T, p2: T)
    requires Commutative(g)
    ensures Combine(g, 0, p1, 0, p2) == g.zero && Combine(g, 1, p1, 0, p2) == p1
    ensures Combine(g, 0, p1, 1, p2) == p2
    ensures Combine(g, 2, p1, 0, p2) == g.add(p1, p1) && Combine(g, 3, p1, 0, p2) == g.add(p1, g.add(p1, p1))
  {
    SmallTimes(g, p1);
    SmallTimes(g, p2);
    forall a: T ensures g.add(a, g.zero) == a { assert g.add(a, g.zero) == g.add(g.zero, a); }
  }

  /** r = s1 * p1 + s2 * p2 for all 256-bit scalars. */
  method ScMult2<T(!new)>(g: Group<T>, s1: array<limb>, p1: T, s2: array<limb>, p2: T) returns (p: T)
    requires Commutative(g)
    requires s1.Length == s2.Length == 8
    ensures p == Combine(g, Num(8, s1), p1, Num(8, s2), p2)
  {
    hide Commutative, Combine, Times, Val, HighBits, Bit;
    ghost var a, b := s1[..], s2[..];
    HighBitsAll(a);
    HighBitsAll(b);
    var tab := SetupTable(g, p1, p2);
    ghost var table := tab[..];
    p := g.zero;
    Column0(g, p1, p2);
    var i, dodouble := 255, false;
    while i >= 0
      invariant -1 <= i <= 255
      invariant s1[..] == a && s2[..] == b
      invariant tab[..] == table
      invariant p == Combine(g, HighBits(a, i + 1), p1, HighBits(b, i + 1), p2)
      invariant !dodouble ==> HighBits(a, i + 1) == 0 && HighBits(b, i + 1) == 0
    {
      p := MaybeDouble(g, p, dodouble, HighBits(a, i + 1), HighBits(b, i + 1), p1, p2);
      HighBitsStep(a, i);
      HighBitsStep(b, i);
      var x1, x2 := Bit(s1[..], i), Bit(s2[..], i);
      if x1 == 0 && x2 == 0 {
        i := i - 1;
        continue;
      }
      ghost var A, B := 2 * HighBits(a, i + 1), 2 * HighBits(b, i + 1);
      if i > 0 {
        i := i - 1;
        p := MaybeDouble(g, p, dodouble, A, B, p1, p2);
        A, B := 2 * A, 2 * B;
        HighBitsStep(a, i);
        HighBitsStep(b, i);
        x1, x2 := 2 * x1 + Bit(s1[..], i), 2 * x2 + Bit(s2[..], i);
      }
      CombinePlus(g, A, B, x1, x2, p1, p2);
      assert tab[4 * x1 + x2] == table[4 * x1 + x2];
      p := g.add(p, tab[4 * x1 + x2]);
      dodouble := true;
      i := i - 1;
    }
    assert a == s1[..8] && b == s2[..8];
  }

  lemma HighBitsStep(s: seq<limb>, i: nat)
    requires |s| == 8 && i < 256
    ensures HighBits(s, i) == 2 * HighBits(s, i + 1) + Bit(s, i)
  {
  }

  /** `if (dodouble) ptdouble(p)`: skipping the doubling is right while p is still neutral. */
  method MaybeDouble<T(!new)>(g: Group<T>, p: T, dodouble: bool, ghost a: nat, ghost b: nat, p1: T, p2: T)
    returns (r: T)
    requires Commutative(g)
    requires p == Combine(g, a, p1, b, p2)
    requires !dodouble ==> a == 0 && b == 0
    ensures r == Combine(g, 2 * a, p1, 2 * b, p2)
  {
    hide Commutative, Combine, Times;
    CombinePlus(g, a, b, a, b, p1, p2);
    r := if dodouble then g.add(p, p) else p;
  }
}
