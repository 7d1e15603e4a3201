/** Field arithmetic modulo 2^255 - 19 and the double-scalar multiplication of the ed25519 verifier. */
module Ed25519 {
  import opened Limbs
  import opened MpArith
  import opened MpField

  /** The field prime 2^255 - 19 of section 5.1 of RFC 8032. */
  const P: nat := 0x7FFFFFFF_FFFFFFFF_FFFFFFFF_FFFFFFFF_FFFFFFFF_FFFFFFFF_FFFFFFFF_FFFFFFED

  const TWO255: nat := 0x80000000_00000000_00000000_00000000_00000000_00000000_00000000_00000000

  lemma Weights()
    ensures W(7) * 0x8000_0000 == TWO255
    ensures W(8) == 2 * TWO255
    ensures W(0) == 1
  {
    assert W(2) == 0x1_0000_0000 * W(1) == 0x1_0000_0000 * 0x1_0000_0000 * W(0);
    assert W(4) == 0x1_0000_0000 * W(3) == 0x1_0000_0000 * 0x1_0000_0000 * W(2);
    assert W(6) == 0x1_0000_0000 * W(5) == 0x1_0000_0000 * 0x1_0000_0000 * W(4);
  }

  // ----- reduction of a 512-bit number -----

  /** One limb of lo + 38 * hi, at weight W(i). */
  lemma FoldStep(now: seq<limb>, lo: seq<limb>, hi: seq<limb>, i: nat, x0: nat, x: nat)
    requires i < |now| && i < |lo| && i < |hi|
    requires Val(now[..i]) + x0 * W(i) == Val(lo[..i]) + 38 * Val(hi[..i])
    requires now[i] + x * 0x1_0000_0000 == x0 + lo[i] + 38 * (hi[i] as wide)
    ensures Val(now[..i + 1]) + x * W(i + 1) == Val(lo[..i + 1]) + 38 * Val(hi[..i + 1])
  {
    hide Val, W;
    ValPush(now, i); ValPush(lo, i); ValPush(hi, i);
    Carry(now[i], x, i);
    MulSplit(x0 + lo[i], 38 * (hi[i] as wide), W(i));
    MulSplit(x0, lo[i], W(i));
    Assoc(38, hi[i], W(i));
  }

  /** First loop of the reduction: target + carry * 2^256 = low half + 38 * high half. */
  method Fold512(target: array<limb>, a: array<limb>) returns (x: wide)
    requires 8 <= target.Length && 16 <= a.Length && target != a
    modifies target
    ensures target[8..] == old(target[8..])
    ensures x <= 39
    ensures Num(8, target) + x * W(8) == Val(a[..8]) + 38 * Val(a[8..16])
  {
    hide Val, W;
    ghost var lo, hi := a[..8], a[8..16];
    CarryStart(target[..], lo, hi);
    x := 0;
    for i := 0 to 8
      invariant x <= 39
      invariant target[8..] == old(target[8..])
      invariant Val(target[..][..i]) + x * W(i) == Val(lo[..i]) + 38 * Val(hi[..i])
    {
      ghost var x0, done := x, target[..][..i];
      x := x + a[i] + (a[i + 8] as wide) * 38;
      target[i] := Low(x);
      x := High(x);
      assert target[..][..i] == done && hi[i] == a[i + 8];
      FoldStep(target[..], lo, hi, i, x0, x);
    }
    assert target[..][..8] == target[..8] && lo[..8] == lo && hi[..8] == hi;
  }

  /** Bit 255 is worth 19 and bit 256 is worth 38. */
  lemma FoldHighBits(t: nat, x: nat, top: nat)
    ensures Cong(t - top * TWO255 + (38 * x + 19 * top), t + x * (2 * TWO255), P)
  {
    var k := -(top + 2 * x);
    assert t - top * TWO255 + (38 * x + 19 * top) == t + x * (2 * TWO255) + k * P;
    CongIntro(t - top * TWO255 + (38 * x + 19 * top), t + x * (2 * TWO255), P, k);
  }

  lemma ClearTopBit(s: seq<limb>, t: seq<limb>)
    requires |s| == |t| == 8 && s[..7] == t[..7]
    requires t[7] == if s[7] >= 0x8000_0000 then s[7] - 0x8000_0000 else s[7]
    ensures Val(t) == Val(s) - (if s[7] >= 0x8000_0000 then TWO255 else 0)
    ensures Val(t) < TWO255
  {
    hide Val;
    Weights();
    ValPush(s, 7); ValPush(t, 7);
    assert s[..8] == s && t[..8] == t;
    ValBound(t[..7]);
    MulSplit(s[7], 0x8000_0000, W(7));
    MulLe(t[7], 0x7FFF_FFFF, W(7));
  }

  lemma RippleStep(was: seq<limb>, now: seq<limb>, i: nat, x0: nat, x: nat, c: nat)
    requires i < |was| && i < |now|
    requires Val(now[..i]) + x0 * W(i) == Val(was[..i]) + c
    requires now[i] + x * 0x1_0000_0000 == x0 + was[i]
    ensures Val(now[..i + 1]) + x * W(i + 1) == Val(was[..i + 1]) + c
  {
    hide Val, W;
    ValPush(was, i); ValPush(now, i);
    Carry(now[i], x, i);
    MulSplit(x0, was[i], W(i));
  }

  /** Last loop of the reduction: target += x, stopping as soon as no carry is left. */
  method Ripple(target: array<limb>, x0: wide)
    requires 8 <= target.Length
    requires x0 < 0x1_0000 && Num(8, target) < TWO255
    modifies target
    ensures target[8..] == old(target[8..])
    ensures Num(8, target) == old(Num(8, target)) + x0
  {
    hide Val, W;
    ghost var was := target[..];
    CarryStart(was, was, was);
    Weights();
    var x: wide, i := x0, 0;
    while x != 0 && i < 8
      invariant 0 <= i <= 8 && x < 0x1_0000
      invariant target[i..] == was[i..]
      invariant Val(target[..][..i]) + x * W(i) == Val(was[..i]) + x0
    {
      ghost var x1: nat, done := x, target[..][..i];
      assert target[i] == target[i..][0] == was[i];
      x := x + target[i];
      target[i] := Low(x);
      x := High(x);
      assert target[..][..i] == done;
      RippleStep(was, target[..], i, x1, x, x0);
      assert target[i + 1..] == was[i + 1..];
      i := i + 1;
    }
    ghost var now := target[..];
    assert was[..8] == old(target[..8]) && now[..8] == target[..8];
    assert target[8..] == now[8..] == now[i..][8 - i..] == was[i..][8 - i..] == was[8..];
    if x == 0 {
      assert now[..8][i..] == now[i..][..8 - i] && was[..8][i..] == was[i..][..8 - i];
      SameTopOrder(now[..8], was[..8], i);
      assert now[..8][..i] == now[..i] && was[..8][..i] == was[..i];
    } else {
      ValBound(now[..8]);
      MulLe(1, x, W(8));
    }
  }

  /** target = a mod 2^255 - 19, canonical, for every 512-bit a. */
  method Reduce512(target: array<limb>, a: array<limb>, q: array<limb>)
    requires 8 <= target.Length && 16 <= a.Length && 8 <= q.Length && target !in {a, q}
    requires Num(8, q) == P
    modifies target
    ensures target[8..] == old(target[8..])
    ensures Num(8, target) == Num(16, a) % P
  {
    hide Val, W;
    ghost var V := Num(16, a);
    HalvesCong(a[..16]);
    assert a[..16][..8] == a[..8] && a[..16][8..] == a[8..16];
    var x := Fold512(target, a);
    ghost var s, x1 := target[..8], x;
    x := x * 38;
    if target[7] >= 0x8000_0000 {
      x := x + 19;
      target[7] := target[7] - 0x8000_0000;
    }
    ClearTopBit(s, target[..8]);
    Weights();
    FoldHighBits(Val(s), x1, if s[7] >= 0x8000_0000 then 1 else 0);
    Ripple(target, x);
    ghost var r := Num(8, target);
    CongTrans(r, Val(s) + x1 * W(8), V, P);
    CanonicalOnce(r, V);
    var ge := MpTopNotLess(8, target, q);
    if ge {
      ValBound(target[..8]);
      MpSubMod(8, target, q);
    }
  }

  lemma HalvesCong(a: seq<limb>)
    requires |a| == 16
    ensures Cong(Val(a[..8]) + 38 * Val(a[8..]), Val(a), P)
  {
    hide Val, W;
    ValSplit(a, 8);
    Weights();
    var lo, hi := Val(a[..8]), Val(a[8..]);
    assert lo + 38 * hi == lo + 2 * TWO255 * hi + (-2 * hi) * P;
    CongIntro(lo + 38 * hi, Val(a), P, -2 * hi);
  }

  lemma CanonicalOnce(r: nat, V: nat)
    requires Cong(r, V, P) && r < 2 * P
    ensures V % P == if r < P then r else r - P
  {
    if r < P {
      CongIsMod(r, V, P);
    } else {
      CongIntro(r - P, r, P, -1);
      CongTrans(r - P, r, V, P);
      CongIsMod(r - P, V, P);
    }
  }

  // ----- multiplication -----

  /** What row i of the schoolbook product contributes: d * v at weight w. */
  ghost function Row(d: nat, v: nat, w: nat): nat {
    d * v * w
  }

  /** One limb of a row of the schoolbook product. */
  lemma RowStep(was: seq<limb>, now: seq<limb>, m: seq<limb>, i: nat, j: nat, d: nat, x0: nat, x: nat)
    requires i + j < |was| && i + j < |now| && j < |m|
    requires Val(now[..i + j]) + x0 * W(i + j) == Val(was[..i + j]) + Row(d, Val(m[..j]), W(i))
    requires now[i + j] + x * 0x1_0000_0000 == x0 + was[i + j] + d * m[j]
    ensures Val(now[..i + j + 1]) + x * W(i + j + 1) == Val(was[..i + j + 1]) + Row(d, Val(m[..j + 1]), W(i))
  {
    hide Val, W;
    ValPush(was, i + j); ValPush(now, i + j); ValPush(m, j);
    Carry(now[i + j], x, i + j);
    WPlus(i, j);
    MulSplit(x0 + was[i + j], d * m[j], W(i + j));
    MulSplit(x0, was[i + j], W(i + j));
    RowArith(d, Val(m[..j]), m[j], W(i), W(j));
  }

  lemma RowArith(d: int, v: int, e: int, wi: int, wj: int)
    ensures d * (v + e * wj) * wi == d * v * wi + d * e * (wi * wj)
  {
    Distribute(d, v, e, wj);
    MulSplit(d * v, e * (d * wj), wi);
    assert e * (d * wj) * wi == d * e * (wi * wj) by {
      Assoc(e, d, wj);
      Commute(e, d);
      Assoc(d * e, wj, wi);
      Commute(wj, wi);
    }
  }

  /** Inner loop of the product: tmp += d * m2 at limb i. */
  method MulRow(tmp: array<limb>, i: nat, d: limb, m2: array<limb>)
    requires tmp.Length == 16 && i < 8 && 8 <= m2.Length && tmp != m2
    requires forall k :: i + 8 <= k < 16 ==> tmp[k] == 0
    modifies tmp
    ensures forall k :: i + 9 <= k < 16 ==> tmp[k] == 0
    ensures Num(16, tmp) == old(Num(16, tmp)) + Row(d, Num(8, m2), W(i))
  {
    hide Val, W, Row;
    ghost var was, m := tmp[..], m2[..];
    var x: wide := 0;
    RowStart(was, i, d, m);
    for j := 0 to 8
      invariant x < 0x1_0000_0000
      invariant tmp[i + j..] == was[i + j..]
      invariant Val(tmp[..][..i + j]) + x * W(i + j) == Val(was[..i + j]) + Row(d, Val(m[..j]), W(i))
    {
      ghost var x0, done := x, tmp[..][..i + j];
      assert tmp[i + j] == tmp[i + j..][0] == was[i + j];
      x := MulAccumulate(x, d, m2[j], tmp[i + j]);
      tmp[i + j] := Low(x);
      x := High(x);
      assert tmp[..][..i + j] == done;
      RowStep(was, tmp[..], m, i, j, d, x0, x);
      assert tmp[i + j + 1..] == was[i + j + 1..];
    }
    ghost var done := tmp[..][..i + 8];
    assert forall k :: i + 8 <= k < 16 ==> tmp[k] == tmp[i + 8..][k - i - 8] == was[k];
    tmp[i + 8] := x;
    assert tmp[..][..i + 8] == done;
    assert m[..8] == m2[..8] && tmp[..] == tmp[..16] && was == old(tmp[..16]);
    RowEnd(was, tmp[..], i, x);
  }

  lemma RowStart(was: seq<limb>, i: nat, d: nat, m: seq<limb>)
    requires i <= |was|
    ensures Val(was[..i]) + 0 * W(i) == Val(was[..i]) + Row(d, Val(m[..0]), W(i))
  {
    assert Val(m[..0]) == 0;
    assert d * Val(m[..0]) == 0;
  }

  lemma RowEnd(was: seq<limb>, now: seq<limb>, i: nat, x: limb)
    requires |was| == |now| == 16 && i < 8
    requires forall k :: i + 8 <= k < 16 ==> was[k] == 0
    requires forall k :: i + 9 <= k < 16 ==> now[k] == 0
    requires now[i + 8] == x
    ensures Val(was) == Val(was[..i + 8])
    ensures Val(now) == Val(now[..i + 8]) + x * W(i + 8)
  {
    hide Val, W;
    ValZeroTail(was, i + 8);
    ValZeroTail(now, i + 9);
    ValPush(now, i + 8);
  }

  /** target = m1 * m2 mod 2^255 - 19, canonical, for all 256-bit factors; `target` may be a factor. */
  method Mul(target: array<limb>, m1: array<limb>, m2: array<limb>, q: array<limb>)
    requires 8 <= target.Length && 8 <= m1.Length && 8 <= m2.Length && 8 <= q.Length && target != q
    requires Num(8, q) == P
    modifies target
    ensures target[8..] == old(target[8..])
    ensures Num(8, target) == ModMul(old(Num(8, m1)), old(Num(8, m2)), P)
  {
    hide Val, W, Row;
    ghost var a, b := m1[..], Num(8, m2);
    var tmp := new limb[16](_ => 0);
    ValZero(tmp[..16]);
    ProductStart(a, b);
    for i := 0 to 8
      invariant m1[..] == a && Num(8, m2) == b
      invariant target[..] == old(target[..])
      invariant forall k :: i + 8 <= k < 16 ==> tmp[k] == 0
      invariant Num(16, tmp) == Val(a[..i]) * b
    {
      MulRow(tmp, i, m1[i], m2);
      ValPush(a, i);
      MulSplit(Val(a[..i]), a[i] * W(i), b);
      RowScale(a[i], W(i), b);
    }
    assert a[..8] == m1[..8];
    Reduce512(target, tmp, q);
  }

  lemma ProductStart(a: seq<limb>, b: nat)
    ensures Val(a[..0]) * b == 0
  {
    assert Val(a[..0]) == 0;
  }

  lemma RowScale(d: nat, w: nat, b: nat)
    ensures d * w * b == Row(d, b, w)
  {
  }

  // ----- powers and the inverse -----

  /** `x` is the residue of a^e. */
  ghost predicate IsPow(x: nat, a: nat, e: nat) {
    x < P && Cong(x, Pow(a, e), P)
  }

  /** target = m1 * m2, adding the exponents. */
  method MulPow(target: array<limb>, m1: array<limb>, m2: array<limb>, q: array<limb>, ghost a: nat, ghost e1: nat,
      ghost e2: nat)
    requires 8 <= target.Length && 8 <= m1.Length && 8 <= m2.Length && 8 <= q.Length && target != q
    requires Num(8, q) == P
    requires Cong(Num(8, m1), Pow(a, e1), P) && Cong(Num(8, m2), Pow(a, e2), P)
    modifies target
    ensures target[8..] == old(target[8..])
    ensures IsPow(Num(8, target), a, e1 + e2)
  {
    hide Val, W, Pow, Cong;
    ghost var x, f := Num(8, m1), Num(8, m2);
    Mul(target, m1, m2, q);
    ModMulCong(x, f);
    TimesStep(x, Num(8, target), f, a, e1, e2, P);
  }

  lemma ModMulCong(x: nat, f: nat)
    ensures ModMul(x, f, P) < P && Cong(ModMul(x, f, P), x * f, P)
  {
    MulLe(0, x, f);
    CongMod(x * f, P);
  }

  /** `n` squarings. */
  method SquareTimes(target: array<limb>, n: nat, q: array<limb>, ghost a: nat, ghost e: nat)
    requires 8 <= target.Length && 8 <= q.Length && target != q
    requires Num(8, q) == P
    requires IsPow(Num(8, target), a, e)
    modifies target
    ensures target[8..] == old(target[8..])
    ensures IsPow(Num(8, target), a, Doubled(e, n))
  {
    hide Pow, Val, W, Cong;
    for j := 0 to n
      invariant target[8..] == old(target[8..])
      invariant IsPow(Num(8, target), a, Doubled(e, j))
    {
      MulPow(target, target, target, q, a, Doubled(e, j), Doubled(e, j));
    }
  }

  /** e * 2^n. */
  function Doubled(e: nat, n: nat): (d: nat)
    ensures d >= e
  {
    if n == 0 then e else 2 * Doubled(e, n - 1)
  }

  /** The source's `todo` table: which saved power to multiply by, then how often to square. */
  const CHAIN_STEPS: seq<nat> := [0, 5, 1, 10, 2, 20, 3, 10, 2, 50, 5, 100, 6, 50, 5, 2]

  /** The exponent saved in slot k of the chain. */
  ghost function Saved(k: nat): nat
    requires k <= 8
    decreases k, 0
  {
    if k == 0 then 9 else Exponent(k - 1) + Saved(ChainIndex(k - 1))
  }

  /** The exponent of target before chain step i. */
  ghost function Exponent(i: nat): nat
    requires i <= 8
    decreases i, 1
  {
    if i == 0 then 22 else Doubled(Saved(i), CHAIN_STEPS[2 * (i - 1) + 1])
  }

  function ChainIndex(i: nat): (k: nat)
    requires i < 8
    ensures k <= i
  {
    CHAIN_STEPS[2 * i]
  }

  /** 2^n as iterated doubling of 1. */
  lemma {:induction false} DoubledScale(e: nat, n: nat)
    ensures Doubled(e, n) == e * Doubled(1, n)
  {
    if n > 0 {
      DoubledScale(e, n - 1);
      Assoc(2, e, Doubled(1, n - 1));
      Assoc(e, 2, Doubled(1, n - 1));
      Commute(e, 2);
    }
  }

  lemma {:induction false} DoubledPlus(e: nat, m: nat, n: nat)
    ensures Doubled(e, m + n) == Doubled(Doubled(e, m), n)
  {
    if n > 0 {
      DoubledPlus(e, m, n - 1);
    }
  }

  /** A run of j ones squared k times and topped up with k more ones: (2^j - 1) 2^k + (2^k - 1) = 2^(j+k) - 1. */
  lemma Ones(j: nat, k: nat)
    ensures Doubled(Doubled(1, j) - 1, k) + (Doubled(1, k) - 1) == Doubled(1, j + k) - 1
  {
    DoubledScale(Doubled(1, j) - 1, k);
    DoubledPlus(1, j, k);
    DoubledScale(Doubled(1, j), k);
    MulSplit(Doubled(1, j), 1, Doubled(1, k));
  }

  /** Where the chain ends: 2^252 - 4. The saved exponents are all-ones numbers. */
  lemma ChainEnd()
    ensures Exponent(8) == Doubled(1, 252) - 4
    ensures Doubled(1, 252) >= 4
  {
    hide Doubled, Saved, Exponent;
    ChainBase();
    ChainStep(0);
    Doubled8(1);
    ChainOnes(1, 5, 5);
    ChainOnes(2, 10, 10);
    ChainOnes(3, 20, 20);
    ChainOnes(4, 40, 10);
    ChainOnes(5, 50, 50);
    ChainOnes(6, 100, 100);
    ChainOnes(7, 200, 50);
    ChainStep(7);
    Doubled8(Doubled(1, 250) - 1);
    Doubled8(Doubled(1, 250));
    DoubledPlus(1, 250, 2);
  }

  /** j ones squared k times and multiplied by k ones: the next saved exponent is j + k ones. */
  lemma ChainOnes(i: nat, j: nat, k: nat)
    requires 1 <= i < 8
    requires Saved(i) == Doubled(1, j) - 1 && Saved(ChainIndex(i)) == Doubled(1, k) - 1
    requires CHAIN_STEPS[2 * (i - 1) + 1] == k
    ensures Saved(i + 1) == Doubled(1, j + k) - 1
  {
    hide Doubled, Saved, Exponent;
    ChainStep(i);
    ChainStep(i - 1);
    Ones(j, k);
  }

  lemma Doubled8(e: nat)
    ensures Doubled(e, 2) == 4 * e && Doubled(e, 5) == 32 * e && Doubled(e, 8) == 256 * e
  {
    assert Doubled(e, 1) == 2 * e;
    assert Doubled(e, 3) == 8 * e;
    assert Doubled(e, 5) == 2 * Doubled(e, 4) == 32 * e;
    assert Doubled(e, 7) == 2 * Doubled(e, 6) == 128 * e;
  }

  /** target = a^(2^252 - 4), a11 = a^11, by the fixed addition chain. */
  method Pow252(target: array<limb>, src: array<limb>, a11: array<limb>, q: array<limb>)
    requires 8 == target.Length == a11.Length && 8 <= src.Length && 8 <= q.Length
    requires target !in {src, a11, q} && a11 !in {src, q}
    requires Num(8, q) == P
    modifies target, a11
    ensures IsPow(Num(8, target), Num(8, src), TWO255 / 8 - 4)
    ensures IsPow(Num(8, a11), Num(8, src), 11)
  {
    hide Pow, Val, W, Cong, Doubled, Exponent, Saved;
    ghost var a := Num(8, src);
    var data := Chain9(target, src, a11, q, a);
    var datas := [data];
    ChainBase();
    for i := 0 to 8
      invariant |datas| == i + 1
      invariant forall k :: 0 <= k <= i ==> fresh(datas[k]) && datas[k].Length == 8 && datas[k] != target
      invariant forall k :: 0 <= k <= i ==> IsPow(Num(8, datas[k]), a, Saved(k))
      invariant IsPow(Num(8, target), a, Exponent(i))
      invariant Num(8, src) == a && Num(8, q) == P && IsPow(Num(8, a11), a, 11)
    {
      MulPow(target, target, datas[ChainIndex(i)], q, a, Exponent(i), Saved(ChainIndex(i)));
      ChainStep(i);
      var copy := new limb[8](_ => 0);
      MpCpy(8, copy, target);
      datas := datas + [copy];
      SquareTimes(target, CHAIN_STEPS[2 * i + 1], q, a, Saved(i + 1));
    }
    ChainEnd();
    Exponents();
  }

  lemma ChainBase()
    ensures Saved(0) == 9 && Exponent(0) == 22
  {
  }

  lemma ChainStep(i: nat)
    requires i < 8
    ensures Saved(i + 1) == Exponent(i) + Saved(ChainIndex(i))
    ensures Exponent(i + 1) == Doubled(Saved(i + 1), CHAIN_STEPS[2 * i + 1])
  {
  }

  /** The opening of the chain: a^9 is returned, a11 = a^11 and target = a^22. */
  method Chain9(target: array<limb>, src: array<limb>, a11: array<limb>, q: array<limb>, ghost a: nat)
    returns (data: array<limb>)
    requires 8 == target.Length == a11.Length && 8 <= src.Length && 8 <= q.Length
    requires target !in {src, a11, q} && a11 !in {src, q}
    requires Num(8, q) == P && a == Num(8, src)
    modifies target, a11
    ensures fresh(data) && data.Length == 8
    ensures IsPow(Num(8, data), a, 9) && IsPow(Num(8, a11), a, 11) && IsPow(Num(8, target), a, 22)
  {
    hide Pow, Val, W, Cong;
    PowSmall(a);
    CongRefl(a, P);
    MpCpy(8, target, src);
    MulPow(target, target, target, q, a, 1, 1);
    MpCpy(8, a11, target);
    MulPow(target, target, target, q, a, 2, 2);
    MulPow(target, target, target, q, a, 4, 4);
    data := new limb[8](_ => 0);
    MulPow(data, target, src, q, a, 8, 1);
    MulPow(a11, data, a11, q, a, 9, 2);
    MulPow(target, a11, a11, q, a, 11, 11);
  }

  /** target = a^(2^252 - 3), the exponent (p - 5) / 8 of the square root. */
  method Pow252m3(target: array<limb>, src: array<limb>, q: array<limb>)
    requires 8 == target.Length && 8 <= src.Length && 8 <= q.Length
    requires target !in {src, q}
    requires Num(8, q) == P
    modifies target
    ensures IsPow(Num(8, target), Num(8, src), (P - 5) / 8)
  {
    hide Pow, Val, W, Cong, Doubled;
    var t11 := new limb[8](_ => 0);
    Pow252(target, src, t11, q);
    PowSmall(Num(8, src));
    CongRefl(Num(8, src), P);
    MulPow(target, target, src, q, Num(8, src), TWO255 / 8 - 4, 1);
    Exponents();
  }

  /** target = a^(p - 2), the exponent of the field inverse. */
  method Inv(target: array<limb>, src: array<limb>, q: array<limb>)
    requires 8 == target.Length && 8 <= src.Length && 8 <= q.Length
    requires target != q
    requires Num(8, q) == P
    modifies target
    ensures IsPow(Num(8, target), old(Num(8, src)), P - 2)
  {
    hide Pow, Val, W, Cong, Doubled;
    ghost var a, e: nat := Num(8, src), TWO255 / 8 - 4;
    var t := new limb[8](_ => 0);
    var t11 := new limb[8](_ => 0);
    Pow252(t, src, t11, q);
    MulPow(t, t, t, q, a, e, e);
    MulPow(t, t, t, q, a, 2 * e, 2 * e);
    MulPow(t, t, t, q, a, 4 * e, 4 * e);
    MulPow(target, t, t11, q, a, 8 * e, 11);
    Exponents();
  }

  lemma Exponents()
    ensures Doubled(1, 252) == TWO255 / 8
    ensures Doubled(1, 252) - 4 + 1 == (P - 5) / 8
    ensures 8 * (Doubled(1, 252) - 4) + 11 == P - 2
  {
    hide Doubled;
    Doubled32(1);
    DoubledPlus(1, 32, 32); Doubled32(Doubled(1, 32));
    DoubledPlus(1, 64, 32); Doubled32(Doubled(1, 64));
    DoubledPlus(1, 96, 32); Doubled32(Doubled(1, 96));
    DoubledPlus(1, 128, 32); Doubled32(Doubled(1, 128));
    DoubledPlus(1, 160, 32); Doubled32(Doubled(1, 160));
    DoubledPlus(1, 192, 32); Doubled32(Doubled(1, 192));
    DoubledPlus(1, 224, 8); Doubled8(Doubled(1, 224));
    DoubledPlus(1, 232, 8); Doubled8(Doubled(1, 232));
    DoubledPlus(1, 240, 5); Doubled8(Doubled(1, 240));
    DoubledPlus(1, 245, 5); Doubled8(Doubled(1, 245));
    DoubledPlus(1, 250, 2); Doubled8(Doubled(1, 250));
  }

  lemma Doubled32(e: nat)
    ensures Doubled(e, 32) == e * 0x1_0000_0000
  {
    hide Doubled;
    Doubled8(e);
    DoubledPlus(e, 8, 8); Doubled8(Doubled(e, 8));
    DoubledPlus(e, 16, 8); Doubled8(Doubled(e, 16));
    DoubledPlus(e, 24, 8); Doubled8(Doubled(e, 24));
  }
}
