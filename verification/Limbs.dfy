/** Multi-limb natural numbers in little-endian base 2^32, and congruences. */
module Limbs {

  /** `mp_t`: one 32-bit limb. */
  type limb = x: nat | x < 0x1_0000_0000

  /** `mp2_t`: the 64-bit intermediate. A value that would not fit fails verification. */
  type wide = x: nat | x < 0x1_0000_0000_0000_0000

  /** The weight of limb `n`. */
  function W(n: nat): (w: nat)
    ensures w > 0
  {
    if n == 0 then 1 else 0x1_0000_0000 * W(n - 1)
  }

  /** The number a little-endian limb sequence stands for. */
  ghost function Val(s: seq<limb>): (v: nat)
    decreases |s|
  {
    if |s| == 0 then 0 else Val(s[..|s| - 1]) + s[|s| - 1] * W(|s| - 1)
  }

  function Pow(b: nat, e: nat): nat {
    if e == 0 then 1 else b * Pow(b, e - 1)
  }

  lemma MulLe(a: int, b: int, c: nat)
    requires a <= b
    ensures a * c <= b * c
  {
  }

  lemma MulSplit(a: int, b: int, w: int)
    ensures (a + b) * w == a * w + b * w
    ensures (a - b) * w == a * w - b * w
  {
  }

  lemma Assoc(a: int, b: int, c: int)
    ensures a * (b * c) == a * b * c
  {
  }

  lemma Commute(a: int, b: int)
    ensures a * b == b * a
  {
  }

  /** One carry step: c + d*BASE at weight W(i). */
  lemma Carry(c: int, d: int, i: nat)
    ensures (c + d * 0x1_0000_0000) * W(i) == c * W(i) + d * W(i + 1)
  {
    var w := W(i);
    assert W(i + 1) == 0x1_0000_0000 * w;
    MulSplit(c, d * 0x1_0000_0000, w);
    assert d * 0x1_0000_0000 * w == d * (0x1_0000_0000 * w);
  }

  lemma {:induction false} ValBound(s: seq<limb>)
    ensures Val(s) < W(|s|)
    decreases |s|
  {
    if |s| > 0 {
      var n := |s| - 1;
      ValBound(s[..n]);
      MulLe(s[n], 0xFFFF_FFFF, W(n));
    }
  }

  lemma ValPush(s: seq<limb>, i: nat)
    requires i < |s|
    ensures Val(s[..i + 1]) == Val(s[..i]) + s[i] * W(i)
  {
    assert s[..i + 1][..i] == s[..i];
  }

  /** A prefix followed by zero limbs has the prefix's value. */
  lemma {:induction false} ValZeroTail(s: seq<limb>, i: nat)
    requires i <= |s|
    requires forall k :: i <= k < |s| ==> s[k] == 0
    ensures Val(s) == Val(s[..i])
    decreases |s|
  {
    if i == |s| {
      assert s[..i] == s;
    } else {
      var t := s[..|s| - 1];
      ValZeroTail(t, i);
      assert t[..i] == s[..i];
    }
  }

  lemma {:induction false} ValZero(s: seq<limb>)
    ensures Val(s) == 0 <==> forall k :: 0 <= k < |s| ==> s[k] == 0
    decreases |s|
  {
    if |s| > 0 {
      var n := |s| - 1;
      ValZero(s[..n]);
      if s[n] != 0 { MulLe(1, s[n], W(n)); }
      if Val(s) == 0 {
        forall k | 0 <= k < |s| ensures s[k] == 0 { if k < n { assert s[..n][k] == s[k]; } }
      }
    }
  }

  /** Equal length and equal value means equal limbs: `mpisequal` compares numbers. */
  lemma {:induction false} ValInjective(s: seq<limb>, t: seq<limb>)
    requires |s| == |t| && Val(s) == Val(t)
    ensures s == t
    decreases |s|
  {
    if |s| > 0 {
      var n := |s| - 1;
      ValBound(s[..n]); ValBound(t[..n]);
      if s[n] < t[n] { MulLe(s[n] + 1, t[n], W(n)); MulSplit(s[n], 1, W(n)); assert false; }
      if t[n] < s[n] { MulLe(t[n] + 1, s[n], W(n)); MulSplit(t[n], 1, W(n)); assert false; }
      ValInjective(s[..n], t[..n]);
      assert s == s[..n] + [s[n]] && t == t[..n] + [t[n]];
    }
  }

  lemma {:induction false} WPlus(a: nat, b: nat)
    ensures W(a + b) == W(a) * W(b)
    decreases b
  {
    if b > 0 {
      WPlus(a, b - 1);
      assert W(a) * W(b) == W(a) * (0x1_0000_0000 * W(b - 1));
      assert W(a) * (0x1_0000_0000 * W(b - 1)) == 0x1_0000_0000 * (W(a) * W(b - 1));
    }
  }

  lemma Distribute(w: int, x: int, y: int, z: int)
    ensures w * (x + y * z) == w * x + y * (w * z)
  {
    assert w * (x + y * z) == w * x + w * (y * z);
    assert w * (y * z) == y * (w * z);
  }

  lemma {:induction false} ValSplit(s: seq<limb>, i: nat)
    requires i <= |s|
    ensures Val(s) == Val(s[..i]) + W(i) * Val(s[i..])
    decreases |s|
  {
    if i == |s| {
      assert s[..i] == s;
      assert Val(s[i..]) == 0;
    } else {
      var n := |s| - 1;
      var t := s[..n];
      ValSplit(t, i);
      assert t[..i] == s[..i];
      var u := s[i..];
      assert u[..|u| - 1] == t[i..];
      WPlus(i, n - i);
      var x, y, z := Val(t[i..]), s[n], W(n - i);
      assert Val(u) == x + y * z;
      Distribute(W(i), x, y, z);
      assert W(n) == W(i) * z;
      assert Val(s) == Val(t) + y * W(n);
    }
  }

  lemma {:induction false} PowPlus(b: nat, x: nat, y: nat)
    ensures Pow(b, x + y) == Pow(b, x) * Pow(b, y)
    decreases x
  {
    if x > 0 {
      PowPlus(b, x - 1, y);
      Assoc(b, Pow(b, x - 1), Pow(b, y));
    }
  }

  // ----- congruence modulo m, with the quotient as witness -----

  ghost predicate Cong(a: int, b: int, m: nat) {
    exists k: int :: CongBy(a, b, m, k)
  }

  ghost predicate CongBy(a: int, b: int, m: nat, k: int) {
    a == b + k * m
  }

  lemma CongIntro(a: int, b: int, m: nat, k: int)
    requires a == b + k * m
    ensures Cong(a, b, m)
  {
    assert CongBy(a, b, m, k);
  }

  lemma CongRefl(a: int, m: nat)
    ensures Cong(a, a, m)
  {
    CongIntro(a, a, m, 0);
  }

  lemma CongSym(a: int, b: int, m: nat)
    requires Cong(a, b, m)
    ensures Cong(b, a, m)
  {
    var k :| CongBy(a, b, m, k);
    assert (-k) * m == -(k * m);
    CongIntro(b, a, m, -k);
  }

  lemma CongTrans(a: int, b: int, c: int, m: nat)
    requires Cong(a, b, m) && Cong(b, c, m)
    ensures Cong(a, c, m)
  {
    var k :| CongBy(a, b, m, k);
    var l :| CongBy(b, c, m, l);
    MulSplit(k, l, m);
    CongIntro(a, c, m, k + l);
  }

  lemma CongAdd(a: int, b: int, c: int, d: int, m: nat)
    requires Cong(a, b, m) && Cong(c, d, m)
    ensures Cong(a + c, b + d, m)
  {
    var k :| CongBy(a, b, m, k);
    var l :| CongBy(c, d, m, l);
    MulSplit(k, l, m);
    CongIntro(a + c, b + d, m, k + l);
  }

  lemma CongScale(a: int, b: int, c: int, m: nat)
    requires Cong(a, b, m)
    ensures Cong(a * c, b * c, m)
  {
    var k :| CongBy(a, b, m, k);
    MulSplit(b, k * m, c);
    assert k * m * c == k * c * m;
    CongIntro(a * c, b * c, m, k * c);
  }

  lemma CongMul(a: int, b: int, c: int, d: int, m: nat)
    requires Cong(a, b, m) && Cong(c, d, m)
    ensures Cong(a * c, b * d, m)
  {
    CongScale(a, b, c, m);
    CongScale(c, d, b, m);
    assert c * b == b * c && d * b == b * d;
    CongTrans(a * c, b * c, b * d, m);
  }

  lemma CongMod(a: int, m: nat)
    requires m > 0
    ensures Cong(a % m, a, m)
  {
    assert a == m * (a / m) + a % m;
    assert (-(a / m)) * m == -(m * (a / m));
    CongIntro(a % m, a, m, -(a / m));
  }

  /** The residue below m is unique. */
  lemma CongUnique(a: nat, b: nat, m: nat)
    requires Cong(a, b, m) && a < m && b < m
    ensures a == b
  {
    var k :| CongBy(a, b, m, k);
    if k >= 1 { MulLe(1, k, m); }
    if k <= -1 { MulLe(k, -1, m); }
  }

  lemma CongIsMod(a: nat, b: nat, m: nat)
    requires Cong(a, b, m) && a < m
    ensures a == b % m
  {
    CongMod(b, m);
    CongSym(b % m, b, m);
    CongTrans(a, b, b % m, m);
    CongUnique(a, b % m, m);
  }
}
