/** The multi-limb modular arithmetic behind RSA and DSA signature checks. */
module MpArith {
  import opened Limbs

  /** The number held by the low `len` limbs of `a`. */
  ghost function Num(len: nat, a: array<limb>): nat
    requires len <= a.Length
    reads a
  {
    Val(a[..len])
  }

  /** `(mp_t)x`: truncation to the low limb. */
  function Low(x: wide): limb {
    x % 0x1_0000_0000
  }

  /** `x >> MP_T_BITS`. */
  function High(x: wide): (h: limb)
    ensures x == h * 0x1_0000_0000 + Low(x)
  {
    x / 0x1_0000_0000
  }

  /** `a - b` on `mp_t`, wrapping. */
  function SubLimb(a: limb, b: limb): limb {
    if a >= b then a - b else a + 0x1_0000_0000 - b
  }

  /** Two numbers that share their top limbs compare like their low parts. */
  lemma {:induction false} SameTopOrder(s: seq<limb>, t: seq<limb>, i: nat)
    requires |s| == |t| && i <= |s|
    requires s[i..] == t[i..]
    ensures Val(s) - Val(s[..i]) == Val(t) - Val(t[..i])
  {
    ValSplit(s, i);
    ValSplit(t, i);
  }

  /** A larger top limb decides a comparison. */
  lemma TopDecides(s: seq<limb>, t: seq<limb>, i: nat)
    requires |s| == |t| && i < |s|
    requires s[i + 1..] == t[i + 1..]
    requires s[i] < t[i]
    ensures Val(s) < Val(t)
  {
    SameTopOrder(s, t, i + 1);
    ValPush(s, i); ValPush(t, i);
    ValBound(s[..i]);
    MulLe(s[i] + 1, t[i], W(i));
    MulSplit(s[i], 1, W(i));
  }

  method MpIsLess(len: nat, a: array<limb>, b: array<limb>) returns (r: bool)
    requires len <= a.Length && len <= b.Length
    ensures r <==> Num(len, a) < Num(len, b)
  {
    var i := len - 1;
    while i >= 0
      invariant -1 <= i < len
      invariant a[..len][i + 1..] == b[..len][i + 1..]
    {
      if a[i] < b[i] {
        TopDecides(a[..len], b[..len], i);
        return true;
      } else if a[i] > b[i] {
        TopDecides(b[..len], a[..len], i);
        return false;
      }
      assert a[..len][i..] == [a[i]] + a[..len][i + 1..];
      assert b[..len][i..] == [b[i]] + b[..len][i + 1..];
      i := i - 1;
    }
    assert a[..len] == a[..len][0..] == b[..len][0..] == b[..len];
    return false;
  }

  method MpIsEqual(len: nat, a: array<limb>, b: array<limb>) returns (r: bool)
    requires len <= a.Length && len <= b.Length
    ensures r <==> Num(len, a) == Num(len, b)
  {
    r := a[..len] == b[..len];
    if Num(len, a) == Num(len, b) {
      ValInjective(a[..len], b[..len]);
    }
  }

  method MpIsZero(len: nat, a: array<limb>) returns (r: bool)
    requires len <= a.Length
    ensures r <==> Num(len, a) == 0
  {
    ValZero(a[..len]);
    for i := 0 to len
      invariant forall k :: 0 <= k < i ==> a[k] == 0
    {
      if a[i] != 0 { assert a[..len][i] != 0; return false; }
    }
    return true;
  }

  method MpZero(len: nat, target: array<limb>)
    requires len <= target.Length
    modifies target
    ensures target[len..] == old(target[len..])
    ensures Num(len, target) == 0
    ensures forall k :: 0 <= k < len ==> target[k] == 0
  {
    forall k | 0 <= k < len { target[k] := 0; }
    ValZero(target[..len]);
  }

  method MpCpy(len: nat, target: array<limb>, source: array<limb>)
    requires len <= target.Length && len <= source.Length
    modifies target
    ensures target[len..] == old(target[len..])
    ensures target[..len] == old(source[..len])
  {
    forall k | 0 <= k < len { target[k] := source[k]; }
  }

  /** The borrow equation of one limb subtraction, at weight W(i). */
  lemma BorrowStep(t: int, m: int, n: int, t': int, n': int, i: nat)
    requires t' == t - m - n + n' * 0x1_0000_0000
    ensures t' * W(i) == t * W(i) - m * W(i) - n * W(i) + n' * W(i + 1)
  {
    Carry(t - m - n, n', i);
    MulSplit(t - m, n, W(i));
    MulSplit(t, m, W(i));
  }

  /** target -= mod, wrapping at W(len). */
  method MpSubMod(len: nat, target: array<limb>, mod: array<limb>)
    requires len <= target.Length && len <= mod.Length && target != mod
    modifies target
    ensures target[len..] == old(target[len..])
    ensures Num(len, target) == old(Num(len, target)) - Num(len, mod)
                                + (if old(Num(len, target)) < Num(len, mod) then W(len) else 0)
  {
    ghost var t0 := target[..];
    var n: wide := 0;
    for i := 0 to len
      invariant n <= 1
      invariant target[i..] == t0[i..]
      invariant Val(target[..i]) == Val(t0[..i]) - Val(mod[..i]) + n * W(i)
    {
      ghost var n0, lo := n, target[..i];
      assert target[i] == target[i..][0] == t0[i];
      var n2: wide := mod[i] + n;
      n := if n2 > target[i] then 1 else 0;
      target[i] := SubLimb(target[i], Low(n2));
      assert target[..i] == lo;
      ValPush(target[..], i); ValPush(t0, i); ValPush(mod[..], i);
      assert target[..][..i + 1] == target[..i + 1] && target[..][..i] == lo;
      assert mod[..][..i + 1] == mod[..i + 1] && mod[..][..i] == mod[..i];
      BorrowStep(t0[i], mod[i], n0, target[i], n, i);
      assert target[i + 1..] == t0[i + 1..];
    }
    assert t0[..len] == old(target[..len]);
    ValBound(target[..len]); ValBound(t0[..len]); ValBound(mod[..len]);
  }

  lemma MulBounds(a: limb, b: limb)
    ensures 0 <= a * b <= 0xFFFF_FFFE_0000_0001
  {
    MulLe(0, a, b);
    MulLe(a, 0xFFFF_FFFF, b);
  }

  /** One limb of target - z * mod, at weight W(j). */
  lemma SubMulStep(was: seq<limb>, now: seq<limb>, m: seq<limb>, j: nat, z: nat, n0: int, n1: int)
    requires j < |was| && j < |now| && j < |m|
    requires Val(now[..j]) == Val(was[..j]) - z * Val(m[..j]) + n0 * W(j)
    requires now[j] == was[j] - z * m[j] - n0 + n1 * 0x1_0000_0000
    ensures Val(now[..j + 1]) == Val(was[..j + 1]) - z * Val(m[..j + 1]) + n1 * W(j + 1)
  {
    ValPush(was, j); ValPush(now, j); ValPush(m, j);
    SubMulArith(Val(now[..j]), Val(was[..j]), Val(m[..j]), z, n0, n1, now[j], was[j], m[j], j);
  }

  lemma SubMulArith(a: int, b: int, c: int, z: int, n0: int, n1: int, t': int, t: int, m: int, j: nat)
    requires a == b - z * c + n0 * W(j)
    requires t' == t - z * m - n0 + n1 * 0x1_0000_0000
    ensures a + t' * W(j) == b + t * W(j) - z * (c + m * W(j)) + n1 * W(j + 1)
  {
    BorrowStep(t, z * m, n0, t', n1, j);
    Assoc(z, m, W(j));
    LeftSplit(z, c, m * W(j));
  }

  lemma LeftSplit(z: int, a: int, b: int)
    ensures z * (a + b) == z * a + z * b
  {
  }

  /** The inner loop of `mpdomod`: target -= z * mod on the low `len` limbs; the result is the borrow. */
  method MpSubMul(len: nat, target: array<limb>, mod: array<limb>, z: limb) returns (n: wide)
    requires len <= target.Length && len <= mod.Length && target != mod
    modifies target
    ensures target[len..] == old(target[len..])
    ensures n <= z
    ensures Num(len, target) == old(Num(len, target)) - z * Num(len, mod) + n * W(len)
  {
    ghost var was, m := target[..], mod[..];
    n := 0;
    for j := 0 to len
      invariant n < 0x1_0000_0000
      invariant target[j..] == was[j..]
      invariant mod[..] == m
      invariant Val(target[..][..j]) == Val(was[..j]) - z * Val(m[..j]) + n * W(j)
    {
      ghost var n0, lo := n, target[..][..j];
      assert target[j] == target[j..][0] == was[j];
      MulBounds(mod[j], z);
      n := n + mod[j] * z;
      var n2 := Low(n);
      n := High(n);
      if n2 > target[j] {
        n := n + 1;
      }
      target[j] := SubLimb(target[j], n2);
      Commute(mod[j], z);
      assert target[..][..j] == lo;
      SubMulStep(was, target[..], m, j, z, n0, n);
      assert target[j + 1..] == was[j + 1..];
    }
    assert was[..len] == old(target[..len]) && m[..len] == mod[..len] && target[..][..len] == target[..len];
    ValBound(target[..len]); ValBound(m[..len]);
    BorrowBound(Val(target[..len]), Val(was[..len]), z, Val(m[..len]), n, W(len));
  }

  lemma BorrowBound(t': nat, t: nat, z: nat, m: nat, n: nat, w: nat)
    requires t' == t - z * m + n * w
    requires t' < w && m < w
    ensures n <= z
  {
    MulLe(m, w, z);
    Commute(m, z);
    Commute(w, z);
    if n >= z + 1 {
      MulLe(z + 1, n, w);
      MulSplit(z, 1, w);
      assert false;
    }
  }

  lemma CancelLt(a: int, b: int, w: nat)
    requires a * w < b * w
    ensures a < b
  {
    if b <= a { MulLe(b, a, w); }
  }

  /** While the leading limbs of mod are zero, the window word stays below 2^32. */
  lemma WindowSmall(x: nat, lo: nat, m: nat, i: nat)
    requires x * W(i) + lo < m * 0x1_0000_0000 && m < W(i)
    ensures x < 0x1_0000_0000
  {
    CancelLt(x, 0x1_0000_0000, W(i));
  }

  /** With the top limb `mt` of mod found, x / (mt + 1) fits a limb. */
  lemma QuotientFits(x: nat, lo: nat, ml: nat, mt: nat, w: nat)
    requires x * w + lo < (ml + mt * w) * 0x1_0000_0000 && ml < w
    ensures x / (mt + 1) < 0x1_0000_0000
  {
    MulSplit(mt, 1, w);
    assert (mt + 1) * 0x1_0000_0000 * w == (mt + 1) * w * 0x1_0000_0000;
    CancelLt(x, (mt + 1) * 0x1_0000_0000, w);
    var q := x / (mt + 1);
    assert q * (mt + 1) <= x;
    Commute(0x1_0000_0000, mt + 1);
    CancelLt(q, 0x1_0000_0000, mt + 1);
  }

  /** Taking the quotient estimate z off the window subtracts z * mod, and never too much. */
  lemma EstimateStep(x: nat, lo: int, lo': int, z: nat, n: nat, ml: nat, mt: nat, w: nat)
    requires lo' == lo - z * ml + n * w
    requires n <= z && z * (mt + 1) <= x
    ensures n + mt * z <= x
    ensures (x - (n + mt * z)) * w + lo' == x * w + lo - z * (ml + mt * w)
  {
    Distribute(z, 1, mt, 1);
    Commute(mt, z);
    MulSplit(x, n + mt * z, w);
    MulSplit(n, mt * z, w);
    Distribute(z, ml, mt, w);
    assert mt * z * w == mt * (z * w);
  }

  /** The last conditional subtraction, carried out modulo W(i + 1), yields v - m exactly. */
  lemma LastSubtraction(x: wide, lo: nat, ml: nat, mt: limb, i: nat)
    requires lo < W(i) && ml < W(i) && x < 2 * (mt as wide)
    ensures var v, m, t := x * W(i) + lo, ml + mt * W(i), Low(x) * W(i) + lo;
      && v < 2 * m
      && (v >= m ==> v - m == t - m + (if t < m then W(i + 1) else 0))
      && (x < mt ==> v < m)
      && (x > mt ==> v >= m)
      && (x == mt ==> (v < m <==> lo < ml))
  {
    hide W, Low, High;
    TopsDecide(x, lo, ml, mt, W(i));
    BelowTwice(x, lo, ml, mt, W(i));
    LostBit(x, lo, ml, mt, i);
  }

  lemma TopsDecide(x: int, lo: nat, ml: nat, mt: int, w: nat)
    requires lo < w && ml < w && x >= 0 && mt >= 0
    ensures var v, m := x * w + lo, ml + mt * w;
      (x < mt ==> v < m) && (x > mt ==> v >= m) && (x == mt ==> (v < m <==> lo < ml))
  {
    if x < mt { MulLe(x + 1, mt, w); MulSplit(x, 1, w); }
    if x > mt { MulLe(mt + 1, x, w); MulSplit(mt, 1, w); }
  }

  lemma BelowTwice(x: int, lo: nat, ml: nat, mt: int, w: nat)
    requires lo < w && 0 <= x < 2 * mt
    ensures x * w + lo < 2 * (ml + mt * w)
  {
    MulLe(x + 1, 2 * mt, w);
    MulSplit(x, 1, w);
    assert 2 * mt * w == 2 * (mt * w);
  }

  /** The bit lost from the top is missing exactly when a subtraction of the modulus wraps. */
  lemma LostBit(x: wide, lo: nat, ml: nat, mt: limb, i: nat)
    requires lo < W(i) && ml < W(i) && x < 2 * (mt as wide)
    ensures var v, m, t := x * W(i) + lo, ml + mt * W(i), Low(x) * W(i) + lo;
      v >= m ==> v - m == t - m + (if t < m then W(i + 1) else 0)
  {
    var w := W(i);
    Carry(Low(x), High(x), i);
    BelowTwice(x, lo, ml, mt, w);
    MulLe(mt, 0xFFFF_FFFF, w);
    if High(x) == 0 { assert High(x) * W(i + 1) == 0; } else { assert High(x) == 1; }
  }

  lemma DropMultiple(a: int, b: int, z: int, m: nat, v: int)
    requires a == b - z * m && Cong(b, v, m)
    ensures Cong(a, v, m)
  {
    assert (-z) * m == -(z * m);
    CongIntro(a, b, m, -z);
    CongTrans(a, b, v, m);
  }

  /** First loop of `mpdomod`: shift target's top limbs into x until mod's top limb `i` is reached. */
  method MpLoadTop(len: nat, target: array<limb>, x0: wide, mod: array<limb>) returns (i: nat, x: wide)
    requires len <= target.Length && len <= mod.Length && target != mod
    requires x0 * W(len) + Num(len, target) < Num(len, mod) * 0x1_0000_0000
    modifies target
    ensures i < len && mod[i] != 0
    ensures Num(len, mod) == Num(i + 1, mod)
    ensures target[..i] == old(target[..i]) && target[len..] == old(target[len..])
    ensures forall k :: i <= k < len ==> target[k] == 0
    ensures x * W(i) + Num(i, target) == x0 * W(len) + old(Num(len, target))
  {
    ghost var was, m, M := target[..], mod[..], Num(len, mod);
    ghost var X: nat := x0 * W(len) + Num(len, target);
    assert m[..len] == mod[..len] && was[..len] == target[..len];
    x := x0;
    WindowLoad(x0, Num(len, target), M, len, m[..len]);
    assert m[..0] == [] && Val(m[..0]) == 0;
    var k := len - 1;
    while k >= 0
      invariant 0 <= k < len
      invariant x < 0x1_0000_0000
      invariant mod[..] == m && M == Val(m[..k + 1])
      invariant target[..k + 1] == was[..k + 1] && target[len..] == was[len..]
      invariant forall l :: k < l < len ==> target[l] == 0
      invariant x * W(k + 1) + Val(was[..k + 1]) == X
    {
      assert target[k] == target[..k + 1][k] == was[k];
      ghost var lo := target[..k];
      assert lo == target[..k + 1][..k];
      ValPush(was, k);
      ValPush(m, k);
      Carry(was[k], x, k);
      x := x * 0x1_0000_0000 + target[k];
      target[k] := 0;
      assert target[..k] == lo == was[..k];
      if mod[k] != 0 {
        assert m[..k + 1] == mod[..k + 1];
        i := k;
        return;
      }
      ValBound(m[..k]);
      WindowSmall(x, Val(was[..k]), M, k);
      k := k - 1;
    }
  }

  /** One round of the second loop of `mpdomod`: subtract a quotient estimate times mod. */
  method MpReduceOnce(i: nat, target: array<limb>, x0: wide, mod: array<limb>, ghost M: nat, ghost X: nat)
    returns (x: wide)
    requires i < target.Length && i < mod.Length && target != mod
    requires M == Num(i, mod) + mod[i] * W(i)
    requires mod[i] != 0 && x0 >= 2 * (mod[i] as wide)
    requires x0 * W(i) + Num(i, target) < M * 0x1_0000_0000
    requires Cong(x0 * W(i) + Num(i, target), X, M)
    modifies target
    ensures target[i..] == old(target[i..])
    ensures x < x0
    ensures x * W(i) + Num(i, target) < M * 0x1_0000_0000
    ensures Cong(x * W(i) + Num(i, target), X, M)
  {
    ghost var lo, ml := Num(i, target), Num(i, mod);
    ValBound(mod[..i]);
    var z := MpQuotient(x0, mod[i], lo, ml, W(i));
    var n := MpSubMul(i, target, mod, z);
    assert Num(i, mod) == ml;
    ReduceOnce(x0, lo, Num(i, target), z, n, ml, mod[i], W(i), X);
    x := x0 - BorrowedProduct(n, z, mod[i]);
  }

  /** `n += mod[i] * z`, which fits 64 bits. */
  function BorrowedProduct(n: wide, z: limb, mt: limb): wide
    requires n <= z
  {
    MulBounds(z, mt);
    n + z * mt
  }

  /** Second loop of `mpdomod`: subtract quotient estimates until x < 2 * mod[i]. */
  method MpReduceTop(i: nat, target: array<limb>, x0: wide, mod: array<limb>) returns (x: wide)
    requires i < target.Length && i < mod.Length && target != mod
    requires mod[i] != 0
    requires x0 * W(i) + Num(i, target) < Num(i + 1, mod) * 0x1_0000_0000
    modifies target
    ensures target[i..] == old(target[i..])
    ensures x < 2 * (mod[i] as wide)
    ensures Cong(x * W(i) + Num(i, target), x0 * W(i) + old(Num(i, target)), Num(i + 1, mod))
  {
    hide W, Val, Cong;
    ghost var X, M := x0 * W(i) + Num(i, target), Num(i + 1, mod);
    ValPush(mod[..], i);
    assert mod[..][..i] == mod[..i] && mod[..][..i + 1] == mod[..i + 1];
    CongRefl(X, M);
    x := x0;
    while x >= 2 * (mod[i] as wide)
      invariant target[i..] == old(target[i..])
      invariant x * W(i) + Num(i, target) < M * 0x1_0000_0000
      invariant Cong(x * W(i) + Num(i, target), X, M)
      decreases x
    {
      x := MpReduceOnce(i, target, x, mod, M, X);
    }
  }

  /** The quotient estimate. It fits 32 bits, so the cap in the source never applies. */
  method MpQuotient(x: wide, mt: limb, ghost lo: nat, ghost ml: nat, ghost w: nat) returns (z: limb)
    requires x >= 2 * (mt as wide) && mt >= 1
    requires x * w + lo < (ml + mt * w) * 0x1_0000_0000 && ml < w
    ensures z >= 1 && z * (mt + 1) <= x
  {
    QuotientFits(x, lo, ml, mt, w);
    AtLeastOnce(x, mt);
    z := x / (mt + 1);
  }

  /** One round of the second loop lowers x and keeps the residue. */
  lemma ReduceOnce(x: nat, lo: nat, lo': nat, z: nat, n: nat, ml: nat, mt: limb, w: nat, X: nat)
    requires lo' == lo - z * ml + n * w
    requires n <= z && z * (mt + 1) <= x && z >= 1 && mt >= 1
    requires Cong(x * w + lo, X, ml + mt * w)
    ensures 1 <= n + z * mt <= x
    ensures (x - (n + z * mt)) * w + lo' <= x * w + lo
    ensures Cong((x - (n + z * mt)) * w + lo', X, ml + mt * w)
  {
    EstimateStep(x, lo, lo', z, n, ml, mt, w);
    Commute(z, mt);
    MulLe(1, mt, z);
    MulLe(0, mt, w);
    MulLe(0, z, ml + mt * w);
    DropMultiple((x - (n + mt * z)) * w + lo', x * w + lo, z, ml + mt * w, X);
  }

  /** Tail of `mpdomod`: store x, which may be cut to 32 bits, and subtract mod at most once. */
  method MpFinishTop(i: nat, target: array<limb>, x: wide, mod: array<limb>)
    requires i < target.Length && i < mod.Length && target != mod
    requires x < 2 * (mod[i] as wide)
    modifies target
    ensures target[i + 1..] == old(target[i + 1..])
    ensures Num(i + 1, target) < Num(i + 1, mod)
    ensures Cong(Num(i + 1, target), x * W(i) + old(Num(i, target)), Num(i + 1, mod))
  {
    hide Val, Cong;
    ghost var lo, M, w, hi := target[..i], Num(i + 1, mod), W(i), target[i + 1..];
    ghost var v := x * w + Val(lo);
    ValPush(mod[..], i);
    assert mod[..][..i] == mod[..i] && mod[..][..i + 1] == mod[..i + 1];
    ValBound(lo); ValBound(mod[..i]);
    LastSubtraction(x, Val(lo), Num(i, mod), mod[i], i);
    target[i] := Low(x);
    ValPush(target[..], i);
    assert target[..][..i] == target[..i] == lo && target[..][..i + 1] == target[..i + 1];
    assert target[i + 1..] == hi;
    var less := MpIsLess(i, target, mod);
    CongRefl(v, M);
    if x > mod[i] || (x == mod[i] && !less) {
      MpSubMod(i + 1, target, mod);
      DropMultiple(v - M, v, 1, M, v);
    }
  }

  /** target = (x * W(len) + target) % mod, for operands below mod << 32. */
  method MpDoMod(len: nat, target: array<limb>, x: wide, mod: array<limb>)
    requires len <= target.Length && len <= mod.Length && target != mod
    requires x * W(len) + Num(len, target) < Num(len, mod) * 0x1_0000_0000
    modifies target
    ensures target[len..] == old(target[len..])
    ensures Num(len, target) < Num(len, mod)
    ensures Cong(Num(len, target), x * W(len) + old(Num(len, target)), Num(len, mod))
  {
    ghost var X, M := x * W(len) + Num(len, target), Num(len, mod);
    var i, y := MpLoadTop(len, target, x, mod);
    assert M == Num(i + 1, mod) && y * W(i) + Num(i, target) == X;
    ghost var top := target[i..];
    y := MpReduceTop(i, target, y, mod);
    ghost var v := y * W(i) + Num(i, target);
    assert Cong(v, X, M);
    assert target[i + 1..] == target[i..][1..] == top[1..];
    MpFinishTop(i, target, y, mod);
    CongTrans(Num(i + 1, target), v, X, M);
    assert target[i + 1..] == top[1..];
    TailIsZero(len, i, target[..], top);
    assert target[..][..len] == target[..len] && target[..][..i + 1] == target[..i + 1];
    assert target[len..] == target[i + 1..][len - i - 1..] == top[1..][len - i - 1..] == top[len - i..];
  }

  lemma TailIsZero(len: nat, i: nat, s: seq<limb>, top: seq<limb>)
    requires i < len <= |s| && |top| == |s| - i
    requires s[i + 1..] == top[1..]
    requires forall k :: 0 <= k < len - i ==> top[k] == 0
    ensures Val(s[..len]) == Val(s[..i + 1])
  {
    forall k | i < k < len ensures s[k] == 0 { assert s[k] == s[i + 1..][k - i - 1] == top[1..][k - i - 1]; }
    ValZeroTail(s[..len], i + 1);
    assert s[..len][..i + 1] == s[..i + 1];
  }

  lemma AtLeastOnce(x: nat, mt: nat)
    requires x >= 2 * mt && mt >= 1
    ensures x / (mt + 1) >= 1
  {
  }

  /** The initial word is below 2^32, and mod is not zero. */
  lemma WindowLoad(x: nat, t: nat, M: nat, len: nat, m: seq<limb>)
    requires |m| == len && M == Val(m)
    requires x * W(len) + t < M * 0x1_0000_0000
    ensures x < 0x1_0000_0000 && M > 0 && len > 0
  {
    ValBound(m);
    WindowSmall(x, t, M, len);
  }

  /** One limb of target + src * m, at weight W(i). */
  lemma MulAddStep(was: seq<limb>, now: seq<limb>, src: seq<limb>, i: nat, m: nat, x0: nat, x: nat)
    requires i < |was| && i < |now| && i < |src|
    requires Val(now[..i]) + x0 * W(i) == Val(was[..i]) + Val(src[..i]) * m
    requires now[i] + x * 0x1_0000_0000 == x0 + src[i] * m + was[i]
    ensures Val(now[..i + 1]) + x * W(i + 1) == Val(was[..i + 1]) + Val(src[..i + 1]) * m
  {
    ValPush(was, i); ValPush(now, i); ValPush(src, i);
    Carry(now[i], x, i);
    Rescale(x0, src[i], m, was[i], W(i));
    MulSplit(Val(src[..i]), src[i] * W(i), m);
  }

  lemma Rescale(x: int, s: int, m: int, t: int, w: int)
    ensures (x + s * m + t) * w == x * w + s * w * m + t * w
  {
    MulSplit(x + s * m, t, w);
    MulSplit(x, s * m, w);
    assert s * m * w == s * w * m;
  }

  /** `x += src[i] * m + target[i]`, which fits 64 bits. */
  function MulAccumulate(x: wide, s: limb, m: limb, t: limb): wide
    requires x < 0x1_0000_0000
  {
    MulBounds(s, m);
    x + s * m + t
  }

  /** target = (target + src * m) % mod. */
  method MpMulAddInt(len: nat, target: array<limb>, src: array<limb>, m: limb, mod: array<limb>)
    requires len <= target.Length && len <= src.Length && len <= mod.Length
    requires target != src && target != mod
    requires Num(len, target) + Num(len, src) * m < Num(len, mod) * 0x1_0000_0000
    modifies target
    ensures target[len..] == old(target[len..])
    ensures Num(len, target) < Num(len, mod)
    ensures Cong(Num(len, target), old(Num(len, target)) + Num(len, src) * m, Num(len, mod))
  {
    ghost var was, sv := target[..], src[..];
    var x: wide := 0;
    for i := 0 to len
      invariant x < 0x1_0000_0000
      invariant target[i..] == was[i..]
      invariant Val(target[..][..i]) + x * W(i) == Val(was[..i]) + Val(sv[..i]) * m
    {
      ghost var x0, lo := x, target[..][..i];
      assert target[i] == target[i..][0] == was[i];
      x := MulAccumulate(x, src[i], m, target[i]);
      target[i] := Low(x);
      x := High(x);
      assert target[..][..i] == lo;
      MulAddStep(was, target[..], sv, i, m, x0, x);
      assert target[i + 1..] == was[i + 1..];
    }
    assert was[..len] == old(target[..len]) && sv[..len] == src[..len] && target[..][..len] == target[..len];
    MpDoMod(len, target, x, mod);
  }

  lemma ValShift(s: seq<limb>)
    ensures Val([0] + s) == 0x1_0000_0000 * Val(s)
  {
    var t := [0] + s;
    ValSplit(t, 1);
    assert t[1..] == s && t[..1] == [0];
    assert W(1) == 0x1_0000_0000 * W(0);
    assert Val([0]) == 0 by { ValZero([0]); }
  }

  /** target = (target * 2^32) % mod. */
  method MpShift(len: nat, target: array<limb>, mod: array<limb>)
    requires len <= target.Length && len <= mod.Length && target != mod
    requires len > 0 ==> Num(len, target) < Num(len, mod)
    modifies target
    ensures target[len..] == old(target[len..])
    ensures len > 0 ==> Num(len, target) < Num(len, mod)
    ensures len > 0 ==> Cong(Num(len, target), old(Num(len, target)) * 0x1_0000_0000, Num(len, mod))
  {
    if len == 0 {
      return;
    }
    ghost var was := target[..len];
    var x := target[len - 1];
    forall k | 1 <= k < len { target[k] := target[k - 1]; }
    target[0] := 0;
    ShiftVal(was, target[..len]);
    MpDoMod(len, target, x, mod);
  }

  lemma ShiftVal(was: seq<limb>, now: seq<limb>)
    requires |was| == |now| > 0
    requires now[0] == 0 && forall k :: 1 <= k < |now| ==> now[k] == was[k - 1]
    ensures was[|was| - 1] * W(|was|) + Val(now) == Val(was) * 0x1_0000_0000
  {
    var n := |was| - 1;
    assert now == [0] + was[..n];
    ValShift(was[..n]);
    Distribute(0x1_0000_0000, Val(was[..n]), was[n], W(n));
  }

  /** The first factor of a modular product: below mod, or equal to it with a one-limb second factor. */
  ghost predicate FactorOk(m1: nat, m2: nat, M: nat) {
    m1 < M || (m1 == M && m2 < 0x1_0000_0000)
  }

  lemma MulAddFits(t: nat, s: nat, m: limb, M: nat)
    requires t < M && s <= M
    ensures t + s * m < M * 0x1_0000_0000
  {
    MulLe(s, M, m);
    Commute(M, m);
    MulLe(m, 0xFFFF_FFFF, M);
  }

  /** One limb of the second factor: target + m1 * m2[..i] grows to target + m1 * m2[..i + 1]. */
  lemma ProductStep(t0: nat, t: nat, t': nat, u: nat, m1: nat, m2: seq<limb>, i: nat, M: nat)
    requires i < |m2|
    requires Cong(t, t0 + m1 * Val(m2[..i]), M) && Cong(u, m1 * W(i), M)
    requires Cong(t', t + u * m2[i], M)
    ensures Cong(t', t0 + m1 * Val(m2[..i + 1]), M)
  {
    ValPush(m2, i);
    ProductArith(t0, t, t', u, m1, Val(m2[..i]), m2[i], W(i), M);
  }

  lemma ProductArith(t0: nat, t: nat, t': nat, u: nat, m1: nat, v: nat, d: nat, w: nat, M: nat)
    requires Cong(t, t0 + m1 * v, M) && Cong(u, m1 * w, M)
    requires Cong(t', t + u * d, M)
    ensures Cong(t', t0 + m1 * (v + d * w), M)
  {
    Distribute(m1, v, d, w);
    CongScale(u, m1 * w, d, M);
    Commute(m1 * w, d);
    CongAdd(t, t0 + m1 * v, u * d, d * (m1 * w), M);
    CongTrans(t', t + u * d, t0 + m1 * (v + d * w), M);
  }

  lemma ShiftStep(u: nat, u': nat, m1: nat, i: nat, M: nat)
    requires Cong(u, m1 * W(i), M) && Cong(u', u * 0x1_0000_0000, M)
    ensures Cong(u', m1 * W(i + 1), M)
  {
    CongScale(u, m1 * W(i), 0x1_0000_0000, M);
    assert m1 * W(i) * 0x1_0000_0000 == m1 * W(i + 1);
    CongTrans(u', u * 0x1_0000_0000, m1 * W(i + 1), M);
  }

  /** target = (target + m1 * m2) % mod. */
  method MpMulAdd(len: nat, target: array<limb>, m1: array<limb>, m2len: nat, m2: array<limb>, tmp: array<limb>,
      mod: array<limb>)
    requires len <= target.Length && len <= m1.Length && len <= tmp.Length && len <= mod.Length && m2len <= m2.Length
    requires target !in {m1, m2, tmp, mod} && tmp !in {m1, m2, mod}
    requires Num(len, target) < Num(len, mod)
    requires FactorOk(Num(len, m1), Num(m2len, m2), Num(len, mod))
    modifies target, tmp
    ensures target[len..] == old(target[len..]) && tmp[len..] == old(tmp[len..])
    ensures Num(len, target) < Num(len, mod)
    ensures Cong(Num(len, target), old(Num(len, target)) + Num(len, m1) * Num(m2len, m2), Num(len, mod))
  {
    hide Cong;
    ghost var t0, M, f1, f2 := Num(len, target), Num(len, mod), Num(len, m1), m2[..];
    assert f2[..m2len] == m2[..m2len];
    var j := MpTop(m2len, m2);
    assert m2[..j + 1] == f2[..j + 1];
    CongRefl(t0, M);
    CongRefl(f1, M);
    if j < 0 {
      return;
    }
    assert f1 * W(0) == f1 && f1 * Val(f2[..0]) == 0;
    MpCpy(len, tmp, m1);
    for i := 0 to j
      invariant target[len..] == old(target[len..]) && tmp[len..] == old(tmp[len..])
      invariant Num(len, tmp) < M || (i == j == 0 && Num(len, tmp) == M)
      invariant Num(len, target) < M
      invariant Cong(Num(len, tmp), f1 * W(i), M)
      invariant Cong(Num(len, target), t0 + f1 * Val(f2[..i]), M)
    {
      ghost var t, u := Num(len, target), Num(len, tmp);
      MpAddTerm(len, target, tmp, m2[i], mod);
      ProductStep(t0, t, Num(len, target), u, f1, f2, i, M);
      MpShift(len, tmp, mod);
      ShiftStep(u, Num(len, tmp), f1, i, M);
    }
    ghost var t, u := Num(len, target), Num(len, tmp);
    MpAddTerm(len, target, tmp, m2[j], mod);
    ProductStep(t0, t, Num(len, target), u, f1, f2, j, M);
  }

  /** The index of the highest non-zero limb, or -1. */
  method MpTop(len: nat, a: array<limb>) returns (j: int)
    requires len <= a.Length
    ensures -1 <= j < len
    ensures j >= 0 ==> a[j] != 0
    ensures Num(j + 1, a) == Num(len, a)
    ensures j < 0 <==> Num(len, a) == 0
    ensures j > 0 ==> Num(len, a) >= 0x1_0000_0000
  {
    j := len - 1;
    while j >= 0
      invariant -1 <= j < len
      invariant forall k :: j < k < len ==> a[k] == 0
    {
      if a[j] != 0 {
        break;
      }
      j := j - 1;
    }
    ValZeroTail(a[..len], j + 1);
    assert a[..len][..j + 1] == a[..j + 1];
    if j >= 0 {
      ValPush(a[..], j);
      assert a[..][..j + 1] == a[..j + 1];
      MulLe(1, a[j], W(j));
    }
  }

  /** `if (m2[i]) mpmul_add_int(...)`: a zero limb adds nothing. */
  method MpAddTerm(len: nat, target: array<limb>, src: array<limb>, d: limb, mod: array<limb>)
    requires len <= target.Length && len <= src.Length && len <= mod.Length
    requires target != src && target != mod
    requires Num(len, target) < Num(len, mod) && Num(len, src) <= Num(len, mod)
    modifies target
    ensures target[len..] == old(target[len..])
    ensures Num(len, target) < Num(len, mod)
    ensures Cong(Num(len, target), old(Num(len, target)) + Num(len, src) * d, Num(len, mod))
  {
    MulAddFits(Num(len, target), Num(len, src), d, Num(len, mod));
    CongRefl(Num(len, target), Num(len, mod));
    if d != 0 {
      MpMulAddInt(len, target, src, d, mod);
    }
  }

  /** target = (target * m) % mod; `m` may be `target` itself. */
  method MpMulInplace(len: nat, target: array<limb>, m: array<limb>, tmp1: array<limb>, tmp2: array<limb>,
                      mod: array<limb>)
    requires len <= target.Length && len <= m.Length && len <= tmp1.Length && len <= tmp2.Length && len <= mod.Length
    requires target != mod && tmp1 !in {target, m, tmp2, mod} && tmp2 !in {target, m, mod}
    requires Num(len, mod) > 0
    requires FactorOk(Num(len, target), Num(len, m), Num(len, mod))
    modifies target, tmp1, tmp2
    ensures target[len..] == old(target[len..])
    ensures Num(len, target) < Num(len, mod)
    ensures Cong(Num(len, target), old(Num(len, target)) * old(Num(len, m)), Num(len, mod))
  {
    MpZero(len, tmp1);
    MpMulAdd(len, tmp1, target, len, m, tmp2, mod);
    MpCpy(len, target, tmp1);
  }

  ghost function ModMul(a: nat, b: nat, m: nat): nat
    requires m > 0
  {
    MulLe(0, a, b);
    a * b % m
  }

  /** target = (m1 * m2) % mod. */
  method MpMul(len: nat, target: array<limb>, m1: array<limb>, m2len: nat, m2: array<limb>, mod: array<limb>)
    requires len <= target.Length && len <= m1.Length && len <= mod.Length && m2len <= m2.Length
    requires target !in {m1, m2, mod}
    requires Num(len, mod) > 0
    requires FactorOk(Num(len, m1), Num(m2len, m2), Num(len, mod))
    modifies target
    ensures target[len..] == old(target[len..])
    ensures Num(len, target) == ModMul(Num(len, m1), Num(m2len, m2), Num(len, mod))
  {
    var tmp := new limb[len](_ => 0);
    MpZero(len, target);
    MpMulAdd(len, target, m1, m2len, m2, tmp, mod);
    MulLe(0, Num(len, m1), Num(m2len, m2));
    CongIsMod(Num(len, target), Num(len, m1) * Num(m2len, m2), Num(len, mod));
  }

  // ----- exponentiation -----

  /** The power table: distinct arrays, slot k holding b^k for 1 <= k < 16; slots 0 and 16 are scratch. */
  ghost predicate Table(len: nat, t: seq<array<limb>>, b: nat, M: nat)
    reads set a | a in t
  {
    && |t| == 17
    && (forall i, j :: 0 <= i < j < 17 ==> t[i] != t[j])
    && (forall i :: 0 <= i < 17 ==> len <= t[i].Length)
    && (forall k :: 1 <= k < 16 ==> Num(len, t[k]) < M && Cong(Num(len, t[k]), Pow(b, k), M))
  }

  lemma SquareStep(x: nat, y: nat, b: nat, e: nat, M: nat)
    requires Cong(x, Pow(b, e), M) && Cong(y, x * x, M)
    ensures Cong(y, Pow(b, 2 * e), M)
  {
    CongMul(x, Pow(b, e), x, Pow(b, e), M);
    PowPlus(b, e, e);
    CongTrans(y, x * x, Pow(b, 2 * e), M);
  }

  lemma TimesStep(x: nat, y: nat, f: nat, b: nat, e: nat, k: nat, M: nat)
    requires Cong(x, Pow(b, e), M) && Cong(f, Pow(b, k), M) && Cong(y, x * f, M)
    ensures Cong(y, Pow(b, e + k), M)
  {
    CongMul(x, Pow(b, e), f, Pow(b, k), M);
    PowPlus(b, e, k);
    CongTrans(y, x * f, Pow(b, e + k), M);
  }

  /** target = target^2 % mod, with the exponent it stands for. */
  method MpSquare(len: nat, target: array<limb>, tmp1: array<limb>, tmp2: array<limb>, mod: array<limb>,
      ghost b: nat, ghost E: nat)
    requires len <= target.Length && len <= tmp1.Length && len <= tmp2.Length && len <= mod.Length
    requires target != mod && tmp1 !in {target, tmp2, mod} && tmp2 !in {target, mod}
    requires Num(len, target) < Num(len, mod) || (Num(len, target) == Num(len, mod) == 1)
    requires Cong(Num(len, target), Pow(b, E), Num(len, mod))
    modifies target, tmp1, tmp2
    ensures target[len..] == old(target[len..])
    ensures Num(len, target) < Num(len, mod)
    ensures Cong(Num(len, target), Pow(b, 2 * E), Num(len, mod))
  {
    hide Pow, W, Val, Cong;
    ghost var x := Num(len, target);
    MpMulInplace(len, target, target, tmp1, tmp2, mod);
    SquareStep(x, Num(len, target), b, E, Num(len, mod));
  }

  /** target = target^16 * b^e % mod, from the table of small powers. */
  method MpPowInt(len: nat, target: array<limb>, t: seq<array<limb>>, mod: array<limb>, e: nat, ghost b: nat,
                  ghost E: nat)
    requires len <= target.Length && len <= mod.Length
    requires Table(len, t, b, Num(len, mod))
    requires target != mod && target !in t && mod !in t
    requires e < 16
    requires Num(len, target) < Num(len, mod) || (Num(len, target) == Num(len, mod) == 1)
    requires Cong(Num(len, target), Pow(b, E), Num(len, mod))
    modifies target, t[0], t[16]
    ensures Table(len, t, b, Num(len, mod))
    ensures target[len..] == old(target[len..])
    ensures Num(len, target) < Num(len, mod)
    ensures Cong(Num(len, target), Pow(b, 16 * E + e), Num(len, mod))
  {
    hide Pow, W, Val, Cong;
    MpSquare(len, target, t[0], t[16], mod, b, E);
    MpSquare(len, target, t[0], t[16], mod, b, 2 * E);
    MpSquare(len, target, t[0], t[16], mod, b, 4 * E);
    MpSquare(len, target, t[0], t[16], mod, b, 8 * E);
    if e != 0 {
      ghost var x := Num(len, target);
      MpMulInplace(len, target, t[e], t[0], t[16], mod);
      TimesStep(x, Num(len, target), Num(len, t[e]), b, 16 * E, e, Num(len, mod));
    }
  }

  method MpNewTable(len: nat) returns (t: seq<array<limb>>)
    ensures |t| == 17
    ensures forall i :: 0 <= i < 17 ==> fresh(t[i]) && t[i].Length == len && Num(len, t[i]) == 0
    ensures forall i, j :: 0 <= i < j < 17 ==> t[i] != t[j]
  {
    t := [];
    while |t| < 17
      invariant |t| <= 17
      invariant forall i :: 0 <= i < |t| ==> fresh(t[i]) && t[i].Length == len && Num(len, t[i]) == 0
      invariant forall i, j :: 0 <= i < j < |t| ==> t[i] != t[j]
    {
      var a := new limb[len](_ => 0);
      ValZero(a[..len]);
      t := t + [a];
    }
  }

  /** Fill slots 1 to 15 of the table with the powers of `b`. */
  method MpFillTable(len: nat, t: seq<array<limb>>, b: array<limb>, mod: array<limb>)
    requires len <= b.Length && len <= mod.Length
    requires |t| == 17 && b !in t && mod !in t
    requires forall i :: 0 <= i < 17 ==> t[i].Length == len && Num(len, t[i]) == 0
    requires forall i, j :: 0 <= i < j < 17 ==> t[i] != t[j]
    requires Num(len, b) < Num(len, mod)
    modifies t
    ensures Table(len, t, Num(len, b), Num(len, mod))
  {
    hide Pow, W, Val, Cong;
    ghost var B, M := Num(len, b), Num(len, mod);
    PowSmall(B);
    MpCpy(len, t[1], b);
    CongRefl(B, M);
    for j := 2 to 16
      invariant Num(len, b) == B && Num(len, mod) == M
      invariant forall k :: 1 <= k < j ==> Num(len, t[k]) < M && Cong(Num(len, t[k]), Pow(B, k), M)
      invariant forall k :: j <= k < 16 ==> Num(len, t[k]) == 0
    {
      MpMulAdd(len, t[j], b, len, t[j - 1], t[16], mod);
      NextPower(Num(len, t[j]), Num(len, t[j - 1]), B, j, M);
    }
  }

  lemma PowSmall(b: nat)
    ensures Pow(b, 0) == 1 && Pow(b, 1) == b
  {
    assert Pow(b, 1) == b * Pow(b, 0);
  }

  lemma NextPower(x: nat, y: nat, b: nat, j: nat, M: nat)
    requires j > 0 && Cong(y, Pow(b, j - 1), M) && Cong(x, 0 + b * y, M)
    ensures Cong(x, Pow(b, j), M)
  {
    CongScale(y, Pow(b, j - 1), b, M);
    Commute(b, y);
    Commute(b, Pow(b, j - 1));
    CongTrans(x, b * y, Pow(b, j), M);
  }

  /** `e >> 4*k`. */
  function ShiftRight4(e: limb, k: nat): limb {
    if k == 0 then e else ShiftRight4(e, k - 1) / 16
  }

  /** `(e >> 4*k) & 0x0f`. */
  function Nibble(e: limb, k: nat): (n: nat)
    ensures n < 16
  {
    ShiftRight4(e, k) % 16
  }

  /** The exponent after the `j` highest nibbles of `e` were appended to `E`. */
  ghost function Fold(e: limb, E: nat, j: nat): nat
    requires j <= 8
  {
    if j == 0 then E else 16 * Fold(e, E, j - 1) + Nibble(e, 8 - j)
  }

  /** The eight nibbles of a limb rebuild it. */
  lemma NibblesRebuild(e: limb, E: nat)
    ensures Fold(e, E, 8) == E * 0x1_0000_0000 + e
  {
    var e2, e4, e6 := ShiftRight4(e, 2), ShiftRight4(e, 4), ShiftRight4(e, 6);
    assert e == 256 * e2 + 16 * Nibble(e, 1) + Nibble(e, 0);
    assert e2 == 256 * e4 + 16 * Nibble(e, 3) + Nibble(e, 2);
    assert e4 == 256 * e6 + 16 * Nibble(e, 5) + Nibble(e, 4);
    TopByte(e);
    FoldTwice(e, E, 0); FoldTwice(e, E, 2); FoldTwice(e, E, 4); FoldTwice(e, E, 6);
  }

  lemma TopByte(e: limb)
    ensures ShiftRight4(e, 6) == 16 * Nibble(e, 7) + Nibble(e, 6)
  {
    assert ShiftRight4(e, 2) < 0x100_0000;
    assert ShiftRight4(e, 4) < 0x1_0000;
    assert ShiftRight4(e, 6) < 0x100;
  }

  lemma FoldTwice(e: limb, E: nat, j: nat)
    requires j <= 6
    ensures Fold(e, E, j + 2) == 256 * Fold(e, E, j) + 16 * Nibble(e, 7 - j) + Nibble(e, 6 - j)
    ensures Fold(e, E, 0) == E
  {
  }

  /** The eight `mppow_int` calls for one exponent limb: target^(2^32) * b^e. */
  method MpPowLimb(len: nat, target: array<limb>, t: seq<array<limb>>, mod: array<limb>, e: limb, ghost b: nat,
                   ghost E: nat)
    requires len <= target.Length && len <= mod.Length
    requires Table(len, t, b, Num(len, mod))
    requires target != mod && target !in t && mod !in t
    requires Num(len, target) < Num(len, mod) || (Num(len, target) == Num(len, mod) == 1)
    requires Cong(Num(len, target), Pow(b, E), Num(len, mod))
    modifies target, t[0], t[16]
    ensures Table(len, t, b, Num(len, mod))
    ensures target[len..] == old(target[len..])
    ensures Num(len, target) < Num(len, mod)
    ensures Cong(Num(len, target), Pow(b, E * 0x1_0000_0000 + e), Num(len, mod))
  {
    hide Pow, W, Val, Cong;
    NibblesRebuild(e, E);
    for j := 0 to 8
      invariant Table(len, t, b, Num(len, mod))
      invariant target[len..] == old(target[len..])
      invariant Num(len, target) < Num(len, mod) || (j == 0 && Num(len, target) == Num(len, mod) == 1)
      invariant Cong(Num(len, target), Pow(b, Fold(e, E, j)), Num(len, mod))
    {
      MpPowInt(len, target, t, mod, Nibble(e, 7 - j), b, Fold(e, E, j));
    }
  }

  /** The number read off the limbs from index i up. */
  ghost function TopPart(s: seq<limb>, i: nat): nat
    requires i <= |s|
  {
    Val(s[i..])
  }

  lemma TopPartStep(s: seq<limb>, i: nat)
    requires i < |s|
    ensures TopPart(s, i) == TopPart(s, i + 1) * 0x1_0000_0000 + s[i]
    ensures TopPart(s, 0) == Val(s)
  {
    hide Val, W;
    assert s[0..] == s;
    ValHead(s[i..]);
    assert s[i..][1..] == s[i + 1..];
  }

  lemma ValHead(t: seq<limb>)
    requires |t| > 0
    ensures Val(t) == Val(t[1..]) * 0x1_0000_0000 + t[0]
  {
    hide Val, W;
    ValSplit(t, 1);
    ValOne(t[..1]);
  }

  lemma ValOne(t: seq<limb>)
    requires |t| == 1
    ensures Val(t) == t[0] && W(1) == 0x1_0000_0000
  {
    assert W(1) == 0x1_0000_0000 * W(0) && W(0) == 1;
    assert t[..0] == [];
  }

  /** What `mppow` computes: the empty exponent leaves 1, unreduced. */
  ghost function PowMod(b: nat, e: nat, M: nat): nat
    requires M > 0
  {
    if e == 0 then 1 else Pow(b, e) % M
  }

  /** target = b^e % mod, for b < mod. */
  method MpPow(len: nat, target: array<limb>, b: array<limb>, elen: nat, e: array<limb>, mod: array<limb>)
    requires 0 < len <= target.Length && len <= b.Length && len <= mod.Length && elen <= e.Length
    requires target !in {b, e, mod}
    requires Num(len, b) < Num(len, mod)
    modifies target
    ensures target[len..] == old(target[len..])
    ensures Num(len, target) == PowMod(Num(len, b), Num(elen, e), Num(len, mod))
  {
    hide Pow, W, Val, Cong;
    PowSmall(Num(len, b));
    ghost var B, M, ev := Num(len, b), Num(len, mod), e[..elen];
    MpZero(len, target);
    target[0] := 1;
    OneVal(target[..len]);
    var i := MpTop(elen, e);
    if i < 0 {
      return;
    }
    assert e[..i + 1] == ev[..i + 1];
    TopSplit(ev, i);
    var t := MpNewTable(len);
    MpFillTable(len, t, b, mod);
    CongRefl(1, M);
    MpPowLoop(len, target, t, elen, e, i, mod, B);
    CongIsMod(Num(len, target), Pow(B, Val(ev)), M);
  }

  /** The main loop of `mppow`, from the highest non-zero exponent limb down. */
  method MpPowLoop(len: nat, target: array<limb>, t: seq<array<limb>>, elen: nat, e: array<limb>, top: nat,
      mod: array<limb>, ghost b: nat)
    requires len <= target.Length && len <= mod.Length && top < elen <= e.Length
    requires TopPart(e[..elen], top + 1) == 0
    requires Table(len, t, b, Num(len, mod))
    requires target !in {mod, e} && target !in t && mod !in t && e !in t
    requires Num(len, target) < Num(len, mod) || (Num(len, target) == Num(len, mod) == 1)
    requires Cong(Num(len, target), 1, Num(len, mod))
    modifies target, t[0], t[16]
    ensures target[len..] == old(target[len..])
    ensures Num(len, target) < Num(len, mod)
    ensures Cong(Num(len, target), Pow(b, Num(elen, e)), Num(len, mod))
  {
    hide Pow, W, Val, Cong, TopPart;
    PowSmall(b);
    ghost var ev, E: nat := e[..elen], 0;
    var i: int := top;
    while i >= 0
      invariant -1 <= i <= top
      invariant E == TopPart(ev, i + 1)
      invariant Table(len, t, b, Num(len, mod))
      invariant target[len..] == old(target[len..])
      invariant Num(len, target) < Num(len, mod) || (i == top && Num(len, target) == Num(len, mod) == 1)
      invariant Cong(Num(len, target), Pow(b, E), Num(len, mod))
    {
      MpPowLimb(len, target, t, mod, e[i], b, E);
      assert ev[i] == e[i];
      TopPartStep(ev, i);
      E := E * 0x1_0000_0000 + ev[i];
      i := i - 1;
    }
    TopPartStep(ev, 0);
  }

  lemma OneVal(s: seq<limb>)
    requires |s| > 0 && s[0] == 1 && forall k :: 1 <= k < |s| ==> s[k] == 0
    ensures Val(s) == 1
  {
    ValZeroTail(s, 1);
    assert s[..1][..0] == [] && W(0) == 1;
  }

  /** Above the highest non-zero limb the exponent is zero. */
  lemma TopSplit(ev: seq<limb>, i: nat)
    requires i < |ev| && Val(ev) == Val(ev[..i + 1])
    ensures TopPart(ev, i + 1) == 0
  {
    ValSplit(ev, i + 1);
    if Val(ev[i + 1..]) != 0 {
      MulLe(1, Val(ev[i + 1..]), W(i + 1));
      Commute(W(i + 1), Val(ev[i + 1..]));
      assert false;
    }
  }

  // ----- signature checks -----

  /** RSA verification: accept iff m and c are reduced and m^e mod n is c. */
  method MpRsa(nl: nat, n: array<limb>, el: nat, e: array<limb>, m: array<limb>, c: array<limb>) returns (res: bool)
    requires nl <= n.Length && el <= e.Length && nl <= m.Length && nl <= c.Length
    ensures res <==> Num(nl, m) < Num(nl, n) && Num(nl, c) < Num(nl, n)
                     && PowMod(Num(nl, m), Num(el, e), Num(nl, n)) == Num(nl, c)
  {
    var less := MpIsLess(nl, m, n);
    if !less {
      return false;
    }
    less := MpIsLess(nl, c, n);
    if !less {
      return false;
    }
    ValBound(n[..nl]);
    var tmp := new limb[nl](_ => 0);
    MpPow(nl, tmp, m, el, e, n);
    res := MpIsEqual(nl, tmp, c);
  }

  /** The check is the textbook one, c == m^e mod n, except for modulus 1 with exponent 0. */
  lemma RsaIsTextbook(m: nat, e: nat, n: nat, c: nat)
    requires m < n && c < n
    ensures (PowMod(m, e, n) == c <==> Pow(m, e) % n == c) <==> !(n == 1 && e == 0)
  {
    if e == 0 && n > 1 { assert Pow(m, e) == 1; assert 1 % n == 1; }
    if e == 0 && n == 1 { assert Pow(m, 0) == 1; }
  }
}
