/** Modular addition and subtraction, and the DSA check built on all of the limb arithmetic. */
module MpField {
  import opened Limbs
  import opened MpArith

  /** One limb of a + b with carry: now[i] + x*BASE == x0 + a[i] + b[i], at weight W(i). */
  lemma AddStep(now: seq<limb>, a: seq<limb>, b: seq<limb>, i: nat, x0: nat, x: nat)
    requires i < |now| && i < |a| && i < |b|
    requires Val(now[..i]) + x0 * W(i) == Val(a[..i]) + Val(b[..i])
    requires now[i] + x * 0x1_0000_0000 == x0 + a[i] + b[i]
    ensures Val(now[..i + 1]) + x * W(i + 1) == Val(a[..i + 1]) + Val(b[..i + 1])
  {
    hide Val;
    ValPush(now, i); ValPush(a, i); ValPush(b, i);
    Carry(now[i], x, i);
    MulSplit(x0 + a[i], b[i], W(i));
    MulSplit(x0, a[i], W(i));
  }

  /** target = a + b on `len` limbs; the result is the carry. `target` may be `a` or `b`. */
  method MpAddRaw(len: nat, target: array<limb>, a: array<limb>, b: array<limb>) returns (x: wide)
    requires len <= target.Length && len <= a.Length && len <= b.Length
    modifies target
    ensures target[len..] == old(target[len..])
    ensures x <= 1
    ensures Num(len, target) + x * W(len) == old(Num(len, a)) + old(Num(len, b))
  {
    hide Val, W;
    ghost var av, bv := a[..], b[..];
    CarryStart(target[..], av, bv);
    x := 0;
    for i := 0 to len
      invariant x <= 1
      invariant target[len..] == old(target[len..])
      invariant a[i..] == av[i..] && b[i..] == bv[i..]
      invariant Val(target[..][..i]) + x * W(i) == Val(av[..i]) + Val(bv[..i])
    {
      ghost var x0, lo := x, target[..][..i];
      assert a[i] == a[i..][0] == av[i] && b[i] == b[i..][0] == bv[i];
      x := x + a[i] + b[i];
      target[i] := Low(x);
      x := High(x);
      assert target[..][..i] == lo;
      AddStep(target[..], av, bv, i, x0, x);
      assert a[i + 1..] == av[i + 1..] && b[i + 1..] == bv[i + 1..];
    }
    assert target[..][..len] == target[..len];
    assert av[..len] == old(a[..len]) && bv[..len] == old(b[..len]);
  }

  lemma CarryStart(now: seq<limb>, a: seq<limb>, b: seq<limb>)
    ensures Val(now[..0]) == 0 && Val(a[..0]) == 0 && Val(b[..0]) == 0
  {
  }

  /** Comparing the top limbs and then the rest compares the numbers. */
  method MpTopNotLess(len: nat, a: array<limb>, b: array<limb>) returns (r: bool)
    requires 0 < len <= a.Length && len <= b.Length
    ensures r <==> Num(len, a) >= Num(len, b)
  {
    hide Val, W;
    ghost var av, bv := a[..len], b[..len];
    if a[len - 1] > b[len - 1] {
      TopDecides(bv, av, len - 1);
      return true;
    }
    if a[len - 1] < b[len - 1] {
      TopDecides(av, bv, len - 1);
      return false;
    }
    var less := MpIsLess(len - 1, a, b);
    assert av[len - 1..] == bv[len - 1..] == [a[len - 1]];
    assert av[..len - 1] == a[..len - 1] && bv[..len - 1] == b[..len - 1];
    SameTopOrder(av, bv, len - 1);
    r := !less;
  }

  lemma ReduceOnceMod(s: nat, m: nat)
    requires 0 < m && s < 2 * m
    ensures s % m == if s < m then s else s - m
  {
    if s < m {
      CongRefl(s, m);
      CongIsMod(s, s, m);
    } else {
      CongIntro(s - m, s, m, -1);
      CongIsMod(s - m, s, m);
    }
  }

  /** target = (m1 + m2) % mod; `target` may be `m1` or `m2`. */
  method MpAdd(len: nat, target: array<limb>, m1: array<limb>, m2: array<limb>, mod: array<limb>)
    requires 0 < len <= target.Length && len <= m1.Length && len <= m2.Length && len <= mod.Length
    requires target != mod
    requires Num(len, m1) < Num(len, mod) && Num(len, m2) < Num(len, mod)
    modifies target
    ensures target[len..] == old(target[len..])
    ensures Num(len, target) == (old(Num(len, m1)) + old(Num(len, m2))) % Num(len, mod)
  {
    hide Val, W;
    ghost var s, M := Num(len, m1) + Num(len, m2), Num(len, mod);
    ReduceOnceMod(s, M);
    var x := MpAddRaw(len, target, m1, m2);
    ValBound(target[..len]); ValBound(mod[..len]);
    assert x * W(len) == if x == 0 then 0 else W(len);
    var ge := MpTopNotLess(len, target, mod);
    if x != 0 || ge {
      MpSubMod(len, target, mod);
    }
  }

  /** One limb of a - b with borrow, at weight W(i). */
  lemma SubStep(now: seq<limb>, a: seq<limb>, b: seq<limb>, i: nat, x0: nat, x: nat)
    requires i < |now| && i < |a| && i < |b|
    requires Val(now[..i]) == Val(a[..i]) - Val(b[..i]) + x0 * W(i)
    requires now[i] == a[i] - b[i] - x0 + x * 0x1_0000_0000
    ensures Val(now[..i + 1]) == Val(a[..i + 1]) - Val(b[..i + 1]) + x * W(i + 1)
  {
    hide Val, W;
    ValPush(now, i); ValPush(a, i); ValPush(b, i);
    BorrowStep(a[i], b[i], x0, now[i], x, i);
  }

  /** `(mp2_t)a - b - x`: the 64-bit difference, wrapping. */
  function WideDiff(a: limb, b: limb, x: wide): (d: wide)
    requires x <= 1
    ensures var borrow := if a < b + x then 1 else 0;
      && Low(d) == a - b - x + borrow * 0x1_0000_0000
      && High(d) % 2 == borrow
  {
    if a >= b + x then a - b - x else 0x1_0000_0000_0000_0000 + a - b - x
  }

  /** target = a - b on `len` limbs; the result is the borrow, bit 32 of the wrapped difference. */
  method MpSubRaw(len: nat, target: array<limb>, a: array<limb>, b: array<limb>) returns (x: wide)
    requires len <= target.Length && len <= a.Length && len <= b.Length
    modifies target
    ensures target[len..] == old(target[len..])
    ensures x <= 1
    ensures Num(len, target) == old(Num(len, a)) - old(Num(len, b)) + x * W(len)
  {
    hide Val, W;
    ghost var av, bv := a[..], b[..];
    CarryStart(target[..], av, bv);
    x := 0;
    for i := 0 to len
      invariant x <= 1
      invariant target[len..] == old(target[len..])
      invariant a[i..] == av[i..] && b[i..] == bv[i..]
      invariant Val(target[..][..i]) == Val(av[..i]) - Val(bv[..i]) + x * W(i)
    {
      ghost var x0, lo := x, target[..][..i];
      assert a[i] == a[i..][0] == av[i] && b[i] == b[i..][0] == bv[i];
      x := WideDiff(a[i], b[i], x);
      target[i] := Low(x);
      x := High(x) % 2;
      assert target[..][..i] == lo;
      SubStep(target[..], av, bv, i, x0, x);
      assert a[i + 1..] == av[i + 1..] && b[i + 1..] == bv[i + 1..];
    }
    assert target[..][..len] == target[..len];
    assert av[..len] == old(a[..len]) && bv[..len] == old(b[..len]);
  }

  /** target = (m1 - m2) % mod; `target` may be `m1` or `m2`. */
  method MpSub(len: nat, target: array<limb>, m1: array<limb>, m2: array<limb>, mod: array<limb>)
    requires len <= target.Length && len <= m1.Length && len <= m2.Length && len <= mod.Length
    requires target != mod
    requires Num(len, m1) <= Num(len, mod) && Num(len, m2) < Num(len, mod)
    modifies target
    ensures target[len..] == old(target[len..])
    ensures Num(len, target) == old(Num(len, m1)) - old(Num(len, m2))
                                + (if old(Num(len, m1)) < old(Num(len, m2)) then Num(len, mod) else 0)
  {
    hide Val, W;
    ghost var a, b, M := Num(len, m1), Num(len, m2), Num(len, mod);
    var x := MpSubRaw(len, target, m1, m2);
    ValBound(target[..len]); ValBound(mod[..len]);
    assert x * W(len) == if x == 0 then 0 else W(len);
    if x != 0 {
      x := MpAddRaw(len, target, target, mod);
      assert x * W(len) == if x == 0 then 0 else W(len);
      ValBound(target[..len]);
    }
  }

  /** a -= 1 on `len` limbs, wrapping below zero. */
  method MpDec(len: nat, a: array<limb>)
    requires len <= a.Length
    modifies a
    ensures a[len..] == old(a[len..])
    ensures Num(len, a) == old(Num(len, a)) - 1 + (if old(Num(len, a)) == 0 then W(len) else 0)
  {
    hide Val, W;
    ghost var was := a[..];
    assert was[..len] == a[..len];
    DecStart(a[..], was);
    ValZero(was[..len]);
    for i := 0 to len
      invariant a[i..] == was[i..]
      invariant forall k :: 0 <= k < i ==> was[k] == 0
      invariant Val(a[..][..i]) == Val(was[..i]) - 1 + W(i)
    {
      ghost var lo := a[..][..i];
      assert a[i] == a[i..][0] == was[i];
      var d := a[i];
      a[i] := SubLimb(a[i], 1);
      assert a[..][..i] == lo && a[i + 1..] == was[i + 1..];
      DecStep(a[..], was, i);
      if d != 0 {
        ghost var now := a[..];
        assert now[i + 1..] == was[i + 1..];
        assert now[..len][i + 1..] == was[..len][i + 1..] by {
          assert now[..len][i + 1..] == now[i + 1..][..len - i - 1];
          assert was[..len][i + 1..] == was[i + 1..][..len - i - 1];
        }
        SameTopOrder(now[..len], was[..len], i + 1);
        assert now[..len][..i + 1] == now[..i + 1] && was[..len][..i + 1] == was[..i + 1];
        assert now[..len] == a[..len];
        assert was[..len][i] != 0;
        return;
      }
    }
    assert a[..][..len] == a[..len];
  }

  lemma DecStart(now: seq<limb>, was: seq<limb>)
    ensures Val(now[..0]) == Val(was[..0]) - 1 + W(0)
  {
    assert W(0) == 1;
  }

  lemma DecStep(now: seq<limb>, was: seq<limb>, i: nat)
    requires i < |now| == |was|
    requires Val(now[..i]) == Val(was[..i]) - 1 + W(i)
    requires now[i] == SubLimb(was[i], 1)
    ensures Val(now[..i + 1]) == Val(was[..i + 1]) - 1 + (if was[i] == 0 then W(i + 1) else 0)
  {
    hide Val, W;
    ValPush(now, i); ValPush(was, i);
    var x := if was[i] == 0 then 1 else 0;
    BorrowStep(was[i], 0, 1, now[i], x, i);
  }

  /** DSA: what the verifier computes, over plain numbers. */
  ghost predicate DsaAccepts(p: nat, q: nat, g: nat, y: nat, r: nat, s: nat, h: nat) {
    && g < p && y < p && 0 < r < q && 0 < s < q
    && var w := PowMod(s, q - 2, q);
       var u1 := ModMul(w, h, q);
       var u2 := ModMul(w, r, q);
       ModMul(PowMod(g, u1, p), PowMod(y, u2, p), p) % q == r
  }

  lemma PowModFactor(b: nat, e: nat, m2: nat, M: nat)
    requires b < M && m2 <= M
    ensures PowMod(b, e, M) <= M && (PowMod(b, e, M) == M ==> M == 1)
    ensures FactorOk(PowMod(b, e, M), m2, M)
  {
    hide Pow;
  }

  /** DSA verification over limb arrays. */
  method MpDsa(pl: nat, p: array<limb>, ql: nat, q: array<limb>, g: array<limb>, y: array<limb>,
               r: array<limb>, s: array<limb>, hl: nat, h: array<limb>) returns (res: bool)
    requires pl <= p.Length && ql <= q.Length && pl <= g.Length && pl <= y.Length
    requires ql <= r.Length && ql <= s.Length && hl <= h.Length
    ensures res <==>
      ql <= pl && DsaAccepts(Num(pl, p), Num(ql, q), Num(pl, g), Num(pl, y), Num(ql, r), Num(ql, s), Num(hl, h))
  {
    hide Val, W, Pow, PowMod, ModMul;
    if pl < ql {
      return false;
    }
    var t1 := MpIsLess(pl, g, p);
    var t2 := MpIsLess(pl, y, p);
    if !t1 || !t2 {
      return false;
    }
    t1 := MpIsLess(ql, r, q);
    t2 := MpIsZero(ql, r);
    if !t1 || t2 {
      return false;
    }
    t1 := MpIsLess(ql, s, q);
    t2 := MpIsZero(ql, s);
    if !t1 || t2 {
      return false;
    }
    res := MpDsaCore(pl, p, ql, q, g, y, r, s, hl, h);
  }

  method MpDsaCore(pl: nat, p: array<limb>, ql: nat, q: array<limb>, g: array<limb>, y: array<limb>,
                   r: array<limb>, s: array<limb>, hl: nat, h: array<limb>) returns (res: bool)
    requires pl <= p.Length && ql <= q.Length && pl <= g.Length && pl <= y.Length
    requires ql <= r.Length && ql <= s.Length && hl <= h.Length && ql <= pl
    requires Num(pl, g) < Num(pl, p) && Num(pl, y) < Num(pl, p)
    requires 0 < Num(ql, r) < Num(ql, q) && 0 < Num(ql, s) < Num(ql, q)
    ensures res <==> DsaAccepts(Num(pl, p), Num(ql, q), Num(pl, g), Num(pl, y), Num(ql, r), Num(ql, s), Num(hl, h))
  {
    hide Val, W, Pow, PowMod, ModMul;
    ghost var P, Q, R, S, H := Num(pl, p), Num(ql, q), Num(ql, r), Num(ql, s), Num(hl, h);
    LenPositive(q[..ql]);
    var tmp := new limb[pl](_ => 0);
    MpCpy(ql, tmp, q);
    MpDec(ql, tmp);
    MpDec(ql, tmp);
    var w := new limb[ql](_ => 0);
    MpPow(ql, w, s, ql, tmp, q);
    ghost var W1 := PowMod(S, Q - 2, Q);
    assert Num(ql, w) == W1;
    PowModFactor(S, Q - 2, 0, Q);
    res := MpDsaTail(pl, p, ql, q, g, y, r, hl, h, w, tmp);
  }

  lemma TimesOne(a: nat, m: nat)
    requires m > 0
    ensures ModMul(1, a, m) == a % m
  {
  }

  lemma LenPositive(s: seq<limb>)
    requires Val(s) > 0
    ensures |s| > 0
  {
  }

  /** From w = s^(q-2) on: u1 = w*h, u2 = w*r, (g^u1 * y^u2 mod p) mod q == r. */
  method MpDsaTail(pl: nat, p: array<limb>, ql: nat, q: array<limb>, g: array<limb>, y: array<limb>,
                   r: array<limb>, hl: nat, h: array<limb>, w: array<limb>, tmp: array<limb>) returns (res: bool)
    requires pl <= p.Length && ql <= q.Length && pl <= g.Length && pl <= y.Length
    requires ql <= r.Length && hl <= h.Length && 0 < ql <= pl && w.Length == ql && tmp.Length == pl
    requires tmp !in {p, q, g, y, r, h, w}
    requires Num(pl, g) < Num(pl, p) && Num(pl, y) < Num(pl, p)
    requires Num(ql, w) < Num(ql, q) && 1 < Num(ql, q)
    modifies tmp
    ensures var u1, u2 := ModMul(Num(ql, w), Num(hl, h), Num(ql, q)), ModMul(Num(ql, w), Num(ql, r), Num(ql, q));
      res <==>
        ModMul(PowMod(Num(pl, g), u1, Num(pl, p)), PowMod(Num(pl, y), u2, Num(pl, p)), Num(pl, p)) % Num(ql, q)
          == Num(ql, r)
  {
    hide Val, W, Pow, PowMod, ModMul;
    ghost var P, Q, R, H, W1 := Num(pl, p), Num(ql, q), Num(ql, r), Num(hl, h), Num(ql, w);
    var u1 := new limb[pl](_ => 0);
    MpMul(ql, u1, w, hl, h, q);
    var u2 := new limb[ql](_ => 0);
    MpMul(ql, u2, w, ql, r, q);
    ghost var U1, U2 := ModMul(W1, H, Q), ModMul(W1, R, Q);
    assert Num(ql, u1) == U1 && Num(ql, u2) == U2;
    var gu1 := new limb[pl](_ => 0);
    var yu2 := new limb[pl](_ => 0);
    MpPow(pl, gu1, g, ql, u1, p);
    MpPow(pl, yu2, y, ql, u2, p);
    ghost var G, Y := PowMod(Num(pl, g), U1, P), PowMod(Num(pl, y), U2, P);
    assert Num(pl, gu1) == G && Num(pl, yu2) == Y;
    PowModFactor(Num(pl, y), U2, 0, P);
    PowModFactor(Num(pl, g), U1, Y, P);
    MpMul(pl, u1, gu1, pl, yu2, p);
    assert Num(pl, u1) == ModMul(G, Y, P);
    res := MpDsaCompare(pl, u1, ql, q, r, u2, tmp);
  }

  /** u1 mod q == r, the residue computed as a product with 1. */
  method MpDsaCompare(pl: nat, u1: array<limb>, ql: nat, q: array<limb>, r: array<limb>, u2: array<limb>,
                      tmp: array<limb>) returns (res: bool)
    requires pl == u1.Length && ql <= q.Length && ql <= r.Length && 0 < ql == u2.Length <= pl == tmp.Length
    requires tmp !in {u1, q, r, u2} && u2 !in {u1, q, r} && 1 < Num(ql, q)
    modifies u2, tmp
    ensures res <==> Num(pl, u1) % Num(ql, q) == Num(ql, r)
  {
    hide Val, W, Pow, PowMod, ModMul;
    MpZero(ql, u2);
    u2[0] := 1;
    OneVal(u2[..ql]);
    MpMul(ql, tmp, u2, pl, u1, q);
    TimesOne(Num(pl, u1), Num(ql, q));
    res := MpIsEqual(ql, tmp, r);
  }
}
