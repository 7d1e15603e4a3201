/** The probe sequence of the hash tables: h, h+7, h+7+8, h+7+8+9, ... modulo a power of two. */
module Probe {
  import opened Common

  /** `& mask` for the mask of a table of `size` slots. */
  function Wrap(x: int, size: nat): (r: nat)
    requires size > 0
    ensures r < size
  {
    x % size
  }

  /** The slot looked at after n misses. */
  function Slot(h: nat, n: nat, size: nat): (r: nat)
    requires size > 0
    ensures r < size
  {
    if n == 0 then Wrap(h, size) else Wrap(Slot(h, n - 1, size) + 7 + (n - 1), size)
  }

  /** Triangular numbers. */
  function Tri(m: nat): nat {
    if m == 0 then 0 else Tri(m - 1) + m
  }

  lemma {:induction false} TriClosed(m: nat)
    ensures 2 * Tri(m) == m * (m + 1)
  {
    if m > 0 {
      TriClosed(m - 1);
    }
  }

  lemma ModAdd(a: int, b: int, s: int)
    requires s > 0
    ensures (a % s + b) % s == (a + b) % s
  {
    var q := a / s;
    assert a == q * s + a % s;
    ModShift(a % s + b, q, s);
  }

  lemma WrapAdd(a: int, b: int, s: nat)
    requires s > 0
    ensures Wrap(Wrap(a, s) + b, s) == Wrap(a + b, s)
  {
    ModAdd(a, b, s);
  }

  lemma ModShift(x: int, q: int, s: int)
    requires s > 0
    ensures (x + q * s) % s == x % s
  {
    var r := x % s;
    var p := x / s;
    assert x + q * s == (p + q) * s + r;
    ModUnique(x + q * s, p + q, r, s);
  }

  lemma ModUnique(x: int, q: int, r: int, s: int)
    requires s > 0 && 0 <= r < s && x == q * s + r
    ensures x % s == r
  {
    var q', r' := x / s, x % s;
    assert x == q' * s + r';
    var d := q' - q;
    assert d * s == r - r' && (-d) * s == r' - r by { assert (q' - q) * s == q' * s - q * s; }
    if d >= 1 {
      MulMono(d, s);
    } else if d <= -1 {
      MulMono(-d, s);
    }
  }

  lemma MulMono(d: int, s: int)
    requires d >= 1 && s >= 0
    ensures d * s >= s
  {
    assert d * s == s + (d - 1) * s;
    assert (d - 1) * s >= 0;
  }

  lemma TriStep(m: nat)
    ensures Tri(m + 1) == Tri(m) + m + 1
  {
  }

  lemma TriSix()
    ensures Tri(6) == 21
  {
    TriClosed(6);
  }

  lemma SlotStart(h: nat, size: nat)
    requires size > 0
    ensures Slot(h, 0, size) == Wrap(h, size)
  {
  }

  lemma SlotStep(h: nat, n: nat, size: nat)
    requires size > 0 && n > 0
    ensures Slot(h, n, size) == Wrap(Slot(h, n - 1, size) + (n + 6), size)
  {
  }

  lemma {:induction false} SlotClosed(h: nat, n: nat, size: nat)
    requires size > 0
    ensures Tri(n + 6) >= 21 && Slot(h, n, size) == Wrap(h + Tri(n + 6) - 21, size)
  {
    hide Tri, Slot, Wrap;
    if n == 0 {
      TriSix();
      SlotStart(h, size);
    } else {
      SlotClosed(h, n - 1, size);
      TriStep(n + 5);
      SlotStep(h, n, size);
      WrapAdd(h + Tri(n + 5) - 21, n + 6, size);
    }
  }

  /** Mirrored in 2P - 1, a triangular number moves by P modulo 2P. */
  lemma TriMirror(m: nat, p: nat)
    requires m < p
    ensures Tri(2 * p - 1 - m) == Tri(m) + p + (p - m - 1) * (2 * p)
  {
    hide Tri;
    TriClosed(m);
    TriClosed(2 * p - 1 - m);
    MirrorSquare(m, p);
  }

  lemma MirrorSquare(m: int, p: int)
    ensures (2 * p - 1 - m) * (2 * p - m) == m * (m + 1) + 2 * (p + (p - m - 1) * (2 * p))
  {
    var a := 2 * p - m;
    assert (a - 1) * a == a * a - a;
    assert a * a == 4 * (p * p) - 4 * (p * m) + m * m;
    assert (p - m - 1) * (2 * p) == 2 * (p * p) - 2 * (p * m) - 2 * p;
  }

  lemma ModTwice(x: nat, p: nat)
    requires p > 0
    ensures x % (2 * p) == x % p || x % (2 * p) == x % p + p
  {
    var q, r := x / (2 * p), x % (2 * p);
    assert x == q * (2 * p) + r;
    if r < p {
      assert x == (2 * q) * p + r by { assert q * (2 * p) == (2 * q) * p; }
      ModUnique(x, 2 * q, r, p);
    } else {
      assert x == (2 * q + 1) * p + (r - p) by {
        assert q * (2 * p) == (2 * q) * p;
        assert (2 * q + 1) * p == (2 * q) * p + p;
      }
      ModUnique(x, 2 * q + 1, r - p, p);
    }
  }

  /** Adding an odd multiple of p flips the residue modulo 2p between the two halves. */
  lemma OddShift(t: nat, j: int, p: nat, x: int)
    requires p > 0 && x == t + p + j * (2 * p)
    ensures t % (2 * p) < p ==> x % (2 * p) == t % (2 * p) + p
    ensures t % (2 * p) >= p ==> x % (2 * p) == t % (2 * p) - p
    ensures x % p == t % p
  {
    var s := 2 * p;
    var q, r := t / s, t % s;
    assert t == q * s + r;
    if r < p {
      assert x == (q + j) * s + (r + p);
      ModUnique(x, q + j, r + p, s);
    } else {
      assert x == (q + j + 1) * s + (r - p);
      ModUnique(x, q + j + 1, r - p, s);
    }
    OddMultiple(j, p);
    ModShift(t, 1 + 2 * j, p);
  }

  lemma OddMultiple(j: int, p: nat)
    ensures p + j * (2 * p) == (1 + 2 * j) * p
  {
  }

  lemma MirrorMod(m: nat, p: nat)
    requires m < p
    ensures Tri(m) % (2 * p) < p ==> Tri(2 * p - 1 - m) % (2 * p) == Tri(m) % (2 * p) + p
    ensures Tri(m) % (2 * p) >= p ==> Tri(2 * p - 1 - m) % (2 * p) == Tri(m) % (2 * p) - p
    ensures Tri(2 * p - 1 - m) % p == Tri(m) % p
  {
    hide Tri;
    TriMirror(m, p);
    OddShift(Tri(m), p - m - 1, p, Tri(2 * p - 1 - m));
  }

  /** The first 2^k triangular numbers hit every residue modulo 2^k. */
  lemma {:induction false} TriHits(k: nat, c: nat) returns (m: nat)
    requires c < Pow2(k)
    ensures m < Pow2(k) && Tri(m) % Pow2(k) == c
  {
    hide Tri;
    if k == 0 {
      m := 0;
    } else {
      var p := Pow2(k - 1);
      m := TriHits(k - 1, c % p);
      MirrorMod(m, p);
      OneOfTwo(Tri(m), c, p);
      if Tri(m) % (2 * p) != c {
        m := 2 * p - 1 - m;
      }
    }
  }

  lemma OneOfTwo(t: nat, c: nat, p: nat)
    requires p > 0 && c < 2 * p && t % p == c % p
    ensures t % (2 * p) == c || (t % (2 * p) < p && t % (2 * p) + p == c) || (t % (2 * p) >= p && t % (2 * p) - p == c)
  {
    ModTwice(t, p);
    ModTwice(c, p);
    ModSmall(c, 2 * p);
    assert 0 <= t % (2 * p) < 2 * p && 0 <= c % p < p;
  }

  /** ... and each only once. */
  lemma {:induction false} TriInjective(k: nat, a: nat, b: nat)
    requires a < Pow2(k) && b < Pow2(k) && Tri(a) % Pow2(k) == Tri(b) % Pow2(k)
    ensures a == b
  {
    hide Tri;
    if k > 0 {
      var p := Pow2(k - 1);
      var a', b' := if a < p then a else 2 * p - 1 - a, if b < p then b else 2 * p - 1 - b;
      MirrorMod(a', p);
      MirrorMod(b', p);
      ModTwice(Tri(a), p);
      ModTwice(Tri(b), p);
      TriInjective(k - 1, a', b');
    }
  }

  lemma TriPeriod(m: nat, p: nat)
    requires p > 0
    ensures Tri(m + 2 * p) % p == Tri(m) % p
  {
    TriClosed(m);
    TriClosed(m + 2 * p);
    assert (m + 2 * p) * (m + 2 * p + 1) == m * (m + 1) + 2 * ((2 * m + 2 * p + 1) * p);
    ModShift(Tri(m), 2 * m + 2 * p + 1, p);
  }

  /** Every slot of a table of size 2^k is looked at within the first 2 * 2^k probes. */
  lemma ProbeCovers(k: nat, h: nat, t: nat) returns (n: nat)
    requires k >= 2 && t < Pow2(k)
    ensures n < 2 * Pow2(k) && Slot(h, n, Pow2(k)) == t
  {
    hide Tri, Slot, Pow2, Wrap;
    var s := Pow2(k);
    AtLeastFour(k);
    // look for m with Tri(m) congruent to t + 21 - h
    var m := TriHits(k, (t + 21 - h) % s);
    if m < 6 {
      TriPeriod(m, s);
      m := m + 2 * s;
    }
    n := m - 6;
    SlotClosed(h, n, s);
    Lands(h, Tri(m), t, s);
  }

  lemma AtLeastFour(k: nat)
    requires k >= 2
    ensures Pow2(k) >= 4
  {
    assert Pow2(k) == 2 * Pow2(k - 1) && Pow2(k - 1) == 2 * Pow2(k - 2);
  }

  lemma Lands(h: nat, u: nat, t: nat, s: nat)
    requires t < s && u % s == (t + 21 - h) % s
    ensures Wrap(h + u - 21, s) == t
  {
    ModAddBoth(u, t + 21 - h, h - 21, s);
    ModSmall(t, s);
  }

  lemma ModAddBoth(x: int, y: int, d: int, s: nat)
    requires s > 0 && x % s == y % s
    ensures (x + d) % s == (y + d) % s
  {
    ModAdd(x, d, s);
    ModAdd(y, d, s);
  }

  lemma SameBase(h: nat, u: nat, v: nat, s: nat)
    requires s > 0 && Wrap(h + u - 21, s) == Wrap(h + v - 21, s)
    ensures u % s == v % s
  {
    ModAddBoth(h + u - 21, h + v - 21, 21 - h, s);
  }

  lemma ModSmall(t: nat, s: nat)
    requires t < s
    ensures t % s == t
  {
  }

  /** No slot is looked at twice among the first 2^k - 6 probes. */
  lemma ProbeDistinct(k: nat, h: nat, a: nat, b: nat)
    requires a + 6 < Pow2(k) && b + 6 < Pow2(k) && Slot(h, a, Pow2(k)) == Slot(h, b, Pow2(k))
    ensures a == b
  {
    hide Tri, Slot, Pow2, Wrap;
    var s := Pow2(k);
    SlotClosed(h, a, s);
    SlotClosed(h, b, s);
    SameBase(h, Tri(a + 6), Tri(b + 6), s);
    TriInjective(k, a + 6, b + 6);
  }
}
