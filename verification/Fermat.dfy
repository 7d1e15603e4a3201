/** Fermat's little theorem: what the exponent p - 2 of the field inverse and of the DSA check is for. */
module Fermat {
  import opened Common
  import opened Limbs
  import opened MpArith
  import opened MpField
  import opened Ed25519

  ghost predicate Prime(p: nat) {
    p > 1 && forall d :: 1 < d < p ==> p % d != 0
  }

  // ----- a prime that divides a product divides a factor -----

  lemma {:induction false} Euclid(p: nat, k: nat, y: int, c: int)
    requires Prime(p) && 0 < k < p && k * y == c * p
    ensures y % p == 0
    decreases k
  {
    if k == 1 {
      Multiple(y, c, p);
    } else {
      var q, r := p / k, p % k;
      Remainder(p, k, y, c);
      Euclid(p, r, y, y - q * c);
    }
  }

  lemma Multiple(y: int, c: int, p: nat)
    requires p > 0 && y == c * p
    ensures y % p == 0
  {
    CongIntro(y, 0, p, c);
    CongMod(y, p);
    CongTrans(y % p, y, 0, p);
    CongUnique(y % p, 0, p);
  }

  lemma Remainder(p: nat, k: nat, y: int, c: int)
    requires k > 0 && k * y == c * p
    ensures p % k * y == (y - p / k * c) * p
  {
    var q, r := p / k, p % k;
    assert r == p - q * k;
    Spread(p, q * k, y);
    Spread(y, q * c, p);
    assert q * k * y == q * (k * y) && q * (c * p) == q * c * p;
  }

  lemma Spread(a: int, b: int, c: int)
    ensures (a - b) * c == a * c - b * c
  {
  }

  // ----- the multiples of a are the residues in another order -----

  function Product(s: seq<nat>): nat {
    if s == [] then 1 else s[|s| - 1] * Product(s[..|s| - 1])
  }

  function Factorial(n: nat): nat {
    if n == 0 then 1 else n * Factorial(n - 1)
  }

  ghost predicate Distinct(s: seq<nat>) {
    forall i, j :: 0 <= i < j < |s| ==> s[i] != s[j]
  }

  lemma {:induction false} ProductAppend(s: seq<nat>, t: seq<nat>)
    ensures Product(s + t) == Product(s) * Product(t)
    decreases |t|
  {
    if t == [] {
      assert s + t == s;
    } else {
      var u, x := t[..|t| - 1], t[|t| - 1];
      assert (s + t)[..|s + t| - 1] == s + u;
      ProductAppend(s, u);
      assert x * (Product(s) * Product(u)) == Product(s) * (x * Product(u));
    }
  }

  lemma ProductWithout(s: seq<nat>, i: nat)
    requires i < |s|
    ensures Product(s) == s[i] * Product(s[..i] + s[i + 1..])
  {
    hide Product;
    assert s == s[..i] + [s[i]] + s[i + 1..];
    ProductAppend(s[..i] + [s[i]], s[i + 1..]);
    ProductAppend(s[..i], [s[i]]);
    ProductAppend(s[..i], s[i + 1..]);
    ProductOne(s[i]);
    Rotate(Product(s[..i]), s[i], Product(s[i + 1..]));
  }

  lemma ProductOne(x: nat)
    ensures Product([x]) == x
  {
    assert [x][..0] == [];
  }

  lemma Rotate(a: nat, x: nat, b: nat)
    ensures a * x * b == x * (a * b)
  {
  }

  /** n distinct numbers up to n are all of them. */
  lemma Includes(s: seq<nat>, n: nat)
    requires |s| == n > 0 && Distinct(s) && forall i :: 0 <= i < n ==> 1 <= s[i] <= n
    ensures n in s
  {
    if n !in s {
      forall i | 0 <= i < n ensures s[i] in UpTo(n - 1) {
        assert s[i] in s;
      }
      DistinctCount(s, UpTo(n - 1));
    }
  }

  lemma {:induction false} ReorderedProduct(s: seq<nat>, n: nat)
    requires |s| == n && Distinct(s) && forall i :: 0 <= i < n ==> 1 <= s[i] <= n
    ensures Product(s) == Factorial(n)
    decreases n
  {
    if n > 0 {
      Includes(s, n);
      var i :| 0 <= i < |s| && s[i] == n;
      var t := s[..i] + s[i + 1..];
      assert forall j :: 0 <= j < |t| ==> t[j] == s[if j < i then j else j + 1];
      ReorderedProduct(t, n - 1);
      ProductWithout(s, i);
    }
  }

  /** a, 2a, 3a, ... modulo p. */
  function Multiples(p: nat, a: nat, n: nat): (s: seq<nat>)
    requires p > 0
    ensures |s| == n && forall i :: 0 <= i < n ==> s[i] == a * (i + 1) % p
  {
    seq(n, i requires 0 <= i < n => a * (i + 1) % p)
  }

  lemma MultiplesDistinct(p: nat, a: nat)
    requires Prime(p) && 0 < a < p
    ensures var s := Multiples(p, a, p - 1); Distinct(s) && forall i :: 0 <= i < p - 1 ==> 1 <= s[i] <= p - 1
  {
    hide Prime;
    var s := Multiples(p, a, p - 1);
    forall i | 0 <= i < p - 1 ensures s[i] != 0 {
      NotZero(p, a, i + 1);
    }
    forall i, j | 0 <= i < j < p - 1 ensures s[i] != s[j] {
      Different(p, a, i + 1, j + 1);
    }
  }

  lemma NotZero(p: nat, a: nat, x: nat)
    requires Prime(p) && 0 < a < p && 0 < x < p
    ensures a * x % p != 0
  {
    hide Prime;
    if a * x % p == 0 { Apart(p, a, 0, x); }
  }

  lemma Different(p: nat, a: nat, x: nat, y: nat)
    requires Prime(p) && 0 < a < p && 0 < x < y < p
    ensures a * x % p != a * y % p
  {
    hide Prime;
    if a * x % p == a * y % p { Apart(p, a, x, y); }
  }

  lemma SameResidue(u: nat, v: nat, p: nat)
    requires p > 0 && u % p == v % p
    ensures v - u == (v / p - u / p) * p
  {
    assert v == v / p * p + v % p && u == u / p * p + u % p;
    Spread(v / p, u / p, p);
  }

  lemma TimesDifference(a: nat, x: nat, y: nat)
    requires x < y
    ensures a * (y - x) == a * y - a * x
  {
  }

  lemma Apart(p: nat, a: nat, x: nat, y: nat)
    requires Prime(p) && 0 < a < p && x < y < p
    ensures a * x % p != a * y % p
  {
    hide Prime;
    var u, v := a * x, a * y;
    if u % p == v % p {
      SameResidue(u, v, p);
      TimesDifference(a, x, y);
      Euclid(p, a, y - x, v / p - u / p);
      SmallMod(y - x, p);
    }
  }

  lemma SmallMod(x: nat, p: nat)
    requires x < p
    ensures x % p == x
  {
  }

  /** Their product. */
  lemma {:induction false} MultiplesProduct(p: nat, a: nat, n: nat)
    requires p > 0
    ensures Cong(Product(Multiples(p, a, n)), Pow(a, n) * Factorial(n), p)
  {
    hide Cong;
    if n == 0 {
      CongRefl(1, p);
    } else {
      var s := Multiples(p, a, n);
      assert s[..n - 1] == Multiples(p, a, n - 1);
      MultiplesProduct(p, a, n - 1);
      CongMod(a * n, p);
      CongMul(s[n - 1], a * n, Product(s[..n - 1]), Pow(a, n - 1) * Factorial(n - 1), p);
      Mix(a, n, Pow(a, n - 1), Factorial(n - 1));
    }
  }

  lemma Mix(a: nat, n: nat, x: nat, y: nat)
    ensures a * n * (x * y) == a * x * (n * y)
  {
  }

  /** A factorial below p cancels. */
  lemma {:induction false} CancelFactorial(p: nat, n: nat, y: int, c: int)
    requires Prime(p) && n < p && Factorial(n) * y == c * p
    ensures y % p == 0
    decreases n
  {
    if n == 0 {
      Multiple(y, c, p);
    } else {
      var z := Factorial(n - 1) * y;
      assert n * z == n * Factorial(n - 1) * y;
      Euclid(p, n, z, c);
      CancelFactorial(p, n - 1, y, z / p);
    }
  }

  /** For a prime p and an a that it does not divide, a^(p - 1) is 1 modulo p. */
  lemma LittleTheorem(p: nat, a: nat)
    requires Prime(p) && 0 < a < p
    ensures Pow(a, p - 1) % p == 1
  {
    hide Pow, Factorial, Product, Prime, Cong;
    var n, f := p - 1, Factorial(p - 1);
    var s := Multiples(p, a, n);
    MultiplesDistinct(p, a);
    ReorderedProduct(s, n);
    MultiplesProduct(p, a, n);
    var k := Quotient(f, Pow(a, n) * f, p);
    Spread(Pow(a, n), 1, f);
    assert f * (Pow(a, n) - 1) == -k * p;
    CancelFactorial(p, n, Pow(a, n) - 1, -k);
    OneMore(Pow(a, n), p);
  }

  lemma Quotient(x: int, y: int, p: nat) returns (k: int)
    requires Cong(x, y, p)
    ensures x - y == k * p && y - x == -k * p
  {
    k :| CongBy(x, y, p, k);
  }

  lemma OneMore(x: nat, p: nat)
    requires p > 1 && (x - 1) % p == 0
    ensures x % p == 1
  {
    var k := (x - 1) / p;
    assert x - 1 == k * p;
    assert -k * p == -(k * p);
    CongIntro(1, x, p, -k);
    CongIsMod(1, x, p);
  }

  lemma {:induction false} PowReduced(p: nat, a: nat, e: nat)
    requires p > 0
    ensures Cong(Pow(a % p, e), Pow(a, e), p)
  {
    hide Cong;
    if e == 0 {
      CongRefl(1, p);
    } else {
      PowReduced(p, a, e - 1);
      CongMod(a, p);
      CongMul(a % p, a, Pow(a % p, e - 1), Pow(a, e - 1), p);
    }
  }

  /** For a prime p, whatever is a^(p - 2) modulo p is the inverse of a. */
  lemma InverseOf(p: nat, a: nat, x: nat)
    requires Prime(p) && a % p != 0 && Cong(x, Pow(a, p - 2), p)
    ensures a * x % p == 1
  {
    hide Cong, Prime;
    assert p > 1 by { PrimeAboveOne(p); }
    LittleTheorem(p, a % p);
    PowReduced(p, a, p - 1);
    CongRefl(a, p);
    CongMul(a, a, x, Pow(a, p - 2), p);
    CongMod(Pow(a % p, p - 1), p);
    CongTrans(1, Pow(a % p, p - 1), Pow(a, p - 1), p);
    CongSym(a * x, Pow(a, p - 1), p);
    CongTrans(1, Pow(a, p - 1), a * x, p);
    CongIsMod(1, a * x, p);
  }

  lemma PrimeAboveOne(p: nat)
    requires Prime(p)
    ensures p > 1
  {
  }

  // ----- the two uses -----

  /** If 2^255 - 19 is prime, `Inv` computes the inverse of every number it does not divide. */
  lemma FieldInverse(x: nat, a: nat)
    requires Prime(P) && a % P != 0 && IsPow(x, a, P - 2)
    ensures a * x % P == 1
  {
    hide Cong, Prime, Pow;
    InverseOf(P, a, x);
  }

  /** The textbook check, with w the inverse of s. */
  ghost predicate DsaTextbook(p: nat, q: nat, g: nat, y: nat, r: nat, s: nat, h: nat, w: nat) {
    && g < p && y < p && 0 < r < q && 0 < s < q
    && Pow(g, w * h % q) * Pow(y, w * r % q) % p % q == r
  }

  /** For a prime q, `MpDsa` accepts iff the textbook check with the inverse of s does. */
  lemma DsaIsTextbook(p: nat, q: nat, g: nat, y: nat, r: nat, s: nat, h: nat, w: nat)
    requires Prime(q) && w < q && 0 < s < q && s * w % q == 1
    ensures DsaAccepts(p, q, g, y, r, s, h) <==> DsaTextbook(p, q, g, y, r, s, h, w)
  {
    hide Cong, Prime, Pow;
    if g < p && y < p && 0 < r < q {
      SameInverse(q, s, w);
      Factors(g, y, w * h % q, w * r % q, p);
    }
  }

  lemma SameInverse(q: nat, s: nat, w: nat)
    requires Prime(q) && w < q && 0 < s < q && s * w % q == 1
    ensures PowMod(s, q - 2, q) == w
  {
    hide Cong, Prime, Pow;
    assert q > 1 by { PrimeAboveOne(q); }
    var v := PowMod(s, q - 2, q);
    PowModBelow(s, q - 2, q);
    PowModAny(s, q - 2, q);
    SmallMod(s, q);
    InverseOf(q, s, v);
    if v < w { Apart(q, s, v, w); }
    if w < v { Apart(q, s, w, v); }
  }

  lemma PowModBelow(b: nat, e: nat, m: nat)
    requires m > 1
    ensures PowMod(b, e, m) < m
  {
    hide Pow;
  }

  lemma Factors(g: nat, y: nat, u: nat, v: nat, p: nat)
    requires p > 0
    ensures ModMul(PowMod(g, u, p), PowMod(y, v, p), p) == Pow(g, u) * Pow(y, v) % p
  {
    hide Cong;
    PowModAny(g, u, p);
    PowModAny(y, v, p);
    var a, b := PowMod(g, u, p), PowMod(y, v, p);
    CongMul(a, Pow(g, u), b, Pow(y, v), p);
    CongMod(a * b, p);
    CongTrans(a * b % p, a * b, Pow(g, u) * Pow(y, v), p);
    CongIsMod(a * b % p, Pow(g, u) * Pow(y, v), p);
  }

  lemma PowModAny(b: nat, e: nat, m: nat)
    requires m > 0
    ensures Cong(PowMod(b, e, m), Pow(b, e), m)
  {
    hide Cong;
    CongMod(Pow(b, e), m);
    CongRefl(1, m);
  }
}
