/** `pool_normalize_complex_dep`: the recursion over the dependency tree, and its meaning. */
module Normalize {
  import opened Containers
  import opened DepBlocks
  import opened DepMerge
  import opened CplxDeps

  /** What a normalising call was asked for, as a formula over dependencies. */
  datatype Form = Plainly(d: Dep) | Neg(f: Form) | Both(f: Form, g: Form) | Either(f: Form, g: Form)

  ghost predicate Eval(pool: Pool, f: Form, named: bool, chosen: set<int>)
    requires Valid(pool)
  {
    match f
    case Plainly(d) => Holds(pool, d, named, chosen)
    case Neg(g) => !Eval(pool, g, named, chosen)
    case Both(g, h) => Eval(pool, g, named, chosen) && Eval(pool, h, named, chosen)
    case Either(g, h) => Eval(pool, g, named, chosen) || Eval(pool, h, named, chosen)
  }

  /** The result convention. 0 and 1: the queue is as before and the formula is constant for every choice of
      packages. -1: blocks were appended that read as the formula. */
  ghost predicate Means(pool: Pool, was: seq<int>, now: seq<int>, r: int, bs: seq<Block>, dnf: bool, named: bool,
                        f: Form)
    requires Valid(pool)
  {
    && r in {-1, 0, 1}
    && (r == -1 ==> GoodBlocks(pool, bs) && bs != [] && now == was + Encode(pool.nsolvables, bs))
    && (r != -1 ==> now == was)
    && forall chosen: set<int> ::
         (Eval(pool, f, named, chosen) <==> Result(pool, r, bs, dnf, chosen))
  }

  /** The truth value a return code and its blocks stand for. */
  ghost predicate Result(pool: Pool, r: int, bs: seq<Block>, dnf: bool, chosen: set<int>) {
    r == 1 || (r == -1 && GoodBlocks(pool, bs) && Reads(Plain(pool, bs), dnf, chosen))
  }

  /** Blocks of a distribution or an inversion, back in block form. */
  lemma WrapGood(pool: Pool, ls: seq<seq<int>>)
    requires GoodLists(pool.nsolvables, ls)
    ensures GoodBlocks(pool, Wrap(ls)) && Plain(pool, Wrap(ls)) == ls
    ensures Encode(pool.nsolvables, Wrap(ls)) == EncodeLists(ls)
  {
    EncodeWrap(pool.nsolvables, ls);
  }

  lemma EvalNeg(pool: Pool, f: Form, named: bool)
    requires Valid(pool)
    ensures forall chosen: set<int> :: Eval(pool, Neg(f), named, chosen) <==> !Eval(pool, f, named, chosen)
  {
  }

  /** One side with the absorbing constant decides. */
  lemma Absorbed(pool: Pool, was: seq<int>, x: seq<int>, y: seq<int>, b: seq<Block>, r: int, dnf: bool, conj: bool,
                 named: bool, f: Form, g: Form)
    requires Valid(pool) && r == if conj then 0 else 1
    requires Means(pool, x, y, r, b, dnf, named, f) || Means(pool, x, y, r, b, dnf, named, g)
    ensures Means(pool, was, was, r, [], dnf, named, if conj then Both(f, g) else Either(f, g))
  {
    hide Holds, Reads, Plain;
    forall chosen: set<int>
      ensures Eval(pool, if conj then Both(f, g) else Either(f, g), named, chosen) <==> Result(pool, r, [], dnf, chosen)
    {
      assert (Eval(pool, f, named, chosen) <==> Result(pool, r, b, dnf, chosen))
          || (Eval(pool, g, named, chosen) <==> Result(pool, r, b, dnf, chosen));
    }
  }

  /** A side g with the neutral constant leaves the other, whichever comes first. */
  lemma Passed(pool: Pool, x: seq<int>, y: seq<int>, b2: seq<Block>, was: seq<int>, now: seq<int>, r: int,
               b: seq<Block>, r2: int, dnf: bool, conj: bool, named: bool, f: Form, g: Form)
    requires Valid(pool) && r2 == if conj then 1 else 0
    requires Means(pool, was, now, r, b, dnf, named, f) && Means(pool, x, y, r2, b2, dnf, named, g)
    ensures Means(pool, was, now, r, b, dnf, named, if conj then Both(f, g) else Either(f, g))
    ensures Means(pool, was, now, r, b, dnf, named, if conj then Both(g, f) else Either(g, f))
  {
    hide Holds, Reads, Plain, GoodBlock, Encode;
    forall chosen: set<int>
      ensures Eval(pool, if conj then Both(f, g) else Either(f, g), named, chosen) <==> Result(pool, r, b, dnf, chosen)
      ensures Eval(pool, if conj then Both(g, f) else Either(g, f), named, chosen) <==> Result(pool, r, b, dnf, chosen)
    {
      assert Eval(pool, f, named, chosen) <==> Result(pool, r, b, dnf, chosen);
      assert Eval(pool, g, named, chosen) <==> Result(pool, r2, b2, dnf, chosen);
    }
  }

  /** Joining two results. `neutral` is the return code that leaves the other side (0 for or, 1 for and);
      the other code absorbs. The sides are distributed when the block form calls for it. */
  method Join(pool: Pool, bq: Queue, bqcnt: nat, bqcnt2: nat, r1: int, r2: int, dnf: bool, conj: bool,
              ghost named: bool, ghost b1: seq<Block>, ghost b2: seq<Block>, ghost f1: Form, ghost f2: Form)
    returns (r: int, ghost bs: seq<Block>)
    requires Valid(pool)
    requires bqcnt <= bqcnt2 <= |bq.elements|
    requires r1 != (if conj then 0 else 1)
    requires Means(pool, bq.elements[..bqcnt], bq.elements[..bqcnt2], r1, b1, dnf, named, f1)
    requires Means(pool, bq.elements[..bqcnt2], bq.elements, r2, b2, dnf, named, f2)
    modifies bq
    ensures Means(pool, old(bq.elements[..bqcnt]), bq.elements, r, bs, dnf, named,
                  if conj then Both(f1, f2) else Either(f1, f2))
  {
    hide Encode, Plain, Holds, GoodBlock, Reads, EncodeLists, Product;
    var absorb, neutral := if conj then 0 else 1, if conj then 1 else 0;
    bs := [];
    if r1 == absorb || r2 == absorb {
      ghost var q := bq.elements;
      Absorbed(pool, q[..bqcnt], q[..bqcnt2], q, b2, absorb, dnf, conj, named, f1, f2);
      bq.Truncate(bqcnt);
      return absorb, [];
    }
    if r1 == neutral {
      ghost var q := bq.elements;
      Passed(pool, q[..bqcnt], q[..bqcnt2], b1, q[..bqcnt2], q, r2, b2, r1, dnf, conj, named, f2, f1);
      return r2, b2;
    }
    if r2 == neutral {
      ghost var q := bq.elements;
      assert q[..bqcnt2] == q;
      Passed(pool, q, q, b2, q[..bqcnt], q, r1, b1, r2, dnf, conj, named, f1, f2);
      return r1, b1;
    }
    ghost var was, ns := bq.elements, pool.nsolvables;
    assert was[bqcnt..] == Encode(ns, b1) + Encode(ns, b2) && bqcnt2 == bqcnt + |Encode(ns, b1)| by {
      SplitRuns(was, bqcnt, bqcnt2, Encode(ns, b1), Encode(ns, b2));
    }
    if dnf == conj {
      r, bs := JoinDistribute(pool, bq, bqcnt, bqcnt2, dnf, named, b1, b2, f1, f2);
    } else {
      r, bs := -1, b1 + b2;
      JoinConcat(pool, b1, b2, dnf, named, f1, f2);
      assert was == was[..bqcnt] + was[bqcnt..];
    }
  }

  lemma SplitRuns(was: seq<int>, m: nat, n: nat, x: seq<int>, y: seq<int>)
    requires m <= n <= |was| && was[..n] == was[..m] + x && was == was[..n] + y
    ensures was[m..] == x + y && n == m + |x|
  {
    assert |was[..n]| == |was[..m]| + |x|;
    assert was == was[..m] + (x + y);
  }

  lemma JoinConcat(pool: Pool, b1: seq<Block>, b2: seq<Block>, dnf: bool, named: bool, f1: Form, f2: Form)
    requires Valid(pool) && GoodBlocks(pool, b1) && GoodBlocks(pool, b2)
    requires forall chosen: set<int> :: (Eval(pool, f1, named, chosen) <==> Result(pool, -1, b1, dnf, chosen))
    requires forall chosen: set<int> :: (Eval(pool, f2, named, chosen) <==> Result(pool, -1, b2, dnf, chosen))
    ensures GoodBlocks(pool, b1 + b2)
    ensures Encode(pool.nsolvables, b1 + b2) == Encode(pool.nsolvables, b1) + Encode(pool.nsolvables, b2)
    ensures forall chosen: set<int> ::
      (Eval(pool, if dnf then Either(f1, f2) else Both(f1, f2), named, chosen) <==>
        Result(pool, -1, b1 + b2, dnf, chosen))
  {
    hide Encode, Plain, Holds, GoodBlock, Reads;
    PlainAppend(pool, b1, b2);
    EncodeAppend(pool.nsolvables, b1, b2);
    forall chosen: set<int>
      ensures Eval(pool, if dnf then Either(f1, f2) else Both(f1, f2), named, chosen) <==>
        Result(pool, -1, b1 + b2, dnf, chosen)
    {
      ReadsAppend(Plain(pool, b1), Plain(pool, b2), dnf, chosen);
    }
  }

  method JoinDistribute(pool: Pool, bq: Queue, bqcnt: nat, bqcnt2: nat, dnf: bool,
                        ghost named: bool, ghost b1: seq<Block>, ghost b2: seq<Block>, ghost f1: Form, ghost f2: Form)
    returns (r: int, ghost bs: seq<Block>)
    requires Valid(pool) && GoodBlocks(pool, b1) && GoodBlocks(pool, b2)
    requires bqcnt <= |bq.elements| && bq.elements[bqcnt..] == Encode(pool.nsolvables, b1) + Encode(pool.nsolvables, b2)
    requires bqcnt2 == bqcnt + |Encode(pool.nsolvables, b1)|
    requires forall chosen: set<int> :: (Eval(pool, f1, named, chosen) <==> Result(pool, -1, b1, dnf, chosen))
    requires forall chosen: set<int> :: (Eval(pool, f2, named, chosen) <==> Result(pool, -1, b2, dnf, chosen))
    modifies bq
    ensures Means(pool, old(bq.elements[..bqcnt]), bq.elements, r, bs, dnf, named,
                  if dnf then Both(f1, f2) else Either(f1, f2))
  {
    hide Encode, Plain, Holds, GoodBlock, Reads, EncodeLists, Product;
    r := DistributeDepBlocks(pool, bq, bqcnt, bqcnt2, dnf, b1, b2);
    ghost var p := Product(Plain(pool, b1), Plain(pool, b2));
    PlainGood(pool, b1);
    PlainGood(pool, b2);
    ProductGood(pool.nsolvables, Plain(pool, b1), Plain(pool, b2));
    WrapGood(pool, p);
    bs := Wrap(p);
    JoinMeaning(pool, b1, b2, dnf, named, f1, f2, bs, r);
    EmptyLists();
  }

  lemma EmptyLists()
    ensures EncodeLists([]) == []
  {
  }

  lemma JoinMeaning(pool: Pool, b1: seq<Block>, b2: seq<Block>, dnf: bool, named: bool, f1: Form, f2: Form,
      bs: seq<Block>, r: int)
    requires Valid(pool) && GoodBlocks(pool, b1) && GoodBlocks(pool, b2)
    requires forall chosen: set<int> :: (Eval(pool, f1, named, chosen) <==> Reads(Plain(pool, b1), dnf, chosen))
    requires forall chosen: set<int> :: (Eval(pool, f2, named, chosen) <==> Reads(Plain(pool, b2), dnf, chosen))
    requires GoodBlocks(pool, bs) && Plain(pool, bs) == Product(Plain(pool, b1), Plain(pool, b2))
    requires r == if Plain(pool, bs) == [] then (if dnf then 0 else 1) else -1
    ensures forall chosen: set<int> ::
      (Eval(pool, if dnf then Both(f1, f2) else Either(f1, f2), named, chosen) <==> Result(pool, r, bs, dnf, chosen))
  {
    hide Plain, Product, Holds, GoodBlock;
    PlainGood(pool, b1);
    PlainGood(pool, b2);
    forall chosen: set<int>
      ensures Eval(pool, if dnf then Both(f1, f2) else Either(f1, f2), named, chosen) <==>
        Result(pool, r, bs, dnf, chosen)
    {
      ProductMeaning(pool.nsolvables, Plain(pool, b1), Plain(pool, b2), dnf, chosen);
      ReadsOne([], dnf, chosen);
    }
  }

  /** The second operand: normalised as is, or in the dual form and then inverted. */
  method NormalizeSecond(pool: Pool, dep: Dep, bq: Queue, dnf: bool, named: bool, inv: bool)
    returns (r: int, ghost bs: seq<Block>)
    requires Valid(pool)
    modifies bq
    ensures Means(pool, old(bq.elements), bq.elements, r, bs, dnf, named,
                  if inv then Neg(Plainly(dep)) else Plainly(dep))
    decreases Size(dep), 1
  {
    hide Encode, Plain, Holds, GoodBlock, Reads, EncodeLists, InvertAll;
    EvalNeg(pool, Plainly(dep), named);
    var start := |bq.elements|;
    ghost var was := bq.elements;
    r, bs := NormalizeDep(pool, dep, bq, dnf != inv, named);
    if inv {
      ghost var b, r0 := bs, r;
      assert r == -1 ==> bq.elements[start..] == Encode(pool.nsolvables, b);
      r := InvertDepBlocks(pool, bq, start, r, b);
      if r0 == -1 {
        InvertedMeans(pool, b, !dnf, named, Plainly(dep));
        bs := Wrap(InvertAll(Plain(pool, b)));
      }
    }
  }

  lemma InvertedMeans(pool: Pool, b: seq<Block>, dnf: bool, named: bool, f: Form)
    requires Valid(pool) && GoodBlocks(pool, b) && b != []
    requires forall chosen: set<int> :: Eval(pool, f, named, chosen) <==> Reads(Plain(pool, b), dnf, chosen)
    ensures var bs := Wrap(InvertAll(Plain(pool, b)));
      && GoodBlocks(pool, bs) && bs != [] && Encode(pool.nsolvables, bs) == EncodeLists(InvertAll(Plain(pool, b)))
      && forall chosen: set<int> :: (Eval(pool, Neg(f), named, chosen) <==> Result(pool, -1, bs, !dnf, chosen))
  {
    hide Encode, Holds, GoodBlock, Reads, EncodeLists;
    var ls := Plain(pool, b);
    PlainGood(pool, b);
    InvertMeaning(pool.nsolvables, ls, dnf, {});
    WrapGood(pool, InvertAll(ls));
    forall chosen: set<int>
      ensures Eval(pool, Neg(f), named, chosen) <==> Result(pool, -1, Wrap(InvertAll(ls)), !dnf, chosen)
    {
      InvertMeaning(pool.nsolvables, ls, dnf, chosen);
    }
  }

  function Max(a: nat, b: nat): nat {
    if a > b then a else b
  }

  ghost function Operands(conj: bool, d1: Dep, d2: Dep, inv: bool): Form {
    var f2 := if inv then Neg(Plainly(d2)) else Plainly(d2);
    if conj then Both(Plainly(d1), f2) else Either(Plainly(d1), f2)
  }

  /** `normalize_dep_or` and `normalize_dep_and`. */
  method NormalizePair(pool: Pool, dep1: Dep, dep2: Dep, bq: Queue, dnf: bool, named: bool, inv: bool, conj: bool)
    returns (r: int, ghost bs: seq<Block>)
    requires Valid(pool)
    modifies bq
    ensures Means(pool, old(bq.elements), bq.elements, r, bs, dnf, named, Operands(conj, dep1, dep2, inv))
    decreases Max(Size(dep1), Size(dep2)), 2
  {
    hide Encode, Plain, Holds, GoodBlock, Reads;
    ghost var was := bq.elements;
    var bqcnt := |bq.elements|;
    var r1;
    ghost var b1;
    r1, b1 := NormalizeDep(pool, dep1, bq, dnf, named);
    if r1 == (if conj then 0 else 1) {
      Absorbed(pool, was, was, bq.elements, b1, r1, dnf, conj, named, Plainly(dep1),
               if inv then Neg(Plainly(dep2)) else Plainly(dep2));
      return r1, [];
    }
    var bqcnt2 := |bq.elements|;
    ghost var mid := bq.elements;
    var r2;
    ghost var b2;
    r2, b2 := NormalizeSecond(pool, dep2, bq, dnf, named, inv);
    assert bq.elements[..bqcnt2] == mid && mid[..bqcnt] == was && bq.elements[..bqcnt] == was;
    r, bs := Join(pool, bq, bqcnt, bqcnt2, r1, r2, dnf, conj, named, b1, b2, Plainly(dep1),
                  if inv then Neg(Plainly(dep2)) else Plainly(dep2));
  }

  ghost function ElseForm(unless: bool, d1: Dep, d2: Dep, d3: Dep): Form {
    if unless then Either(Operands(true, d1, d2, true), Operands(true, d2, d3, false))
    else Both(Operands(false, d1, d2, true), Operands(false, d2, d3, false))
  }

  /** `normalize_dep_if_else` and `normalize_dep_unless_else`. */
  method NormalizeElse(pool: Pool, dep1: Dep, dep2: Dep, dep3: Dep, bq: Queue, dnf: bool, named: bool, unless: bool)
    returns (r: int, ghost bs: seq<Block>)
    requires Valid(pool)
    modifies bq
    ensures Means(pool, old(bq.elements), bq.elements, r, bs, dnf, named, ElseForm(unless, dep1, dep2, dep3))
    decreases Max(Size(dep1), Max(Size(dep2), Size(dep3))), 3
  {
    hide Encode, Plain, Holds, GoodBlock, Reads, Operands;
    ghost var was := bq.elements;
    var bqcnt := |bq.elements|;
    var r1;
    ghost var b1;
    r1, b1 := NormalizePair(pool, dep1, dep2, bq, dnf, named, true, unless);
    if r1 == (if unless then 1 else 0) {
      Absorbed(pool, was, was, bq.elements, b1, r1, dnf, !unless, named,
               Operands(unless, dep1, dep2, true), Operands(unless, dep2, dep3, false));
      return r1, [];
    }
    var bqcnt2 := |bq.elements|;
    ghost var mid := bq.elements;
    var r2;
    ghost var b2;
    r2, b2 := NormalizePair(pool, dep2, dep3, bq, dnf, named, false, unless);
    assert bq.elements[..bqcnt2] == mid && mid[..bqcnt] == was && bq.elements[..bqcnt] == was;
    r, bs := Join(pool, bq, bqcnt, bqcnt2, r1, r2, dnf, !unless, named, b1, b2, Operands(unless, dep1, dep2, true),
                  Operands(unless, dep2, dep3, false));
  }

  // ----- leaves -----

  /** The providers a leaf keeps: all of them, or with CPLXDEPS_NAME the ones whose name matches. */
  ghost function Kept(pool: Pool, dep: Dep, named: bool, l: seq<int>): seq<int> {
    if l == [] then [] else (if named && !pool.matches(l[0], dep) then [] else [l[0]]) + Kept(pool, dep, named, l[1..])
  }

  lemma {:induction false} KeptMembers(pool: Pool, dep: Dep, named: bool, l: seq<int>)
    ensures forall p :: p in Kept(pool, dep, named, l) <==> p in l && (named ==> pool.matches(p, dep))
    ensures !named ==> Kept(pool, dep, named, l) == l
    decreases |l|
  {
    if l != [] {
      KeptMembers(pool, dep, named, l[1..]);
      assert l == [l[0]] + l[1..];
    }
  }

  lemma {:induction false} KeptAscending(pool: Pool, dep: Dep, named: bool, l: seq<int>)
    requires Ascending(l)
    ensures Ascending(Kept(pool, dep, named, l))
    decreases |l|
  {
    if l != [] {
      AscendingTail(l);
      KeptAscending(pool, dep, named, l[1..]);
      KeptMembers(pool, dep, named, l[1..]);
      AscendingCons(l[0], Kept(pool, dep, named, l[1..]));
      assert [] + Kept(pool, dep, named, l[1..]) == Kept(pool, dep, named, l[1..]);
    }
  }

  /** One single-literal block per provider. */
  ghost function Singles(l: seq<int>): (ls: seq<seq<int>>)
    ensures |ls| == |l| && forall i :: 0 <= i < |l| ==> ls[i] == [l[i]]
  {
    seq(|l|, i requires 0 <= i < |l| => [l[i]])
  }

  /** The leaf's provider loop: pushes the kept providers, each closed by a zero when `dnf`. */
  method PushProviders(pool: Pool, dep: Dep, bq: Queue, dnf: bool, named: bool, dp: int)
    requires Valid(pool) && dp >= 0
    modifies bq
    ensures var kept := Kept(pool, dep, named, List(pool.data, dp));
      bq.elements == old(bq.elements) + (if dnf then EncodeLists(Singles(kept)) else kept)
  {
    hide Kept, Singles, EncodeLists;
    ghost var was, out: seq<int>, rest, all := bq.elements, [], List(pool.data, dp),
      Pushed(dnf, Kept(pool, dep, named, List(pool.data, dp)));
    var k := dp;
    while k < |pool.data| && pool.data[k] != 0
      invariant dp <= k && rest == List(pool.data, k)
      invariant bq.elements == was + out
      invariant out + Pushed(dnf, Kept(pool, dep, named, rest)) == all
      decreases |pool.data| - k
    {
      var p := pool.data[k];
      k := k + 1;
      assert rest[0] == p && rest[1..] == List(pool.data, k);
      PushedStep(pool, dep, dnf, named, rest, out, all);
      rest := rest[1..];
      if named && !pool.matches(p, dep) {
        continue;
      }
      bq.Push(p);
      out := out + [p];
      if dnf {
        bq.Push(0);
        out := out + [0];
      }
    }
    PushedEmpty(pool, dep, dnf, named);
  }

  ghost function Pushed(dnf: bool, kept: seq<int>): seq<int> {
    if dnf then EncodeLists(Singles(kept)) else kept
  }

  lemma PushedEmpty(pool: Pool, dep: Dep, dnf: bool, named: bool)
    ensures Pushed(dnf, Kept(pool, dep, named, [])) == []
  {
  }

  lemma PushedStep(pool: Pool, dep: Dep, dnf: bool, named: bool, rest: seq<int>, out: seq<int>, all: seq<int>)
    requires rest != [] && out + Pushed(dnf, Kept(pool, dep, named, rest)) == all
    ensures named && !pool.matches(rest[0], dep) ==> out + Pushed(dnf, Kept(pool, dep, named, rest[1..])) == all
    ensures !(named && !pool.matches(rest[0], dep)) && !dnf ==>
      out + [rest[0]] + Pushed(dnf, Kept(pool, dep, named, rest[1..])) == all
    ensures !(named && !pool.matches(rest[0], dep)) && dnf ==>
      out + [rest[0]] + [0] + Pushed(dnf, Kept(pool, dep, named, rest[1..])) == all
  {
    hide EncodeLists, Singles;
    var tail := Kept(pool, dep, named, rest[1..]);
    if named && !pool.matches(rest[0], dep) {
      assert [] + tail == tail;
    } else {
      SinglesCons(rest[0], tail);
      var e := Pushed(dnf, tail);
      if dnf {
        assert out + ([rest[0]] + [0] + e) == out + [rest[0]] + [0] + e;
      } else {
        assert out + ([rest[0]] + e) == out + [rest[0]] + e;
      }
    }
  }

  lemma SinglesCons(x: int, l: seq<int>)
    ensures EncodeLists(Singles([x] + l)) == [x] + [0] + EncodeLists(Singles(l))
  {
    var ls := Singles([x] + l);
    assert ls[0] == [x];
    assert ls[1..] == Singles(l);
  }

  /** The literal lists a leaf leaves in the queue. */
  ghost function LeafLists(dnf: bool, kept: seq<int>): seq<seq<int>> {
    if dnf then Singles(kept) else [kept]
  }

  lemma LeafMeaning(pool: Pool, dep: Dep, dnf: bool, named: bool)
    requires Valid(pool) && Providers(pool, dep) != [] && Providers(pool, dep)[0] != SYSTEMSOLVABLE
    ensures var kept := Kept(pool, dep, named, Providers(pool, dep));
      && (kept != [] ==>
           GoodLists(pool.nsolvables, LeafLists(dnf, kept)) && LeafLists(dnf, kept) != []
             && GoodLits(pool.nsolvables, kept))
      && (forall chosen :: kept == [] ==> !LeafHolds(pool, dep, named, chosen))
      && (forall chosen :: Reads(LeafLists(dnf, kept), dnf, chosen) <==> LeafHolds(pool, dep, named, chosen))
  {
    hide Kept, List;
    var l := Providers(pool, dep);
    assert ValidList(pool, pool.whatprovides(dep));
    var kept := Kept(pool, dep, named, l);
    KeptMembers(pool, dep, named, l);
    KeptAscending(pool, dep, named, l);
    forall x | x in kept ensures GoodLits(pool.nsolvables, [x]) { }
    forall chosen ensures Reads(LeafLists(dnf, kept), dnf, chosen) <==> LeafHolds(pool, dep, named, chosen)
      ensures kept == [] ==> !LeafHolds(pool, dep, named, chosen)
    {
      LeafReads(pool, dep, dnf, named, kept, chosen);
    }
  }

  lemma LeafReads(pool: Pool, dep: Dep, dnf: bool, named: bool, kept: seq<int>, chosen: set<int>)
    requires Valid(pool) && Providers(pool, dep) != [] && Providers(pool, dep)[0] != SYSTEMSOLVABLE
    requires forall p :: p in kept <==> p in Providers(pool, dep) && (named ==> pool.matches(p, dep))
    requires forall p :: p in kept ==> p > 0
    ensures Reads(LeafLists(dnf, kept), dnf, chosen) <==> LeafHolds(pool, dep, named, chosen)
    ensures kept == [] ==> !LeafHolds(pool, dep, named, chosen)
  {
    var ls := LeafLists(dnf, kept);
    if LeafHolds(pool, dep, named, chosen) {
      var p :| p in Providers(pool, dep) && p in chosen && (named ==> pool.matches(p, dep));
      assert p in kept && LitTrue(p, chosen);
      var i :| 0 <= i < |kept| && kept[i] == p;
      if dnf { assert AllTrue(ls[i], chosen); } else { assert ls[0] == kept; }
    }
    if Reads(ls, dnf, chosen) {
      if dnf {
        var i :| 0 <= i < |ls| && AllTrue(ls[i], chosen);
        var p := kept[i];
        assert p in ls[i] && p in kept && LitTrue(p, chosen);
        assert p in Providers(pool, dep) && p in chosen;
      } else {
        assert ls[0] == kept && AnyTrue(kept, chosen);
        var p :| p in kept && LitTrue(p, chosen);
        assert p in Providers(pool, dep) && p in chosen;
      }
    }
  }

  /** The fallback of `normalize_dep`: the dependency's package list. */
  method NormalizeLeaf(pool: Pool, dep: Dep, bq: Queue, dnf: bool, named: bool) returns (r: int, ghost bs: seq<Block>)
    requires Valid(pool) && !Complex(dep)
    modifies bq
    ensures Means(pool, old(bq.elements), bq.elements, r, bs, dnf, named, Plainly(dep))
  {
    hide Encode, Reads, Plain;
    var dp := pool.whatprovides(dep);
    assert ValidList(pool, dp);
    bs := [];
    SystemList(pool);
    if dp <= 2 || pool.data[dp] == 0 {
      return if dp == 2 then 1 else 0, [];
    }
    if pool.data[dp] == SYSTEMSOLVABLE {
      return 1, [];
    }
    r, bs := NormalizeProviders(pool, dep, bq, dnf, named, dp);
  }

  lemma SystemList(pool: Pool)
    requires Valid(pool)
    ensures List(pool.data, 2) == [SYSTEMSOLVABLE] && List(pool.data, 0) == [] && List(pool.data, 1) == []
  {
    assert List(pool.data, 2) == [1] + List(pool.data, 3);
  }

  method NormalizeProviders(pool: Pool, dep: Dep, bq: Queue, dnf: bool, named: bool, dp: int)
    returns (r: int, ghost bs: seq<Block>)
    requires Valid(pool) && !Complex(dep)
    requires dp == pool.whatprovides(dep) && dp > 2 && pool.data[dp] != 0 && pool.data[dp] != SYSTEMSOLVABLE
    modifies bq
    ensures Means(pool, old(bq.elements), bq.elements, r, bs, dnf, named, Plainly(dep))
  {
    hide Encode, Reads, Kept, Singles, EncodeLists, LeafHolds, LeafLists, Plain, GoodLits;
    ghost var was, ns := bq.elements, pool.nsolvables;
    assert Providers(pool, dep) == [pool.data[dp]] + List(pool.data, dp + 1);
    LeafMeaning(pool, dep, dnf, named);
    ghost var kept := Kept(pool, dep, named, Providers(pool, dep));
    LeafEncoding(pool, dnf, named, dep, kept, dp);
    KeptMembers(pool, dep, named, Providers(pool, dep));
    var bqcnt := |bq.elements|;
    if named || dnf {
      PushProviders(pool, dep, bq, dnf, named, dp);
    } else {
      bq.Push(pool.nsolvables);
      bq.Push(dp);
    }
    if |bq.elements| == bqcnt {
      return 0, [];
    }
    if !dnf {
      bq.Push(0);
    }
    r := -1;
    if named || dnf {
      bs := Wrap(LeafLists(dnf, kept));
      WrapGood(pool, LeafLists(dnf, kept));
    } else {
      bs := [Marker(dp)];
    }
    assert bq.elements == was + Encode(ns, bs);
  }

  lemma LeafEncoding(pool: Pool, dnf: bool, named: bool, dep: Dep, kept: seq<int>, dp: nat)
    requires 0 < dp < |pool.data|
    ensures EncodeLists(LeafLists(dnf, kept)) == if dnf then EncodeLists(Singles(kept)) else kept + [0]
    ensures dnf ==> (EncodeLists(Singles(kept)) == [] <==> kept == [])
    ensures Encode(pool.nsolvables, [Marker(dp)]) == [pool.nsolvables] + [dp] + [0]
    ensures GoodLits(pool.nsolvables, List(pool.data, dp)) ==>
      GoodBlocks(pool, [Marker(dp)]) && Plain(pool, [Marker(dp)]) == LeafLists(false, List(pool.data, dp))
  {
    NotEmpty(Singles(kept));
    if !dnf { assert [kept][1..] == []; assert EncodeLists([kept]) == kept + [0] + EncodeLists([]); }
    assert [Marker(dp)][1..] == [];
  }

  // ----- the entry point -----

  /** `normalize_dep`. */
  method NormalizeDep(pool: Pool, dep: Dep, bq: Queue, dnf: bool, named: bool) returns (r: int, ghost bs: seq<Block>)
    requires Valid(pool)
    modifies bq
    ensures Means(pool, old(bq.elements), bq.elements, r, bs, dnf, named, Plainly(dep))
    decreases Size(dep), 0
  {
    hide Encode, Plain, GoodBlock, Reads, Holds, ElseForm, Operands;
    var complex := IsComplexDepRd(dep);
    if complex {
      RewrittenMeans(pool, dep, named);
      match dep {
        case Cond(a, Else(b, c)) =>
          assert Size(dep) == 1 + Size(a) + Size(Else(b, c)) && Size(Else(b, c)) == 1 + Size(b) + Size(c);
          r, bs := NormalizeElse(pool, a, b, c, bq, dnf, named, false);
        case Cond(a, b) =>
          r, bs := NormalizePair(pool, a, b, bq, dnf, named, true, false);
        case Unless(a, Else(b, c)) =>
          assert Size(dep) == 1 + Size(a) + Size(Else(b, c)) && Size(Else(b, c)) == 1 + Size(b) + Size(c);
          r, bs := NormalizeElse(pool, a, b, c, bq, dnf, named, true);
        case Unless(a, b) =>
          r, bs := NormalizePair(pool, a, b, bq, dnf, named, true, true);
        case Or(a, b) =>
          r, bs := NormalizePair(pool, a, b, bq, dnf, named, false, false);
        case And(a, b) =>
          r, bs := NormalizePair(pool, a, b, bq, dnf, named, false, true);
      }
      return;
    }
    r, bs := NormalizeLeaf(pool, dep, bq, dnf, named);
  }

  /** What the source rewrites a complex dependency to. */
  ghost function Rewritten(dep: Dep): Form {
    match dep
    case Cond(a, Else(b, c)) => ElseForm(false, a, b, c)
    case Cond(a, b) => Operands(false, a, b, true)
    case Unless(a, Else(b, c)) => ElseForm(true, a, b, c)
    case Unless(a, b) => Operands(true, a, b, true)
    case Or(a, b) => Operands(false, a, b, false)
    case And(a, b) => Operands(true, a, b, false)
    case _ => Plainly(dep)
  }

  /** The rewritten form means what the dependency means. */
  lemma RewrittenMeans(pool: Pool, dep: Dep, named: bool)
    requires Valid(pool) && Complex(dep)
    ensures forall chosen: set<int> :: Eval(pool, Rewritten(dep), named, chosen) <==> Holds(pool, dep, named, chosen)
  {
    forall chosen: set<int> ensures Eval(pool, Rewritten(dep), named, chosen) <==> Holds(pool, dep, named, chosen) {
      match dep {
        case Cond(a, Else(b, c)) =>
          OperandsMean(pool, false, a, b, true, named, chosen);
          OperandsMean(pool, false, b, c, false, named, chosen);
        case Unless(a, Else(b, c)) =>
          OperandsMean(pool, true, a, b, true, named, chosen);
          OperandsMean(pool, true, b, c, false, named, chosen);
        case Cond(a, b) => OperandsMean(pool, false, a, b, true, named, chosen);
        case Unless(a, b) => OperandsMean(pool, true, a, b, true, named, chosen);
        case Or(a, b) => OperandsMean(pool, false, a, b, false, named, chosen);
        case And(a, b) => OperandsMean(pool, true, a, b, false, named, chosen);
      }
    }
  }

  lemma OperandsMean(pool: Pool, conj: bool, a: Dep, b: Dep, inv: bool, named: bool, chosen: set<int>)
    requires Valid(pool)
    ensures Eval(pool, Operands(conj, a, b, inv), named, chosen) <==>
      if conj then Holds(pool, a, named, chosen) && Holds(pool, b, named, chosen) != inv
      else Holds(pool, a, named, chosen) || Holds(pool, b, named, chosen) != inv
  {
    hide Holds;
    var f, g := Plainly(a), if inv then Neg(Plainly(b)) else Plainly(b);
    assert Eval(pool, f, named, chosen) <==> Holds(pool, a, named, chosen);
    assert Eval(pool, Plainly(b), named, chosen) <==> Holds(pool, b, named, chosen);
    assert Eval(pool, g, named, chosen) <==> (inv != Holds(pool, b, named, chosen));
  }

  /** `pool_normalize_complex_dep`. With `invert` the blocks are the negation, in the dual form; with `expand`
      or `invert` no provider marker is left. */
  method PoolNormalizeComplexDep(pool: Pool, dep: Dep, bq: Queue, dnf: bool, expand: bool, invert: bool, named: bool)
    returns (r: int, ghost bs: seq<Block>)
    requires Valid(pool)
    modifies bq
    ensures Means(pool, old(bq.elements), bq.elements, r, bs, dnf != invert, named,
                  if invert then Neg(Plainly(dep)) else Plainly(dep))
    ensures r == -1 && (expand || invert) ==> forall i :: 0 <= i < |bs| ==> bs[i].Lits?
  {
    hide Encode, Plain, Holds, GoodBlock, Reads, EncodeLists, InvertAll, WholeTokens, Expanded;
    ghost var was := bq.elements;
    var bqcnt := |bq.elements|;
    r, bs := NormalizeDep(pool, dep, bq, dnf, named);
    assert r == -1 ==> bq.elements[bqcnt..] == Encode(pool.nsolvables, bs);
    if expand {
      if r != 0 && r != 1 {
        ghost var b := bs;
        ExpandedMeans(pool, b, dnf, named, Plainly(dep));
        assert bqcnt <= 0 <= |bq.elements| ==> bq.elements[bqcnt..0] == [];
        var _ := ExpandSimpleDeps(pool, bq, bqcnt, 0);
        bs := Wrap(Plain(pool, b));
        assert bq.elements == was + Encode(pool.nsolvables, bs);
        assert bq.elements[bqcnt..] == Encode(pool.nsolvables, bs);
      }
    }
    if invert {
      ghost var b, r0 := bs, r;
      EvalNeg(pool, Plainly(dep), named);
      r := InvertDepBlocks(pool, bq, bqcnt, r, b);
      if r0 == -1 {
        InvertedMeans(pool, b, dnf, named, Plainly(dep));
        bs := Wrap(InvertAll(Plain(pool, b)));
      }
    }
  }

  /** Expanding the markers changes neither the reading nor the quality of the blocks. */
  lemma ExpandedMeans(pool: Pool, b: seq<Block>, dnf: bool, named: bool, f: Form)
    requires Valid(pool) && GoodBlocks(pool, b) && b != []
    ensures var bs := Wrap(Plain(pool, b));
      && GoodBlocks(pool, bs) && bs != [] && Plain(pool, bs) == Plain(pool, b)
      && WholeTokens(pool.nsolvables, Encode(pool.nsolvables, b)) && WholeTokens(pool.nsolvables, [])
      && Expanded(pool, Encode(pool.nsolvables, b)) == Encode(pool.nsolvables, bs)
  {
    hide Encode, Plain, GoodBlock, EncodeLists, Expanded;
    PlainGood(pool, b);
    WrapGood(pool, Plain(pool, b));
    ExpandedEncode(pool, b);
  }
}
