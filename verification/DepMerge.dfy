/** Merging, distributing and inverting literal blocks, and why that keeps their meaning. */
module DepMerge {
  import opened DepBlocks

  ghost function Merge(x: seq<int>, y: seq<int>): seq<int>
    decreases |x| + |y|
  {
    if x == [] then y
    else if y == [] then x
    else if x[0] < y[0] then [x[0]] + Merge(x[1..], y)
    else if x[0] == y[0] then [y[0]] + Merge(x[1..], y[1..])
    else [y[0]] + Merge(x, y[1..])
  }

  lemma {:induction false} MergeMembers(x: seq<int>, y: seq<int>)
    ensures forall v :: v in Merge(x, y) <==> v in x || v in y
    decreases |x| + |y|
  {
    if x != [] && y != [] {
      assert x == [x[0]] + x[1..] && y == [y[0]] + y[1..];
      if x[0] < y[0] {
        MergeMembers(x[1..], y);
      } else if x[0] == y[0] {
        MergeMembers(x[1..], y[1..]);
      } else {
        MergeMembers(x, y[1..]);
      }
    }
  }

  lemma AscendingTail(x: seq<int>)
    requires Ascending(x) && x != []
    ensures Ascending(x[1..])
    ensures forall v :: v in x[1..] ==> x[0] < v
  {
  }

  lemma AscendingCons(v: int, s: seq<int>)
    requires Ascending(s) && forall w :: w in s ==> v < w
    ensures Ascending([v] + s)
  {
    var r := [v] + s;
    forall i, j | 0 <= i < j < |r| ensures r[i] < r[j] {
      assert r[j] == s[j - 1] && s[j - 1] in s;
      if i > 0 { assert r[i] == s[i - 1]; }
    }
  }

  lemma {:induction false} MergeAscending(x: seq<int>, y: seq<int>)
    requires Ascending(x) && Ascending(y)
    ensures Ascending(Merge(x, y))
    decreases |x| + |y|
  {
    if x != [] && y != [] {
      AscendingTail(x);
      AscendingTail(y);
      assert forall v :: v in x ==> v == x[0] || v in x[1..];
      assert forall v :: v in y ==> v == y[0] || v in y[1..];
      if x[0] < y[0] {
        MergeAscending(x[1..], y); MergeMembers(x[1..], y);
        AscendingCons(x[0], Merge(x[1..], y));
      } else if x[0] == y[0] {
        MergeAscending(x[1..], y[1..]); MergeMembers(x[1..], y[1..]);
        AscendingCons(y[0], Merge(x[1..], y[1..]));
      } else {
        MergeAscending(x, y[1..]); MergeMembers(x, y[1..]);
        AscendingCons(y[0], Merge(x, y[1..]));
      }
    }
  }

  /** The blocks one block x makes with the blocks b. */
  ghost function Row(x: seq<int>, b: seq<seq<int>>): seq<seq<int>> {
    if b == [] then []
    else (if Clash(Merge(x, b[0])) then [] else [Merge(x, b[0])]) + Row(x, b[1..])
  }

  ghost function Product(a: seq<seq<int>>, b: seq<seq<int>>): seq<seq<int>> {
    if a == [] then [] else Row(a[0], b) + Product(a[1..], b)
  }

  lemma {:induction false} RowGood(ns: int, x: seq<int>, b: seq<seq<int>>)
    requires GoodLits(ns, x) && GoodLists(ns, b)
    ensures GoodLists(ns, Row(x, b))
    decreases |b|
  {
    if b != [] {
      RowGood(ns, x, b[1..]);
      MergeMembers(x, b[0]);
      MergeAscending(x, b[0]);
      assert x[0] in Merge(x, b[0]);
    }
  }

  lemma {:induction false} ProductGood(ns: int, a: seq<seq<int>>, b: seq<seq<int>>)
    requires GoodLists(ns, a) && GoodLists(ns, b)
    ensures GoodLists(ns, Product(a, b))
    decreases |a|
  {
    if a != [] {
      RowGood(ns, a[0], b);
      ProductGood(ns, a[1..], b);
    }
  }

  /** A clashing clause is a tautology and a clashing conjunction is never true. */
  lemma ClashMeaning(l: seq<int>, chosen: set<int>)
    requires Clash(l) && forall x :: x in l ==> x != 0
    ensures AnyTrue(l, chosen) && !AllTrue(l, chosen)
  {
    var x :| x in l && -x in l;
    assert LitTrue(x, chosen) <==> !LitTrue(-x, chosen);
  }

  lemma MergeMeaning(x: seq<int>, y: seq<int>, chosen: set<int>)
    ensures AnyTrue(Merge(x, y), chosen) <==> AnyTrue(x, chosen) || AnyTrue(y, chosen)
    ensures AllTrue(Merge(x, y), chosen) <==> AllTrue(x, chosen) && AllTrue(y, chosen)
  {
    MergeMembers(x, y);
  }

  lemma ReadsAppend(a: seq<seq<int>>, b: seq<seq<int>>, dnf: bool, chosen: set<int>)
    ensures Reads(a + b, dnf, chosen) <==>
      if dnf then Reads(a, dnf, chosen) || Reads(b, dnf, chosen) else Reads(a, dnf, chosen) && Reads(b, dnf, chosen)
  {
    var c := a + b;
    assert forall i :: 0 <= i < |a| ==> c[i] == a[i];
    assert forall i :: 0 <= i < |b| ==> c[|a| + i] == b[i];
    if dnf {
      if Reads(c, true, chosen) {
        var i :| 0 <= i < |c| && AllTrue(c[i], chosen);
        if i >= |a| { assert c[i] == b[i - |a|]; }
      }
    } else if Reads(a, false, chosen) && Reads(b, false, chosen) {
      forall i | 0 <= i < |c| ensures AnyTrue(c[i], chosen) {
        if i >= |a| { assert c[i] == b[i - |a|]; }
      }
    }
  }

  lemma ReadsOne(x: seq<int>, dnf: bool, chosen: set<int>)
    ensures Reads([x], dnf, chosen) <==> if dnf then AllTrue(x, chosen) else AnyTrue(x, chosen)
    ensures Reads([], dnf, chosen) <==> !dnf
  {
    assert [x][0] == x;
  }

  lemma ReadsCons(b: seq<seq<int>>, dnf: bool, chosen: set<int>)
    requires b != []
    ensures Reads(b, dnf, chosen) <==>
      if dnf then AllTrue(b[0], chosen) || Reads(b[1..], dnf, chosen)
      else AnyTrue(b[0], chosen) && Reads(b[1..], dnf, chosen)
  {
    ReadsAppend([b[0]], b[1..], dnf, chosen);
    ReadsOne(b[0], dnf, chosen);
    assert [b[0]] + b[1..] == b;
  }

  /** A row reads as its block combined with the other side: x or b in CNF, x and b in DNF. */
  lemma {:induction false} RowMeaning(ns: int, x: seq<int>, b: seq<seq<int>>, dnf: bool, chosen: set<int>)
    requires GoodLits(ns, x) && GoodLists(ns, b)
    ensures Reads(Row(x, b), dnf, chosen) <==>
      if dnf then AllTrue(x, chosen) && Reads(b, dnf, chosen) else AnyTrue(x, chosen) || Reads(b, dnf, chosen)
    decreases |b|
  {
    ReadsOne(x, dnf, chosen);
    if b != [] {
      var m := Merge(x, b[0]);
      RowMeaning(ns, x, b[1..], dnf, chosen);
      ReadsCons(b, dnf, chosen);
      MergeMeaning(x, b[0], chosen);
      MergeMembers(x, b[0]);
      ReadsOne(m, dnf, chosen);
      ReadsAppend(if Clash(m) then [] else [m], Row(x, b[1..]), dnf, chosen);
      if Clash(m) { ClashMeaning(m, chosen); }
    }
  }

  /** Distribution keeps the meaning: (A) or (B) in CNF, (A) and (B) in DNF. */
  lemma {:induction false} ProductMeaning(ns: int, a: seq<seq<int>>, b: seq<seq<int>>, dnf: bool, chosen: set<int>)
    requires GoodLists(ns, a) && GoodLists(ns, b)
    ensures Reads(Product(a, b), dnf, chosen) <==>
      if dnf then Reads(a, dnf, chosen) && Reads(b, dnf, chosen) else Reads(a, dnf, chosen) || Reads(b, dnf, chosen)
    decreases |a|
  {
    if a == [] {
      ReadsOne([], dnf, chosen);
    } else {
      ProductMeaning(ns, a[1..], b, dnf, chosen);
      RowMeaning(ns, a[0], b, dnf, chosen);
      ReadsCons(a, dnf, chosen);
      ReadsAppend(Row(a[0], b), Product(a[1..], b), dnf, chosen);
    }
  }

  // ----- inversion -----

  /** The literals negated, in reverse order, so that the block stays ascending. */
  function Inverted(l: seq<int>): (r: seq<int>)
    ensures |r| == |l|
  {
    seq(|l|, i requires 0 <= i < |l| => -l[|l| - 1 - i])
  }

  ghost function InvertAll(ls: seq<seq<int>>): (rs: seq<seq<int>>)
    ensures |rs| == |ls|
    ensures forall i :: 0 <= i < |ls| ==> rs[i] == Inverted(ls[i])
  {
    seq(|ls|, i requires 0 <= i < |ls| => Inverted(ls[i]))
  }

  lemma InvertedMembers(l: seq<int>)
    ensures forall x :: x in Inverted(l) <==> -x in l
  {
    forall x ensures x in Inverted(l) <==> -x in l {
      if x in Inverted(l) {
        var i :| 0 <= i < |l| && Inverted(l)[i] == x;
        assert l[|l| - 1 - i] == -x;
      }
      if -x in l {
        var i :| 0 <= i < |l| && l[i] == -x;
        assert Inverted(l)[|l| - 1 - i] == x;
      }
    }
  }

  lemma InvertedGood(ns: int, l: seq<int>)
    requires GoodLits(ns, l)
    ensures GoodLits(ns, Inverted(l))
  {
    InvertedMembers(l);
  }

  /** Inverted blocks, read in the dual form, are the negation. */
  lemma InvertMeaning(ns: int, ls: seq<seq<int>>, dnf: bool, chosen: set<int>)
    requires GoodLists(ns, ls)
    ensures Reads(InvertAll(ls), !dnf, chosen) <==> !Reads(ls, dnf, chosen)
    ensures GoodLists(ns, InvertAll(ls))
  {
    forall i | 0 <= i < |ls|
      ensures AnyTrue(Inverted(ls[i]), chosen) <==> !AllTrue(ls[i], chosen)
      ensures AllTrue(Inverted(ls[i]), chosen) <==> !AnyTrue(ls[i], chosen)
      ensures GoodLits(ns, Inverted(ls[i]))
    {
      InvertedBlockMeaning(ns, ls[i], chosen);
      InvertedGood(ns, ls[i]);
    }
  }

  lemma InvertedBlockMeaning(ns: int, l: seq<int>, chosen: set<int>)
    requires GoodLits(ns, l)
    ensures AnyTrue(Inverted(l), chosen) <==> !AllTrue(l, chosen)
    ensures AllTrue(Inverted(l), chosen) <==> !AnyTrue(l, chosen)
  {
    InvertedMembers(l);
    assert forall x :: x in l ==> (LitTrue(-x, chosen) <==> !LitTrue(x, chosen));
    if !AllTrue(l, chosen) {
      var x :| x in l && !LitTrue(x, chosen);
      assert -(-x) in l && -x in Inverted(l);
    }
    if AnyTrue(l, chosen) {
      var x :| x in l && LitTrue(x, chosen);
      assert -(-x) in l && -x in Inverted(l);
    }
  }
}
