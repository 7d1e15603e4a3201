/** The graph between packages that may be unneeded: an edge for every require, recommend and supplement between
    them. */
module EdgeBuild {
  import opened Containers
  import opened DepBlocks
  import opened CleanDeps
  import opened SccGraph
  import opened EdgeLists
  import opened Unneeded

  // ----- the nodes a dependency leads to -----

  /** All nodes of package p. */
  function Positions(q: seq<int>, p: int): (r: seq<int>)
    ensures forall x :: x in r <==> 1 <= x <= |q| && q[x - 1] == p
  {
    if q == [] then [] else Positions(q[..|q| - 1], p) + if q[|q| - 1] == p then [|q|] else []
  }

  /** The first node of package p; 0 if there is none. */
  function FirstAt(q: seq<int>, p: int): (r: nat)
    ensures r <= |q| && (r > 0 ==> q[r - 1] == p && p !in q[..r - 1]) && (r == 0 <==> p !in q)
  {
    if q == [] then 0
    else
      var r := FirstAt(q[..|q| - 1], p);
      assert q == q[..|q| - 1] + [q[|q| - 1]] && (r > 0 ==> q[..r - 1] == q[..|q| - 1][..r - 1]);
      if r != 0 then r else if q[|q| - 1] == p then |q| else 0
  }

  predicate Eligible(w: World, q: seq<int>, ip: int, p: int) {
    p != ip && p in w.inst && p in q
  }

  function PlainNodes(w: World, q: seq<int>, ip: int, l: seq<int>): (r: seq<int>)
    ensures forall x :: x in r <==> 1 <= x <= |q| && q[x - 1] in l && Eligible(w, q, ip, q[x - 1])
  {
    if l == [] then []
    else PlainNodes(w, q, ip, l[..|l| - 1]) + if Eligible(w, q, ip, l[|l| - 1]) then Positions(q, l[|l| - 1]) else []
  }

  /** First nodes only. */
  function FirstNodes(w: World, q: seq<int>, ip: int, l: seq<int>): (r: seq<int>)
    ensures forall x :: x in r ==> 1 <= x <= |q|
  {
    if l == [] then []
    else FirstNodes(w, q, ip, l[..|l| - 1]) + if Eligible(w, q, ip, l[|l| - 1]) then [FirstAt(q, l[|l| - 1])] else []
  }

  /** One node for every eligible package of l, and no others. */
  lemma {:induction false} FirstNodesMembers(w: World, q: seq<int>, ip: int, l: seq<int>, x: int)
    ensures x in FirstNodes(w, q, ip, l) <==> exists p :: p in l && Eligible(w, q, ip, p) && FirstAt(q, p) == x
  {
    hide FirstAt, Eligible;
    if l != [] {
      var k, p := l[..|l| - 1], l[|l| - 1];
      FirstNodesMembers(w, q, ip, k, x);
      assert l == k + [p];
      forall y ensures y in l <==> y in k || y == p {
      }
    }
  }

  /** The packages of a block in front of its first negative one that is not installed. */
  function Leading(w: World, l: seq<int>): seq<int> {
    if l == [] || (l[0] < 0 && -l[0] !in w.inst) then []
    else (if l[0] > 0 then [l[0]] else []) + Leading(w, l[1..])
  }

  function BlockNodes(w: World, q: seq<int>, ip: int, bs: seq<seq<int>>): (r: seq<int>)
    ensures forall x :: x in r ==> 1 <= x <= |q|
  {
    if bs == [] then [] else BlockNodes(w, q, ip, bs[..|bs| - 1]) + FirstNodes(w, q, ip, Leading(w, bs[|bs| - 1]))
  }

  /** Providers that count against `justone`. */
  function Others(w: World, ip: int, l: seq<int>): nat {
    if l == [] then 0 else Others(w, ip, l[..|l| - 1]) + if l[|l| - 1] != ip && l[|l| - 1] in w.inst then 1 else 0
  }

  function DepNodes(w: World, q: seq<int>, justone: bool, ip: int, d: Dep): (r: seq<int>)
    requires Lists(w)
    ensures forall x :: x in r ==> 1 <= x <= |q|
  {
    if Complex(d) then BlockNodes(w, q, ip, w.cnf(d))
    else if justone && Others(w, ip, Providers(w.pool, d)) != 1 then []
    else PlainNodes(w, q, ip, Providers(w.pool, d))
  }

  function DepsNodes(w: World, q: seq<int>, justone: bool, ip: int, ds: seq<Dep>): (r: seq<int>)
    requires Lists(w)
    ensures forall x :: x in r ==> 1 <= x <= |q|
  {
    if ds == [] then [] else DepsNodes(w, q, justone, ip, ds[..|ds| - 1]) + DepNodes(w, q, justone, ip, ds[|ds| - 1])
  }

  /** The list of required nodes. */
  function Required(w: World, q: seq<int>, justone: bool, ip: int): seq<int>
    requires Lists(w)
  {
    PutAll([], DepsNodes(w, q, justone, ip, w.reqs(ip)))
  }

  /** Required nodes, then recommended ones. */
  function Wanted(w: World, q: seq<int>, justone: bool, ip: int): seq<int>
    requires Lists(w)
  {
    PutAll(Required(w, q, justone, ip), DepsNodes(w, q, justone, ip, w.recs(ip)))
  }

  lemma WantedMembers(w: World, q: seq<int>, justone: bool, ip: int)
    requires Lists(w)
    ensures var a, r := Required(w, q, justone, ip), Wanted(w, q, justone, ip);
      && |a| <= |r| && r[..|a|] == a && 0 !in r
      && (forall x :: x in a <==> x in DepsNodes(w, q, justone, ip, w.reqs(ip)))
      && SameNodes(r[|a|..], News(a, DepsNodes(w, q, justone, ip, w.recs(ip))))
      && (forall x :: x in r ==> 1 <= x <= |q|)
  {
    hide DepsNodes, PutAll, Lists;
    PutAllMembers([], DepsNodes(w, q, justone, ip, w.reqs(ip)));
    PutAllMembers(Required(w, q, justone, ip), DepsNodes(w, q, justone, ip, w.recs(ip)));
  }

  // ----- the same without lists of nodes -----

  lemma FrontMoves(m: set<int>, l: seq<int>, p: int)
    requires l != [] && InFront(m, l[1..], p) && (l[0] < 0 ==> -l[0] in m)
    ensures InFront(m, l, p)
  {
    var k := l[1..];
    var i :| FrontAt(m, k, p, i);
    forall j | 0 <= j < i + 1 && l[j] < 0 ensures -l[j] in m {
      if j > 0 { assert k[j - 1] == l[j]; }
    }
    assert FrontAt(m, l, p, i + 1);
  }

  lemma FrontTail(m: set<int>, l: seq<int>, p: int)
    requires l != [] && InFront(m, l, p)
    ensures (l[0] < 0 ==> -l[0] in m) && ((p == l[0] && p > 0) || InFront(m, l[1..], p))
  {
    var i :| FrontAt(m, l, p, i);
    if i > 0 {
      var k := l[1..];
      assert forall j :: 0 <= j < i ==> k[j] == l[j + 1];
      assert FrontAt(m, k, p, i - 1);
    }
  }

  /** The packages of a block are its packages in front. */
  lemma {:induction false} LeadingMembers(w: World, l: seq<int>, p: int)
    ensures p in Leading(w, l) <==> InFront(w.inst, l, p)
  {
    hide InFront;
    if l == [] {
      NothingFirst(w.inst, l, p);
    } else {
      if InFront(w.inst, l, p) { FrontTail(w.inst, l, p); }
      if !(l[0] < 0 && -l[0] !in w.inst) {
        LeadingMembers(w, l[1..], p);
        if InFront(w.inst, l[1..], p) { FrontMoves(w.inst, l, p); }
        NothingFirst(w.inst, l, p);
      }
    }
  }

  lemma NothingFirst(m: set<int>, l: seq<int>, p: int)
    ensures l == [] ==> !InFront(m, l, p)
    ensures l != [] && l[0] == p && p > 0 ==> InFront(m, l, p)
  {
    if l != [] && l[0] == p && p > 0 { assert FrontAt(m, l, p, 0); }
  }

  lemma {:induction false} BlockNodesMembers(w: World, q: seq<int>, ip: int, bs: seq<seq<int>>, x: int)
    ensures x in BlockNodes(w, q, ip, bs) <==>
      exists j :: 0 <= j < |bs| && x in FirstNodes(w, q, ip, Leading(w, bs[j]))
  {
    hide FirstNodes, Leading;
    if bs != [] {
      var k := bs[..|bs| - 1];
      BlockNodesMembers(w, q, ip, k, x);
      assert forall j :: 0 <= j < |k| ==> k[j] == bs[j];
    }
  }

  /** Entry k is the only one that is installed and not ip. */
  ghost predicate Sole(w: World, ip: int, l: seq<int>, k: int) {
    0 <= k < |l| && forall m :: 0 <= m < |l| ==> (l[m] != ip && l[m] in w.inst <==> m == k)
  }

  lemma {:induction false} OthersCount(w: World, ip: int, l: seq<int>)
    ensures Others(w, ip, l) == 0 <==> forall m :: 0 <= m < |l| ==> l[m] == ip || l[m] !in w.inst
    ensures Others(w, ip, l) == 1 <==> exists k :: Sole(w, ip, l, k)
  {
    if l != [] {
      var n := |l| - 1;
      var h := l[..n];
      OthersCount(w, ip, h);
      assert forall m :: 0 <= m < n ==> h[m] == l[m];
      if l[n] != ip && l[n] in w.inst {
        if Others(w, ip, h) == 0 { assert Sole(w, ip, l, n); }
        if k :| Sole(w, ip, l, k) { assert k == n; }
      } else {
        if k :| Sole(w, ip, h, k) { assert Sole(w, ip, l, k); }
        if k :| Sole(w, ip, l, k) { assert k != n && Sole(w, ip, h, k); }
      }
    }
  }

  /** Dependency d of ip draws an edge to node x: a package it leads to, for a complex dependency at the package's first
      node only. With `justone`, a plain dependency has no other installed provider. */
  ghost predicate DrawsTo(w: World, q: seq<int>, justone: bool, ip: int, d: Dep, x: int)
    requires Lists(w)
  {
    && 1 <= x <= |q|
    && q[x - 1] != ip && q[x - 1] in w.inst && LeadsTo(w, w.inst, d, q[x - 1])
    && if Complex(d) then q[x - 1] !in q[..x - 1] else justone ==> exists k :: Sole(w, ip, Providers(w.pool, d), k)
  }

  lemma FirstNode(q: seq<int>, p: int, x: int)
    ensures p in q && FirstAt(q, p) == x <==> 1 <= x <= |q| && q[x - 1] == p && p !in q[..x - 1]
  {
    if 1 <= x <= |q| && q[x - 1] == p && p !in q[..x - 1] { FirstIs(q, p, x - 1); }
  }

  lemma BlockDraws(w: World, q: seq<int>, ip: int, l: seq<int>, x: int)
    ensures x in FirstNodes(w, q, ip, Leading(w, l)) <==>
      && 1 <= x <= |q| && q[x - 1] !in q[..x - 1]
      && q[x - 1] != ip && q[x - 1] in w.inst && InFront(w.inst, l, q[x - 1])
  {
    hide FirstNodes, Leading, FirstAt, InFront;
    FirstNodesMembers(w, q, ip, Leading(w, l), x);
    if p :| p in Leading(w, l) && Eligible(w, q, ip, p) && FirstAt(q, p) == x {
      FirstNode(q, p, x);
      LeadingMembers(w, l, p);
    }
    if 1 <= x <= |q| {
      FirstNode(q, q[x - 1], x);
      LeadingMembers(w, l, q[x - 1]);
    }
  }

  lemma DepDraws(w: World, q: seq<int>, justone: bool, ip: int, d: Dep, x: int)
    requires Lists(w)
    ensures x in DepNodes(w, q, justone, ip, d) <==> DrawsTo(w, q, justone, ip, d, x)
  {
    hide BlockNodes, PlainNodes, FirstNodes, Leading, Others, Sole, InFront, List;
    if Complex(d) {
      var bs := w.cnf(d);
      BlockNodesMembers(w, q, ip, bs, x);
      forall j | 0 <= j < |bs|
        ensures x in FirstNodes(w, q, ip, Leading(w, bs[j])) <==>
          && 1 <= x <= |q| && q[x - 1] !in q[..x - 1]
          && q[x - 1] != ip && q[x - 1] in w.inst && InFront(w.inst, bs[j], q[x - 1])
      {
        BlockDraws(w, q, ip, bs[j], x);
      }
    } else {
      OthersCount(w, ip, Providers(w.pool, d));
      if 1 <= x <= |q| { assert q[x - 1] in q; }
    }
  }

  lemma {:induction false} DepsDraw(w: World, q: seq<int>, justone: bool, ip: int, ds: seq<Dep>, x: int)
    requires Lists(w)
    ensures x in DepsNodes(w, q, justone, ip, ds) <==> exists d :: d in ds && DrawsTo(w, q, justone, ip, d, x)
  {
    hide DepNodes, DrawsTo, Lists;
    if ds != [] {
      var k, d := ds[..|ds| - 1], ds[|ds| - 1];
      DepsDraw(w, q, justone, ip, k, x);
      DepDraws(w, q, justone, ip, d, x);
      assert ds == k + [d];
    }
  }

  // ----- drawing requires and recommends -----

  method FindNode(q: seq<int>, p: int) returns (x: nat)
    ensures x == FirstAt(q, p)
  {
    for j := 0 to |q|
      invariant p !in q[..j]
    {
      assert q[..j + 1] == q[..j] + [q[j]];
      if q[j] == p {
        FirstIs(q, p, j);
        return j + 1;
      }
    }
    assert q[..|q|] == q;
    return 0;
  }

  lemma {:induction false} FirstIs(q: seq<int>, p: int, j: nat)
    requires j < |q| && q[j] == p && p !in q[..j]
    ensures FirstAt(q, p) == j + 1
  {
    var r := q[..|q| - 1];
    if j == |q| - 1 {
      assert q[..j] == r;
    } else {
      assert r[..j] == q[..j];
      FirstIs(r, p, j);
    }
  }

  /** Edges to all nodes of a package. */
  method AddAll(edges: Queue, q: seq<int>, p: int, ghost adj: seq<seq<int>>, ghost acc: seq<int>)
    requires |adj| < |q| && edges.elements == Open(|q|, adj, acc)
    modifies edges
    ensures edges.elements == Open(|q|, adj, PutAll(acc, Positions(q, p)))
  {
    hide Open;
    assert q[..|q|] == q;
    for j := 0 to |q|
      invariant edges.elements == Open(|q|, adj, PutAll(acc, Positions(q[..j], p)))
    {
      assert q[..j + 1][..j] == q[..j];
      if q[j] == p {
        PutSnoc(acc, Positions(q[..j], p), j + 1);
        AddEdge(edges, j + 1, |q|, adj, PutAll(acc, Positions(q[..j], p)));
      } else {
        assert Positions(q[..j + 1], p) == Positions(q[..j], p);
      }
    }
  }

  lemma PutSnoc(acc: seq<int>, xs: seq<int>, x: int)
    ensures PutAll(acc, xs + [x]) == Put(PutAll(acc, xs), x)
  {
    assert (xs + [x])[..|xs|] == xs;
  }

  method AddPlain(edges: Queue, w: World, q: seq<int>, ip: int, l: seq<int>, ghost adj: seq<seq<int>>,
                  ghost acc: seq<int>)
    requires |adj| < |q| && edges.elements == Open(|q|, adj, acc)
    modifies edges
    ensures edges.elements == Open(|q|, adj, PutAll(acc, PlainNodes(w, q, ip, l)))
  {
    hide Open, Positions, PutAll;
    assert l[..|l|] == l;
    PutNone(acc);
    for k := 0 to |l|
      invariant edges.elements == Open(|q|, adj, PutAll(acc, PlainNodes(w, q, ip, l[..k])))
    {
      assert l[..k + 1][..k] == l[..k];
      if Eligible(w, q, ip, l[k]) {
        AddAll(edges, q, l[k], adj, PutAll(acc, PlainNodes(w, q, ip, l[..k])));
        PutAllTwice(acc, PlainNodes(w, q, ip, l[..k]), Positions(q, l[k]));
      } else {
        assert PlainNodes(w, q, ip, l[..k + 1]) == PlainNodes(w, q, ip, l[..k]);
      }
    }
  }

  lemma PutNone(acc: seq<int>)
    ensures PutAll(acc, []) == acc
  {
  }

  /** One block of a complex dependency. */
  method AddBlock(edges: Queue, w: World, q: seq<int>, ip: int, l: seq<int>, ghost adj: seq<seq<int>>,
                  ghost acc: seq<int>)
    requires |adj| < |q| && edges.elements == Open(|q|, adj, acc)
    modifies edges
    ensures edges.elements == Open(|q|, adj, PutAll(acc, FirstNodes(w, q, ip, Leading(w, l))))
  {
    hide Open, FirstNodes, PutAll, FirstAt, Leading;
    NoNodes(w, q, ip, acc);
    ghost var done: seq<int> := [];
    var i := 0;
    assert l[0..] == l;
    while i < |l|
      invariant 0 <= i <= |l| && done + Leading(w, l[i..]) == Leading(w, l)
      invariant edges.elements == Open(|q|, adj, PutAll(acc, FirstNodes(w, q, ip, done)))
    {
      var p := l[i];
      LeadingStep(w, l, i, done);
      if p < 0 && -p !in w.inst { break; }
      if p > 0 {
        OneMore(w, q, ip, acc, done, p);
        if Eligible(w, q, ip, p) {
          var x := FindNode(q, p);
          AddEdge(edges, x, |q|, adj, PutAll(acc, FirstNodes(w, q, ip, done)));
        }
        done := done + [p];
      }
      i := i + 1;
    }
    if i == |l| { LeadingEnd(w, l); }
    assert done + [] == done;
  }

  lemma LeadingStep(w: World, l: seq<int>, i: nat, done: seq<int>)
    requires i < |l|
    ensures l[i] < 0 && -l[i] !in w.inst ==> Leading(w, l[i..]) == []
    ensures !(l[i] < 0 && -l[i] !in w.inst) ==>
      done + Leading(w, l[i..]) == (if l[i] > 0 then done + [l[i]] else done) + Leading(w, l[i + 1..])
  {
    assert l[i..][1..] == l[i + 1..];
  }

  lemma LeadingEnd(w: World, l: seq<int>)
    ensures Leading(w, l[|l|..]) == []
  {
  }

  lemma NoNodes(w: World, q: seq<int>, ip: int, acc: seq<int>)
    ensures PutAll(acc, FirstNodes(w, q, ip, [])) == acc
  {
  }

  lemma OneMore(w: World, q: seq<int>, ip: int, acc: seq<int>, done: seq<int>, p: int)
    ensures PutAll(acc, FirstNodes(w, q, ip, done + [p]))
         == if Eligible(w, q, ip, p) then Put(PutAll(acc, FirstNodes(w, q, ip, done)), FirstAt(q, p))
           else PutAll(acc, FirstNodes(w, q, ip, done))
  {
    assert (done + [p])[..|done|] == done;
    var f := FirstNodes(w, q, ip, done);
    PutSnoc(acc, f, FirstAt(q, p));
    assert f + [] == f;
  }

  method AddComplex(edges: Queue, w: World, q: seq<int>, ip: int, bs: seq<seq<int>>, ghost adj: seq<seq<int>>,
      ghost acc: seq<int>)
    requires |adj| < |q| && edges.elements == Open(|q|, adj, acc)
    modifies edges
    ensures edges.elements == Open(|q|, adj, PutAll(acc, BlockNodes(w, q, ip, bs)))
  {
    hide Open, FirstNodes, PutAll, Leading;
    assert bs[..|bs|] == bs;
    PutNone(acc);
    for k := 0 to |bs|
      invariant edges.elements == Open(|q|, adj, PutAll(acc, BlockNodes(w, q, ip, bs[..k])))
    {
      assert bs[..k + 1][..k] == bs[..k];
      AddBlock(edges, w, q, ip, bs[k], adj, PutAll(acc, BlockNodes(w, q, ip, bs[..k])));
      PutAllTwice(acc, BlockNodes(w, q, ip, bs[..k]), FirstNodes(w, q, ip, Leading(w, bs[k])));
    }
  }

  method CountOthers(w: World, ip: int, l: seq<int>) returns (n: nat)
    ensures n == Others(w, ip, l)
  {
    n := 0;
    assert l[..|l|] == l;
    for k := 0 to |l|
      invariant n == Others(w, ip, l[..k])
    {
      assert l[..k + 1][..k] == l[..k];
      if l[k] != ip && l[k] in w.inst { n := n + 1; }
    }
  }

  method AddDep(edges: Queue, w: World, q: seq<int>, justone: bool, ip: int, d: Dep, ghost adj: seq<seq<int>>,
      ghost acc: seq<int>)
    requires Lists(w) && |adj| < |q| && edges.elements == Open(|q|, adj, acc)
    modifies edges
    ensures edges.elements == Open(|q|, adj, PutAll(acc, DepNodes(w, q, justone, ip, d)))
  {
    hide Open, PutAll, BlockNodes, PlainNodes, Others;
    PutNone(acc);
    if Complex(d) {
      AddComplex(edges, w, q, ip, w.cnf(d), adj, acc);
      return;
    }
    var l := Providers(w.pool, d);
    if justone {
      var n := CountOthers(w, ip, l);
      if n != 1 { return; }
    }
    AddPlain(edges, w, q, ip, l, adj, acc);
  }

  method AddDeps(edges: Queue, w: World, q: seq<int>, justone: bool, ip: int, ds: seq<Dep>, ghost adj: seq<seq<int>>,
      ghost acc: seq<int>)
    requires Lists(w) && |adj| < |q| && edges.elements == Open(|q|, adj, acc)
    modifies edges
    ensures edges.elements == Open(|q|, adj, PutAll(acc, DepsNodes(w, q, justone, ip, ds)))
  {
    hide Open, PutAll, DepNodes;
    assert ds[..|ds|] == ds;
    PutNone(acc);
    for k := 0 to |ds|
      invariant edges.elements == Open(|q|, adj, PutAll(acc, DepsNodes(w, q, justone, ip, ds[..k])))
    {
      assert ds[..k + 1][..k] == ds[..k];
      AddDep(edges, w, q, justone, ip, ds[k], adj, PutAll(acc, DepsNodes(w, q, justone, ip, ds[..k])));
      PutAllTwice(acc, DepsNodes(w, q, justone, ip, ds[..k]), DepNodes(w, q, justone, ip, ds[k]));
    }
  }

  function BaseLists(w: World, q: seq<int>, justone: bool, i: nat): (r: seq<seq<int>>)
    requires Lists(w) && i <= |q|
    ensures |r| == i
  {
    seq(i, k requires 0 <= k < i => Wanted(w, q, justone, q[k]))
  }

  function BaseCounts(w: World, q: seq<int>, justone: bool, i: nat): (r: seq<nat>)
    requires Lists(w) && i <= |q|
    ensures |r| == i
  {
    seq(i, k requires 0 <= k < i => |Required(w, q, justone, q[k])|)
  }

  lemma BaseStep(w: World, q: seq<int>, justone: bool, i: nat)
    requires Lists(w) && i < |q|
    ensures BaseLists(w, q, justone, i + 1) == BaseLists(w, q, justone, i) + [Wanted(w, q, justone, q[i])]
    ensures BaseCounts(w, q, justone, i + 1) == BaseCounts(w, q, justone, i) + [|Required(w, q, justone, q[i])|]
  {
    hide Wanted, Required;
  }

  /** The first n nodes of l are those that the requires of ip draw to; together with the others they are those that its
      needs draw to. */
  ghost predicate NeedsListed(w: World, q: seq<int>, justone: bool, ip: int, l: seq<int>, n: nat)
    requires Lists(w)
  {
    && n <= |l|
    && (forall x :: x in l[..n] <==> exists d :: d in w.reqs(ip) && DrawsTo(w, q, justone, ip, d, x))
    && (forall x :: x in l <==> exists d :: Needed(w, ip, d) && DrawsTo(w, q, justone, ip, d, x))
  }

  lemma WantedListed(w: World, q: seq<int>, justone: bool, ip: int)
    requires Lists(w)
    ensures NeedsListed(w, q, justone, ip, Wanted(w, q, justone, ip), |Required(w, q, justone, ip)|)
  {
    hide DepsNodes, PutAll, DrawsTo;
    var a, b := DepsNodes(w, q, justone, ip, w.reqs(ip)), DepsNodes(w, q, justone, ip, w.recs(ip));
    PutAllMembers([], a);
    PutAllMembers(Required(w, q, justone, ip), b);
    forall x ensures x in a <==> exists d :: d in w.reqs(ip) && DrawsTo(w, q, justone, ip, d, x) {
      DepsDraw(w, q, justone, ip, w.reqs(ip), x);
    }
    forall x ensures x in b <==> exists d :: d in w.recs(ip) && DrawsTo(w, q, justone, ip, d, x) {
      DepsDraw(w, q, justone, ip, w.recs(ip), x);
    }
  }

  /** The lists of required and recommended nodes, one after the other. */
  method DrawNeeds(edges: Queue, w: World, q: seq<int>, justone: bool) returns (nrequires: seq<nat>)
    requires Lists(w) && edges.elements == Flat(|q|, [])
    modifies edges
    ensures edges.elements == Flat(|q|, BaseLists(w, q, justone, |q|)) && nrequires == BaseCounts(w, q, justone, |q|)
    ensures forall i :: 0 <= i < |q| ==>
      NeedsListed(w, q, justone, q[i], BaseLists(w, q, justone, |q|)[i], nrequires[i])
  {
    hide Open, Flat, PutAll, DepsNodes, Lists, NeedsListed;
    nrequires := [];
    for i := 0 to |q|
      invariant edges.elements == Flat(|q|, BaseLists(w, q, justone, i)) && nrequires == BaseCounts(w, q, justone, i)
    {
      ghost var adj := BaseLists(w, q, justone, i);
      var oldcount := |edges.elements|;
      Opened(|q|, adj);
      FlatSize(|q|, adj);
      edges.elements := edges.elements[i + 1 := oldcount];
      AddDeps(edges, w, q, justone, q[i], w.reqs(q[i]), adj, []);
      OpenSize(|q|, adj, Required(w, q, justone, q[i]));
      nrequires := nrequires + [|edges.elements| - oldcount];
      AddDeps(edges, w, q, justone, q[i], w.recs(q[i]), adj, Required(w, q, justone, q[i]));
      Finished(|q|, adj, Wanted(w, q, justone, q[i]));
      edges.Push(0);
      BaseStep(w, q, justone, i);
    }
    forall i | 0 <= i < |q| ensures NeedsListed(w, q, justone, q[i], Wanted(w, q, justone, q[i]), nrequires[i]) {
      WantedListed(w, q, justone, q[i]);
    }
  }

  lemma FlatSize(n: nat, adj: seq<seq<int>>)
    requires |adj| <= n
    ensures |Flat(n, adj)| >= n + 2
  {
  }

  lemma OpenSize(n: nat, adj: seq<seq<int>>, acc: seq<int>)
    requires |adj| < n
    ensures |Open(n, adj, acc)| == |Flat(n, adj)| + |acc|
  {
  }

  // ----- drawing supplements -----

  function Everything(w: World): set<int> {
    AllNodes(if w.pool.nsolvables > 0 then w.pool.nsolvables - 1 else 0)
  }

  /** What the supplements of a package that hold for the installed system look at. */
  function Supplemented(w: World, justone: bool, ds: seq<Dep>): seq<int>
    requires Lists(w)
  {
    if ds == [] then []
    else
      var d := ds[|ds| - 1];
      var look := PkgCheck(w, d, Everything(w));
      Supplemented(w, justone, ds[..|ds| - 1])
        + if Possible(w, d, w.inst) && !(justone && |look| != 1) then look else []
  }

  /** The nodes that node x supplements. */
  function SupplementedNodes(w: World, q: seq<int>, justone: bool, ip: int): seq<int>
    requires Lists(w)
  {
    FirstNodes(w, q, ip, Supplemented(w, justone, w.supplements(ip)))
  }

  function PairsOf(js: seq<int>, x: int): (r: set<(int, int)>)
    ensures forall j, y :: (j, y) in r <==> j in js && y == x
  {
    if js == [] then {} else PairsOf(js[..|js| - 1], x) + {(js[|js| - 1], x)}
  }

  /** (u, x): node x, one of the first n, supplements node u. */
  function SuppPairs(w: World, q: seq<int>, justone: bool, n: nat): set<(int, int)>
    requires Lists(w) && n <= |q|
  {
    if n == 0 then {} else SuppPairs(w, q, justone, n - 1) + PairsOf(SupplementedNodes(w, q, justone, q[n - 1]), n)
  }

  lemma {:induction false} SuppPairsMembers(w: World, q: seq<int>, justone: bool, n: nat, u: int, x: int)
    requires Lists(w) && n <= |q|
    ensures (u, x) in SuppPairs(w, q, justone, n) <==> 1 <= x <= n && u in SupplementedNodes(w, q, justone, q[x - 1])
  {
    hide SupplementedNodes, PairsOf;
    if n > 0 { SuppPairsMembers(w, q, justone, n - 1, u, x); }
  }

  // ----- the same without lists of packages -----

  /** Supplement d holds for the installed system and looks at p; with `justone`, at a single entry. */
  ghost predicate Counts(w: World, justone: bool, d: Dep, p: int)
    requires Lists(w)
  {
    && Possible(w, d, w.inst)
    && p in PkgCheck(w, d, Everything(w))
    && (justone ==> |PkgCheck(w, d, Everything(w))| == 1)
  }

  ghost predicate AnyCounts(w: World, justone: bool, ds: seq<Dep>, p: int)
    requires Lists(w)
  {
    exists d :: d in ds && Counts(w, justone, d, p)
  }

  /** u is the first node of an installed package that a supplement of the package of node x looks at. */
  ghost predicate Supplements(w: World, q: seq<int>, justone: bool, u: int, x: int)
    requires Lists(w)
  {
    && 1 <= x <= |q| && 1 <= u <= |q|
    && q[u - 1] !in q[..u - 1] && q[u - 1] != q[x - 1] && q[u - 1] in w.inst
    && AnyCounts(w, justone, w.supplements(q[x - 1]), q[u - 1])
  }

  lemma {:induction false} SupplementedMembers(w: World, justone: bool, ds: seq<Dep>, p: int)
    requires Lists(w)
    ensures p in Supplemented(w, justone, ds) <==> AnyCounts(w, justone, ds, p)
  {
    hide PkgCheck, Possible, Everything, Lists;
    if ds != [] {
      var k, d := ds[..|ds| - 1], ds[|ds| - 1];
      SupplementedMembers(w, justone, k, p);
      assert ds == k + [d];
      assert p in Supplemented(w, justone, ds) <==> p in Supplemented(w, justone, k) || Counts(w, justone, d, p);
      AnyLast(w, justone, k, d, p);
    }
  }

  lemma AnyLast(w: World, justone: bool, k: seq<Dep>, d: Dep, p: int)
    requires Lists(w)
    ensures AnyCounts(w, justone, k + [d], p) <==> AnyCounts(w, justone, k, p) || Counts(w, justone, d, p)
  {
    hide Counts, Lists;
    assert d in k + [d];
  }

  lemma PairSupplements(w: World, q: seq<int>, justone: bool, u: int, x: int)
    requires Lists(w)
    ensures (u, x) in SuppPairs(w, q, justone, |q|) <==> Supplements(w, q, justone, u, x)
  {
    hide SuppPairs, Supplemented, Counts, Lists, FirstNodes, FirstAt;
    SuppPairsMembers(w, q, justone, |q|, u, x);
    if 1 <= x <= |q| {
      var l := Supplemented(w, justone, w.supplements(q[x - 1]));
      FirstNodesMembers(w, q, q[x - 1], l, u);
      if p :| p in l && Eligible(w, q, q[x - 1], p) && FirstAt(q, p) == u { FirstNode(q, p, u); }
      if 1 <= u <= |q| {
        FirstNode(q, q[u - 1], u);
        SupplementedMembers(w, justone, w.supplements(q[x - 1]), q[u - 1]);
      }
    }
  }

  /** The lists of `base` with the pairs of `added` put in behind the required nodes. */
  ghost predicate Extended(adj: seq<seq<int>>, base: seq<seq<int>>, nreq: seq<nat>, added: set<(int, int)>) {
    && |adj| == |base| == |nreq|
    && forall u :: 0 <= u < |adj| ==> ListExtended(adj[u], base[u], nreq[u], added, u)
  }

  ghost predicate ListExtended(l: seq<int>, b: seq<int>, k: nat, added: set<(int, int)>, u: nat) {
    && k <= |b| && k <= |l| && l[..k] == b[..k]
    && forall x :: x in l[k..] <==> x in b[k..] || (u + 1, x) in added
  }

  lemma ExtendOne(adj: seq<seq<int>>, base: seq<seq<int>>, nreq: seq<nat>, added: set<(int, int)>, j: nat, x: int)
    requires Extended(adj, base, nreq, added) && j < |adj|
    ensures nreq[j] <= |adj[j]| && Extended(Inserted(adj, j, nreq[j], x), base, nreq, added + {(j + 1, x)})
  {
    hide ListExtended;
    forall u | 0 <= u < |adj|
      ensures nreq[j] <= |adj[j]|
      ensures ListExtended(Inserted(adj, j, nreq[j], x)[u], base[u], nreq[u], added + {(j + 1, x)}, u)
    {
      assert ListExtended(adj[u], base[u], nreq[u], added, u);
      ListExtend(adj[j], base[j], nreq[j], added, j, x);
      Elsewhere(adj[u], base[u], nreq[u], added, u, j, x);
    }
  }

  lemma ListExtend(l: seq<int>, b: seq<int>, k: nat, added: set<(int, int)>, u: nat, x: int)
    requires ListExtended(l, b, k, added, u)
    ensures k <= |l| && ListExtended(l[..k] + [x] + l[k..], b, k, added + {(u + 1, x)}, u)
  {
    var r := l[..k] + [x] + l[k..];
    assert r[..k] == b[..k];
    assert r[k..] == [x] + l[k..];
  }

  lemma Elsewhere(l: seq<int>, b: seq<int>, k: nat, added: set<(int, int)>, u: nat, j: nat, x: int)
    requires ListExtended(l, b, k, added, u)
    ensures u != j ==> ListExtended(l, b, k, added + {(j + 1, x)}, u)
  {
  }

  /** Edges from the nodes of the packages of l to node x. */
  method AddSupplemented(edges: Queue, w: World, q: seq<int>, ip: int, x: int, l: seq<int>, nreq: seq<nat>,
                         ghost adj0: seq<seq<int>>, ghost base: seq<seq<int>>, ghost added: set<(int, int)>)
    returns (ghost adj: seq<seq<int>>)
    requires Extended(adj0, base, nreq, added) && |adj0| == |q| && edges.elements == Flat(|q|, adj0)
    modifies edges
    ensures Extended(adj, base, nreq, added + PairsOf(FirstNodes(w, q, ip, l), x)) && |adj| == |q|
    ensures edges.elements == Flat(|q|, adj)
  {
    hide Flat, Extended, FirstAt, Inserted, FirstNodes, PairsOf;
    adj := adj0;
    PairsNone(w, q, ip, added, x);
    assert l[..0] == [];
    for k := 0 to |l|
      invariant Extended(adj, base, nreq, added + PairsOf(FirstNodes(w, q, ip, l[..k]), x))
      invariant |adj| == |q| && edges.elements == Flat(|q|, adj)
    {
      PairsStep(w, q, ip, added, l, k, x);
      if Eligible(w, q, ip, l[k]) {
        ghost var was := added + PairsOf(FirstNodes(w, q, ip, l[..k]), x);
        Sizes(adj, base, nreq, was);
        var j := FindNode(q, l[k]);
        assert (j - 1 + 1, x) == (j, x);
        ExtendOne(adj, base, nreq, was, j - 1, x);
        InsertEdge(edges, |q|, j - 1, nreq[j - 1], x, adj);
        adj := Inserted(adj, j - 1, nreq[j - 1], x);
      }
    }
    assert l[..|l|] == l;
  }

  lemma PairsNone(w: World, q: seq<int>, ip: int, added: set<(int, int)>, x: int)
    ensures added + PairsOf(FirstNodes(w, q, ip, []), x) == added
  {
  }

  lemma PairsStep(w: World, q: seq<int>, ip: int, added: set<(int, int)>, l: seq<int>, k: nat, x: int)
    requires k < |l|
    ensures var was, now := added + PairsOf(FirstNodes(w, q, ip, l[..k]), x),
      added + PairsOf(FirstNodes(w, q, ip, l[..k + 1]), x);
      if Eligible(w, q, ip, l[k]) then now == was + {(FirstAt(q, l[k]), x)} else now == was
  {
    hide FirstAt, Eligible;
    assert l[..k + 1][..k] == l[..k];
    var js, j := FirstNodes(w, q, ip, l[..k]), FirstAt(q, l[k]);
    assert (js + [j])[..|js|] == js;
    assert js + [] == js;
  }

  lemma Sizes(adj: seq<seq<int>>, base: seq<seq<int>>, nreq: seq<nat>, added: set<(int, int)>)
    requires Extended(adj, base, nreq, added)
    ensures |adj| == |base| == |nreq|
  {
  }

  method DrawSupplements(edges: Queue, w: World, q: seq<int>, justone: bool, nreq: seq<nat>, ghost base: seq<seq<int>>)
    returns (ghost adj: seq<seq<int>>)
    requires Lists(w) && Extended(base, base, nreq, {}) && |base| == |q| && edges.elements == Flat(|q|, base)
    modifies edges
    ensures Extended(adj, base, nreq, SuppPairs(w, q, justone, |q|)) && |adj| == |q| && edges.elements == Flat(|q|, adj)
  {
    hide Flat, Extended, Supplemented, FirstNodes, Lists;
    adj := base;
    for i := 0 to |q|
      invariant Extended(adj, base, nreq, SuppPairs(w, q, justone, i))
      invariant |adj| == |q| && edges.elements == Flat(|q|, adj)
    {
      Sizes(adj, base, nreq, SuppPairs(w, q, justone, i));
      var l := AllSupplemented(w, justone, w.supplements(q[i]));
      adj := AddSupplemented(edges, w, q, q[i], i + 1, l, nreq, adj, base, SuppPairs(w, q, justone, i));
    }
  }

  method AllSupplemented(w: World, justone: bool, ds: seq<Dep>) returns (l: seq<int>)
    requires Lists(w)
    ensures l == Supplemented(w, justone, ds)
  {
    hide PkgCheck, Possible, Lists;
    l := [];
    for k := 0 to |ds|
      invariant l == Supplemented(w, justone, ds[..k])
    {
      assert ds[..k + 1][..k] == ds[..k];
      if Possible(w, ds[k], w.inst) {
        var iq := PkgCheck(w, ds[k], Everything(w));
        if !(justone && |iq| != 1) { l := l + iq; }
      }
    }
    assert ds[..|ds|] == ds;
  }

  // ----- the graph -----

  /** The successors `out` of node u, the first k of them required. The others are the nodes that supplement u and the
      recommended ones, without the copies of the last required node that the recommended ones start with. */
  ghost predicate NodeDrawn(w: World, q: seq<int>, justone: bool, u: nat, out: seq<int>, k: nat)
    requires Lists(w) && 1 <= u <= |q|
  {
    var rec := DepsNodes(w, q, justone, q[u - 1], w.recs(q[u - 1]));
    && k <= |out|
    && out[..k] == Required(w, q, justone, q[u - 1])
    && (forall x :: x in out[..k] <==> x in DepsNodes(w, q, justone, q[u - 1], w.reqs(q[u - 1])))
    && (forall x :: x in out[k..] <==> (u, x) in SuppPairs(w, q, justone, |q|) || x in News(out[..k], rec))
  }

  /** The same read off the dependencies: the successors of u are the nodes its requires and recommends draw to and
      those that supplement u. The first k are the ones of the requires, the others those of the recommends and
      supplements; at most the last required node is left out there. */
  ghost predicate NodeLeads(w: World, q: seq<int>, justone: bool, u: nat, out: seq<int>, k: nat)
    requires Lists(w) && 1 <= u <= |q|
  {
    var ip := q[u - 1];
    && k <= |out|
    && (forall x :: x in out <==>
         Supplements(w, q, justone, u, x) || exists d :: Needed(w, ip, d) && DrawsTo(w, q, justone, ip, d, x))
    && (forall x :: x in out[..k] <==> exists d :: d in w.reqs(ip) && DrawsTo(w, q, justone, ip, d, x))
    && (forall x :: x in out[k..] ==>
         Supplements(w, q, justone, u, x) || exists d :: d in w.recs(ip) && DrawsTo(w, q, justone, ip, d, x))
    && (forall x :: Supplements(w, q, justone, u, x) ==> x in out[k..])
    && (forall d, x :: d in w.recs(ip) && DrawsTo(w, q, justone, ip, d, x) && !(k > 0 && out[k - 1] == x) ==>
         x in out[k..])
  }

  ghost predicate Drawn(w: World, q: seq<int>, justone: bool, edges: seq<int>, nreq: seq<nat>)
    requires Lists(w)
  {
    && |nreq| == |q| < |edges| && Built(edges, nreq)
    && (forall u :: 1 <= u <= |q| ==> NodeDrawn(w, q, justone, u, OutFrom(edges, edges[u]), nreq[u - 1]))
    && (forall u :: 1 <= u <= |q| ==> NodeLeads(w, q, justone, u, OutFrom(edges, edges[u]), nreq[u - 1]))
  }

  lemma NodeIsDrawn(w: World, q: seq<int>, justone: bool, u: nat, out: seq<int>)
    requires Lists(w) && 1 <= u <= |q|
    requires ListExtended(out, Wanted(w, q, justone, q[u - 1]), |Required(w, q, justone, q[u - 1])|,
                          SuppPairs(w, q, justone, |q|), u - 1)
    ensures NodeDrawn(w, q, justone, u, out, |Required(w, q, justone, q[u - 1])|)
    ensures forall x :: x in out ==> 1 <= x <= |q|
  {
    hide DepsNodes, Required, Wanted, SuppPairs;
    var k := |Required(w, q, justone, q[u - 1])|;
    WantedMembers(w, q, justone, q[u - 1]);
    assert out == out[..k] + out[k..];
    var b := Wanted(w, q, justone, q[u - 1]);
    forall x | x in b[k..] ensures 1 <= x <= |q| {
      assert x in b;
    }
    forall x | (u, x) in SuppPairs(w, q, justone, |q|) ensures 1 <= x <= |q| {
      SuppPairsMembers(w, q, justone, |q|, u, x);
    }
  }

  lemma NodeMeaning(w: World, q: seq<int>, justone: bool, u: nat, out: seq<int>, k: nat)
    requires Lists(w) && 1 <= u <= |q| && NodeDrawn(w, q, justone, u, out, k)
    ensures NodeLeads(w, q, justone, u, out, k)
  {
    hide DepsNodes, Required, SuppPairs, DrawsTo, Supplements, Lists, Dropped;
    var ip := q[u - 1];
    var rec := DepsNodes(w, q, justone, ip, w.recs(ip));
    forall x ensures (u, x) in SuppPairs(w, q, justone, |q|) <==> Supplements(w, q, justone, u, x) {
      PairSupplements(w, q, justone, u, x);
    }
    forall x ensures x in rec <==> exists d :: d in w.recs(ip) && DrawsTo(w, q, justone, ip, d, x) {
      DepsDraw(w, q, justone, ip, w.recs(ip), x);
    }
    forall x ensures x in out[..k] <==> exists d :: d in w.reqs(ip) && DrawsTo(w, q, justone, ip, d, x) {
      DepsDraw(w, q, justone, ip, w.reqs(ip), x);
    }
    forall x ensures x in News(out[..k], rec) ==> x in rec
      ensures x in rec && !(k > 0 && out[k - 1] == x) ==> x in News(out[..k], rec)
    {
      NewsMembers(out, k, rec, x);
    }
    assert out == out[..k] + out[k..];
    LastOf(out, k);
  }

  lemma LastOf(out: seq<int>, k: nat)
    requires k <= |out|
    ensures k > 0 ==> out[k - 1] in out[..k]
  {
  }

  lemma NewsMembers(out: seq<int>, k: nat, xs: seq<int>, x: int)
    requires k <= |out|
    ensures x in News(out[..k], xs) ==> x in xs
    ensures x in xs && !(k > 0 && out[k - 1] == x) ==> x in News(out[..k], xs)
  {
    if k > 0 { DroppedMembers(xs, x, out[k - 1]); }
  }

  lemma {:induction false} DroppedMembers(xs: seq<int>, x: int, y: int)
    ensures x in Dropped(xs, y) ==> x in xs
    ensures x in xs && x != y ==> x in Dropped(xs, y)
  {
    if xs != [] && xs[0] == y {
      DroppedMembers(xs[1..], x, y);
      assert xs == [y] + xs[1..];
    }
  }

  lemma GraphIsDrawn(w: World, q: seq<int>, justone: bool, adj: seq<seq<int>>)
    requires Lists(w) && q != []
    requires Extended(adj, BaseLists(w, q, justone, |q|), BaseCounts(w, q, justone, |q|), SuppPairs(w, q, justone, |q|))
    ensures Drawn(w, q, justone, Flat(|q|, adj), BaseCounts(w, q, justone, |q|))
  {
    hide Wanted, Required, ListExtended, NodeDrawn, NodeLeads, Flat, OutFrom, SuppPairs;
    var n, e, nreq := |q|, Flat(|q|, adj), BaseCounts(w, q, justone, |q|);
    FlatEnds(n, adj);
    Sizes(adj, BaseLists(w, q, justone, n), nreq, SuppPairs(w, q, justone, n));
    forall u | 1 <= u <= n
      ensures n < e[u] < |e| && NodeDrawn(w, q, justone, u, OutFrom(e, e[u]), nreq[u - 1])
      ensures NodeLeads(w, q, justone, u, OutFrom(e, e[u]), nreq[u - 1])
      ensures nreq[u - 1] <= |OutFrom(e, e[u])| && forall x :: x in OutFrom(e, e[u]) ==> 1 <= x <= n
    {
      assert ListExtended(adj[u - 1], BaseLists(w, q, justone, n)[u - 1], nreq[u - 1],
                          SuppPairs(w, q, justone, n), u - 1);
      NodeIsDrawn(w, q, justone, u, adj[u - 1]);
      OutFlat(n, adj, u - 1);
      NodeMeaning(w, q, justone, u, adj[u - 1], nreq[u - 1]);
      DrawnSize(w, q, justone, u, adj[u - 1], nreq[u - 1]);
    }
    BuiltIntro(e, nreq);
  }

  lemma DrawnSize(w: World, q: seq<int>, justone: bool, u: nat, out: seq<int>, k: nat)
    requires Lists(w) && 1 <= u <= |q| && NodeDrawn(w, q, justone, u, out, k)
    ensures k <= |out|
  {
  }

  lemma BuiltIntro(e: seq<int>, nreq: seq<nat>)
    requires |nreq| + 1 < |e| && e[|e| - 1] == 0
    requires forall u :: 1 <= u <= |nreq| ==> |nreq| < e[u] < |e| && nreq[u - 1] <= |OutFrom(e, e[u])|
    requires forall u, x :: 1 <= u <= |nreq| && x in OutFrom(e, e[u]) ==> 1 <= x <= |nreq|
    ensures Built(e, nreq)
  {
    hide OutFrom;
  }

  method BuildEdges(w: World, q: seq<int>, justone: bool) returns (edges: seq<int>, nrequires: seq<nat>)
    requires Lists(w) && q != []
    ensures Drawn(w, q, justone, edges, nrequires)
  {
    hide Flat, Extended, Drawn, BaseLists, BaseCounts, SuppPairs, Lists;
    var queue := new Queue();
    queue.elements := seq(1 + |q| + 1, _ => 0);
    assert queue.elements == Flat(|q|, []) by { FlatEmpty(|q|); }
    nrequires := DrawNeeds(queue, w, q, justone);
    BaseExtended(w, q, justone);
    ghost var adj := DrawSupplements(queue, w, q, justone, nrequires, BaseLists(w, q, justone, |q|));
    GraphIsDrawn(w, q, justone, adj);
    edges := queue.elements;
  }

  lemma FlatEmpty(n: nat)
    ensures Flat(n, []) == seq(n + 2, _ => 0)
  {
  }

  lemma BaseExtended(w: World, q: seq<int>, justone: bool)
    requires Lists(w)
    ensures Extended(BaseLists(w, q, justone, |q|), BaseLists(w, q, justone, |q|), BaseCounts(w, q, justone, |q|), {})
  {
    hide Wanted, Required, DepsNodes;
    forall u | 0 <= u < |q|
      ensures ListExtended(Wanted(w, q, justone, q[u]), Wanted(w, q, justone, q[u]),
                           |Required(w, q, justone, q[u])|, {}, u)
    {
      WantedMembers(w, q, justone, q[u]);
    }
  }

  /** `filter_unneeded`: from the packages to the ones that are kept. */
  method FilterPackages(w: World, unneededq: Queue, justone: bool) returns (ghost edges: seq<int>, ghost nreq: seq<nat>)
    requires Lists(w) && forall i :: 0 <= i < |unneededq.elements| ==> unneededq.elements[i] != 0
    modifies unneededq
    ensures |old(unneededq.elements)| < 2 ==> unneededq.elements == old(unneededq.elements)
    ensures |old(unneededq.elements)| >= 2 ==> Drawn(w, old(unneededq.elements), justone, edges, nreq)
    ensures |old(unneededq.elements)| >= 2 ==>
      unneededq.elements == Selected(old(unneededq.elements), KeptBy(edges, nreq, 2))
  {
    hide Lists, KeptBy, NodeDrawn, NodeLeads, Built;
    edges, nreq := [], [];
    if |unneededq.elements| < 2 { return; }
    var e, n := BuildEdges(w, unneededq.elements, justone);
    FilterUnneeded(unneededq, e, n);
    edges, nreq := e, n;
  }
}
