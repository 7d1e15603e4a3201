/** The recommendations that the second component search does not see, because their edge is stored with the
    requires. */
module EdgeLoss {
  import opened DepBlocks
  import opened CleanDeps
  import opened SccGraph
  import opened SccPop
  import opened ComponentSearch
  import opened EdgeLists
  import opened EdgeBuild
  import opened Unneeded

  /** The nodes the second search finds behind node u. */
  function SecondOut(edges: seq<int>, nreq: seq<nat>, u: int): seq<int>
    requires |nreq| < |edges| && 0 <= u < |edges|
  {
    OutFrom(Shift(edges, nreq), Shift(edges, nreq)[u])
  }

  lemma SecondIs(w: World, q: seq<int>, justone: bool, edges: seq<int>, nreq: seq<nat>, u: int)
    requires Lists(w) && Drawn(w, q, justone, edges, nreq) && 1 <= u <= |q|
    ensures |nreq| == |q| < |edges| && nreq[u - 1] <= |OutFrom(edges, edges[u])|
    ensures SecondOut(edges, nreq, u) == OutFrom(edges, edges[u])[nreq[u - 1]..]
    ensures OutFrom(edges, edges[u])[..nreq[u - 1]] == Required(w, q, justone, q[u - 1])
    ensures forall x :: x in SecondOut(edges, nreq, u) <==>
      (u, x) in SuppPairs(w, q, justone, |q|)
        || x in News(Required(w, q, justone, q[u - 1]), DepsNodes(w, q, justone, q[u - 1], w.recs(q[u - 1])))
  {
    hide OutFrom, SuppPairs, Required, DepsNodes;
    assert NodeDrawn(w, q, justone, u, OutFrom(edges, edges[u]), nreq[u - 1]);
    assert |nreq| < edges[u] < |edges|;
    ShiftedOut(edges, nreq, u);
  }

  /** A recommended node is missing in the second search exactly when it is the last required one, comes only at the
      start of the recommended ones, and is not drawn for a supplement. The first search always sees it. */
  lemma SecondPassMisses(w: World, q: seq<int>, justone: bool, edges: seq<int>, nreq: seq<nat>, u: int, x: int)
    requires Lists(w) && Drawn(w, q, justone, edges, nreq) && 1 <= u <= |q|
    requires x in DepsNodes(w, q, justone, q[u - 1], w.recs(q[u - 1]))
    ensures x in OutFrom(edges, edges[u])
    ensures var req := Required(w, q, justone, q[u - 1]);
      x !in SecondOut(edges, nreq, u) <==>
        && req != [] && req[|req| - 1] == x
        && x !in Dropped(DepsNodes(w, q, justone, q[u - 1], w.recs(q[u - 1])), x)
        && (u, x) !in SuppPairs(w, q, justone, |q|)
  {
    hide OutFrom, SuppPairs, Required, DepsNodes, Lists, Drawn;
    SecondIs(w, q, justone, edges, nreq, u);
    var req, rec := Required(w, q, justone, q[u - 1]), DepsNodes(w, q, justone, q[u - 1], w.recs(q[u - 1]));
    if req != [] && req[|req| - 1] != x { DroppedMembers(rec, x, req[|req| - 1]); }
    var out, k := OutFrom(edges, edges[u]), nreq[u - 1];
    assert out == out[..k] + out[k..];
    if x !in SecondOut(edges, nreq, u) { assert req[|req| - 1] == x && x in out[..k]; }
  }

  // ----- a world in which it decides what is kept -----

  const LOSS_POOL := Pool(4, [0, 0, 1, 0, 3, 0, 2, 0],
    d => if d == Simple(0) then 4 else if d == Simple(1) then 6 else 1, (p, d) => false)

  /** Package 2 requires and recommends something that only package 3 provides, and package 3 requires package 2. */
  const LOSS_WORLD := World(LOSS_POOL, 2, 4, {2, 3},
    p => if p == 2 then [Simple(0)] else if p == 3 then [Simple(1)] else [],
    p => if p == 2 then [Simple(0)] else [],
    p => [], d => [], d => false, d => false, [], p => [])

  lemma LossWorld()
    ensures Valid(LOSS_POOL) && WfWorld(LOSS_WORLD)
    ensures Providers(LOSS_POOL, Simple(0)) == [3] && Providers(LOSS_POOL, Simple(1)) == [2]
  {
    var d := LOSS_POOL.data;
    assert List(d, 5) == [] && List(d, 7) == [] && List(d, 1) == [];
    assert List(d, 4) == [3] && List(d, 6) == [2];
  }

  /** The only node of a dependency with one provider. */
  lemma OneNode(w: World, ip: int, p: int, d: Dep)
    requires Lists(w) && !Complex(d) && Providers(w.pool, d) == [p]
    requires 2 <= p <= 3 && p != ip && p in w.inst
    ensures DepsNodes(w, [2, 3], false, ip, [d]) == [p - 1]
  {
    hide List, Complex, Lists;
    var q := [2, 3];
    NodesOf(p);
    assert [p][..0] == [];
    assert PlainNodes(w, q, ip, [p]) == PlainNodes(w, q, ip, []) + Positions(q, p);
    assert [d][..0] == [];
    assert DepsNodes(w, q, false, ip, [d]) == DepsNodes(w, q, false, ip, []) + DepNodes(w, q, false, ip, d);
  }

  lemma NodesOf(p: int)
    requires 2 <= p <= 3
    ensures Positions([2, 3], p) == [p - 1]
  {
    assert [2, 3][..1] == [2] && [2][..0] == [];
    assert Positions([2], p) == Positions([], p) + if p == 2 then [1] else [];
  }

  lemma PutOne(x: int)
    ensures PutAll([], [x]) == [x]
  {
    assert [x][..0] == [];
  }

  lemma LossNodes()
    ensures Lists(LOSS_WORLD)
    ensures DepsNodes(LOSS_WORLD, [2, 3], false, 2, [Simple(0)]) == [2]
    ensures Required(LOSS_WORLD, [2, 3], false, 2) == [2] && Required(LOSS_WORLD, [2, 3], false, 3) == [1]
    ensures SuppPairs(LOSS_WORLD, [2, 3], false, 2) == {}
  {
    hide DepsNodes, PutAll, List;
    LossWorld();
    OneNode(LOSS_WORLD, 2, 3, Simple(0));
    OneNode(LOSS_WORLD, 3, 2, Simple(1));
    PutOne(1);
    PutOne(2);
    NoSupplements(2);
  }

  lemma {:induction false} NoSupplements(n: nat)
    requires Lists(LOSS_WORLD) && n <= 2
    ensures SuppPairs(LOSS_WORLD, [2, 3], false, n) == {}
  {
    if n > 0 { NoSupplements(n - 1); }
  }

  /** In a graph without edges everything is kept. */
  lemma NoEdgesKept(g: Graph)
    requires forall u, v :: !Edge(g, u, v)
    ensures Kept(g) == g.live
  {
  }

  /** Nodes that lead to each other are kept if there are no others. */
  lemma PairKept(g: Graph)
    requires g.live == {1, 2} && Edge(g, 1, 2) && Edge(g, 2, 1)
    ensures Kept(g) == {1, 2}
  {
    hide Edge, Reach;
    ReachEdge(g, 1, 2);
    ReachEdge(g, 2, 1);
    ReachRefl(g, 1);
    ReachRefl(g, 2);
    forall u, v, w | Edge(g, u, w) && Scc(g, w, v) ensures u in {1, 2} && (v in {1, 2} ==> Scc(g, u, v)) {
      EdgeLive(g, u, w);
    }
  }

  /** The second node alone falls behind the first when only the first leads on. */
  lemma OneWayKept(g: Graph)
    requires g.live == {1, 2} && Edge(g, 1, 2) && forall v :: !Edge(g, 2, v)
    ensures 2 !in Kept(g)
  {
    hide Edge, Reach;
    ReachRefl(g, 2);
    if Reach(g, 2, 1) { ClosedReach(g, {2}, 2, 1); }
  }

  lemma LossLists(edges: seq<int>, nreq: seq<nat>)
    requires Lists(LOSS_WORLD) && Drawn(LOSS_WORLD, [2, 3], false, edges, nreq)
    ensures |nreq| == 2 && 2 in OutFrom(edges, edges[1]) && 1 in OutFrom(edges, edges[2])
    ensures SecondOut(edges, nreq, 1) == SecondOut(edges, nreq, 2) == []
  {
    hide OutFrom, SuppPairs, Required, DepsNodes, Shift;
    LossNodes();
    assert DepsNodes(LOSS_WORLD, [2, 3], false, 3, []) == [] by { NoDeps(LOSS_WORLD, [2, 3], 3); }
    SecondIs(LOSS_WORLD, [2, 3], false, edges, nreq, 1);
    SecondIs(LOSS_WORLD, [2, 3], false, edges, nreq, 2);
    assert Dropped([2], 2) == [];
    assert News([2], [2]) == [];
    SameEmpty(SecondOut(edges, nreq, 1), []);
    SameEmpty(SecondOut(edges, nreq, 2), []);
    Leads(OutFrom(edges, edges[1]), nreq[0], 2);
    Leads(OutFrom(edges, edges[2]), nreq[1], 1);
  }

  lemma NoDeps(w: World, q: seq<int>, ip: int)
    requires Lists(w)
    ensures DepsNodes(w, q, false, ip, []) == []
  {
  }

  lemma Leads(out: seq<int>, k: nat, x: int)
    requires k <= |out| && out[..k] == [x]
    ensures x in out
  {
    assert out[..k][0] == x;
  }

  /** The recommendation of package 3 is lost: both packages are kept, as if it did not exist. With the recommended node
      in the second list of the first, the search would drop package 3. */
  lemma RecommendLost(edges: seq<int>, nreq: seq<nat>)
    requires Lists(LOSS_WORLD) && Drawn(LOSS_WORLD, [2, 3], false, edges, nreq)
    ensures 2 in DepsNodes(LOSS_WORLD, [2, 3], false, 2, LOSS_WORLD.recs(2))
    ensures SecondOut(edges, nreq, 1) == SecondOut(edges, nreq, 2) == []
    ensures KeptBy(edges, nreq, 2) == {1, 2}
    ensures forall g: Graph ::
      g.live == {1, 2} && |g.edges| > 2 && 2 in Out(g, 1) && Out(g, 2) == SecondOut(edges, nreq, 2) ==> 2 !in Kept(g)
  {
    hide OutFrom, DepsNodes, Kept, Drawn, Shift, Lists;
    LossNodes();
    LossSizes(edges, nreq);
    LossLists(edges, nreq);
    assert AllNodes(2) == {1, 2};
    var g1, g2 := Graph(edges, 2, {1, 2}), Graph(Shift(edges, nreq), 2, {1, 2});
    PairKept(g1);
    NoEdgesKept(g2);
    forall g: Graph | g.live == {1, 2} && |g.edges| > 2 && 2 in Out(g, 1) && Out(g, 2) == [] ensures 2 !in Kept(g) {
      OneWayKept(g);
    }
  }

  lemma LossSizes(edges: seq<int>, nreq: seq<nat>)
    requires Lists(LOSS_WORLD) && Drawn(LOSS_WORLD, [2, 3], false, edges, nreq)
    ensures |nreq| == 2 < |edges|
  {
  }
}
