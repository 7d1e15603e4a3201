/** The dependency graph between packages, reachability, and the states of the component search. */
module SccGraph {

  /** The zero-terminated successor list at offset `at`. */
  function OutFrom(edges: seq<int>, at: int): seq<int>
    decreases |edges| - at
  {
    if at < 0 || at >= |edges| || edges[at] == 0 then [] else [edges[at]] + OutFrom(edges, at + 1)
  }

  /** Nodes are 1..count; edges[u] is the offset of u's successors; nodes outside `live` are ignored. */
  datatype Graph = Graph(edges: seq<int>, count: nat, live: set<int>)

  function Out(g: Graph, u: int): seq<int>
    requires 0 <= u < |g.edges|
  {
    OutFrom(g.edges, g.edges[u])
  }

  ghost predicate WfGraph(g: Graph) {
    && |g.edges| > g.count + 1 && g.edges[|g.edges| - 1] == 0
    && (forall u :: 1 <= u <= g.count ==> g.count < g.edges[u] < |g.edges| && forall v ::
         v in Out(g, u) ==> 1 <= v <= g.count)
    && forall u :: u in g.live ==> 1 <= u <= g.count
  }

  /** An edge between two nodes that are not ignored. */
  ghost predicate Edge(g: Graph, u: int, v: int) {
    u in g.live && v in g.live && 0 <= u < |g.edges| && v in Out(g, u)
  }

  ghost predicate Path(g: Graph, p: seq<int>) {
    forall i :: 0 <= i < |p| - 1 ==> Edge(g, p[i], p[i + 1])
  }

  ghost predicate PathFromTo(g: Graph, p: seq<int>, u: int, v: int) {
    |p| > 0 && p[0] == u && p[|p| - 1] == v && Path(g, p)
  }

  ghost predicate Reach(g: Graph, u: int, v: int) {
    exists p :: PathFromTo(g, p, u, v)
  }

  /** Same strongly connected component. */
  ghost predicate Scc(g: Graph, u: int, v: int) {
    Reach(g, u, v) && Reach(g, v, u)
  }

  lemma ReachRefl(g: Graph, u: int)
    ensures Reach(g, u, u)
  {
    assert PathFromTo(g, [u], u, u);
  }

  lemma ReachTrans(g: Graph, u: int, v: int, w: int)
    requires Reach(g, u, v) && Reach(g, v, w)
    ensures Reach(g, u, w)
  {
    var p :| PathFromTo(g, p, u, v);
    var q :| PathFromTo(g, q, v, w);
    var r := p + q[1..];
    forall i | 0 <= i < |r| - 1 ensures Edge(g, r[i], r[i + 1]) {
      if i < |p| - 1 {
        assert Edge(g, p[i], p[i + 1]);
      } else {
        assert Edge(g, q[i - |p| + 1], q[i - |p| + 2]);
      }
    }
    assert PathFromTo(g, r, u, w);
  }

  lemma ReachEdge(g: Graph, u: int, v: int)
    requires Edge(g, u, v)
    ensures Reach(g, u, v)
  {
    assert PathFromTo(g, [u, v], u, v);
  }

  ghost predicate Closed(g: Graph, s: set<int>) {
    forall u, v :: u in s && Edge(g, u, v) ==> v in s
  }

  /** What is reachable from a closed set stays in it. */
  lemma ClosedReach(g: Graph, s: set<int>, u: int, v: int)
    requires Closed(g, s) && u in s && Reach(g, u, v)
    ensures v in s
  {
    var p :| PathFromTo(g, p, u, v);
    ClosedPath(g, s, p, |p| - 1);
  }

  lemma {:induction false} ClosedPath(g: Graph, s: set<int>, p: seq<int>, k: nat)
    requires Closed(g, s) && Path(g, p) && k < |p| && p[0] in s
    ensures p[k] in s
  {
    if k > 0 {
      ClosedPath(g, s, p, k - 1);
      assert Edge(g, p[k - 1], p[k]);
    }
  }

  // ----- the state of the search -----

  /** The search without its array: `low` of every live node (0 is unvisited, -1 is pruned), the nodes on the
      stack, their visiting numbers, the nodes being visited, and the edges looked at so far. */
  datatype Env = Env(g: Graph, low: map<int, int>, first: int, idx: int, stk: set<int>,
                     num: map<int, int>, gray: set<int>, scanned: set<(int, int)>)

  ghost predicate Basic(e: Env) {
    && e.low.Keys == e.g.live && e.stk <= e.g.live && e.stk <= e.num.Keys
    && 0 < e.first <= e.idx
    && (forall v :: v in e.g.live ==> (v in e.stk <==> e.low[v] >= e.first))
    && (forall v :: v in e.stk ==> e.low[v] <= e.num[v] && e.first <= e.num[v] < e.idx)
    && (forall u, v :: u in e.stk && v in e.stk && u != v ==> e.num[u] != e.num[v])
  }

  ghost predicate White(e: Env, v: int) {
    v in e.g.live && v in e.low && e.low[v] == 0
  }

  /** In a finished component. */
  ghost predicate Done(e: Env, v: int) {
    v in e.g.live && v in e.low && e.low[v] != 0 && v !in e.stk
  }

  ghost predicate GrayOk(e: Env) {
    && e.gray <= e.stk
    && (forall u, v :: (u, v) in e.scanned ==> Edge(e.g, u, v) && !White(e, u))
    && (forall u, v :: Edge(e.g, u, v) && !White(e, u) && u !in e.gray ==> (u, v) in e.scanned && !White(e, v))
  }

  /** Earlier stack entries reach later ones. */
  ghost predicate Down(e: Env) {
    forall u, v :: u in e.stk && v in e.stk && u in e.num && v in e.num && e.num[u] <= e.num[v] ==> Reach(e.g, u, v)
  }

  /** `x` is a node being visited, no later than y, that y leads back to. */
  ghost predicate Back(e: Env, y: int, x: int) {
    x in e.gray && x in e.num && y in e.num && e.num[x] <= e.num[y] && Reach(e.g, y, x)
  }

  /** Always true; it names the node for which a witness is wanted. */
  ghost predicate Seek(y: int) {
    true
  }

  ghost predicate Up(e: Env) {
    forall y {:trigger Seek(y)} :: Seek(y) && y in e.stk ==> exists x :: Back(e, y, x)
  }

  /** The low value of y is the number of w, which is on the stack and reachable. */
  ghost predicate LowAt(e: Env, y: int, w: int) {
    w in e.stk && w in e.num && y in e.low && e.num[w] == e.low[y] && Reach(e.g, y, w)
  }

  ghost predicate LowOk(e: Env) {
    forall y {:trigger Seek(y)} :: Seek(y) && y in e.stk ==> exists w :: LowAt(e, y, w)
  }

  lemma GetBack(e: Env, y: int) returns (x: int)
    requires Up(e) && y in e.stk
    ensures Back(e, y, x)
  {
    hide Reach;
    assert Seek(y);
    x :| Back(e, y, x);
  }

  lemma GetLow(e: Env, y: int) returns (w: int)
    requires LowOk(e) && y in e.stk
    ensures LowAt(e, y, w)
  {
    hide Reach;
    assert Seek(y);
    w :| LowAt(e, y, w);
  }

  lemma UpIntro(e: Env)
    requires forall y :: y in e.stk ==> exists x :: Back(e, y, x)
    ensures Up(e)
  {
  }

  lemma LowIntro(e: Env)
    requires forall y :: y in e.stk ==> exists w :: LowAt(e, y, w)
    ensures LowOk(e)
  {
  }

  /** A scanned edge enters the component of v from outside. */
  ghost predicate EnteredBy(e: Env, v: int, u: int, w: int) {
    (u, w) in e.scanned && Scc(e.g, w, v) && !Scc(e.g, u, v)
  }

  ghost predicate Entered(e: Env, v: int) {
    exists u, w :: EnteredBy(e, v, u, w)
  }

  ghost predicate DoneClosed(e: Env) {
    forall u, v :: Done(e, u) && Edge(e.g, u, v) ==> Done(e, v)
  }

  /** Finished components are whole, and the kept ones carry distinct values. */
  ghost predicate DoneWhole(e: Env)
    requires e.low.Keys == e.g.live
  {
    && (forall u, v :: Done(e, v) && u in e.g.live && Scc(e.g, u, v) ==> Done(e, u) && e.low[u] == e.low[v])
    && (forall u, v :: Done(e, u) && Done(e, v) && e.low[u] == e.low[v] > 0 ==> Scc(e.g, u, v))
  }

  /** A finished component is kept iff no scanned edge enters it. */
  ghost predicate DoneKept(e: Env)
    requires e.low.Keys == e.g.live
  {
    forall v :: Done(e, v) ==> (e.low[v] > 0 <==> !Entered(e, v))
  }

  ghost predicate Inv(e: Env) {
    Basic(e) && GrayOk(e) && Down(e) && Up(e) && LowOk(e) && DoneClosed(e) && DoneWhole(e) && DoneKept(e)
  }
}
