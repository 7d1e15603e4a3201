/** Pruning the packages that only other unneeded packages keep: two component searches over the queue. */
module Unneeded {
  import opened Containers
  import opened SccGraph
  import opened SccPop
  import opened ComponentSearch

  /** The edge offsets advanced past the requires and recommends, as before the second pass. */
  function Shift(edges: seq<int>, nreq: seq<nat>): (r: seq<int>)
    requires |nreq| < |edges|
    ensures |r| == |edges|
  {
    seq(|edges|, i requires 0 <= i < |edges| => if 1 <= i <= |nreq| then edges[i] + nreq[i - 1] else edges[i])
  }

  function AllNodes(n: nat): (r: set<int>)
    ensures forall v :: v in r <==> 1 <= v <= n
  {
    if n == 0 then {} else AllNodes(n - 1) + {n}
  }

  /** The nodes kept by the first `pass` searches. */
  ghost function KeptBy(edges: seq<int>, nreq: seq<nat>, pass: nat): set<int>
    requires |nreq| < |edges| && pass <= 2
  {
    if pass == 0 then AllNodes(|nreq|)
    else if pass == 1 then Kept(Graph(edges, |nreq|, AllNodes(|nreq|)))
    else Kept(Graph(Shift(edges, nreq), |nreq|, KeptBy(edges, nreq, 1)))
  }

  /** What the edge builder promises: offsets of zero-terminated lists, of which the first nreq[i] entries are node
      i+1's requires. */
  ghost predicate Built(edges: seq<int>, nreq: seq<nat>) {
    && |nreq| < |edges|
    && WfGraph(Graph(edges, |nreq|, AllNodes(|nreq|)))
    && forall u :: 1 <= u <= |nreq| ==> nreq[u - 1] <= |OutFrom(edges, edges[u])|
  }

  lemma {:induction false} OutFromSuffix(edges: seq<int>, at: int, k: nat)
    requires 0 <= at < |edges| && edges[|edges| - 1] == 0 && k <= |OutFrom(edges, at)|
    ensures at + k < |edges| && OutFrom(edges, at + k) == OutFrom(edges, at)[k..]
    decreases k
  {
    if k > 0 {
      OutFromSuffix(edges, at + 1, k - 1);
    }
  }

  lemma {:induction false} OutFromSame(edges: seq<int>, edges': seq<int>, at: int)
    requires |edges| == |edges'| && 0 <= at <= |edges| && edges[at..] == edges'[at..]
    ensures OutFrom(edges', at) == OutFrom(edges, at)
    decreases |edges| - at
  {
    if at < |edges| {
      assert edges[at..][0] == edges'[at..][0];
      assert edges[at + 1..] == edges[at..][1..];
      assert edges'[at + 1..] == edges'[at..][1..];
      OutFromSame(edges, edges', at + 1);
    }
  }

  /** After the shift a node's list is what was left of it past its requires and recommends. */
  lemma ShiftedOut(edges: seq<int>, nreq: seq<nat>, u: int)
    requires |nreq| < |edges| && edges[|edges| - 1] == 0 && 1 <= u <= |nreq| < edges[u] < |edges|
    requires nreq[u - 1] <= |OutFrom(edges, edges[u])|
    ensures Shift(edges, nreq)[u] == edges[u] + nreq[u - 1] < |edges|
    ensures OutFrom(Shift(edges, nreq), Shift(edges, nreq)[u]) == OutFrom(edges, edges[u])[nreq[u - 1]..]
  {
    hide OutFrom;
    var e2 := Shift(edges, nreq);
    OutFromSuffix(edges, edges[u], nreq[u - 1]);
    assert edges[e2[u]..] == e2[e2[u]..];
    OutFromSame(edges, e2, e2[u]);
  }

  lemma ShiftedNode(edges: seq<int>, nreq: seq<nat>, u: int)
    requires Built(edges, nreq) && 1 <= u <= |nreq|
    ensures var e2 := Shift(edges, nreq);
      |nreq| < e2[u] < |e2| && forall v :: v in OutFrom(e2, e2[u]) ==> 1 <= v <= |nreq|
  {
    hide OutFrom, Shift;
    var g := Graph(edges, |nreq|, AllNodes(|nreq|));
    assert |nreq| < edges[u] < |edges|;
    ShiftedOut(edges, nreq, u);
    var out, k := OutFrom(edges, edges[u]), nreq[u - 1];
    forall v | v in out[k..] ensures 1 <= v <= |nreq| {
      assert v in Out(g, u);
    }
  }

  lemma ShiftedEnd(edges: seq<int>, nreq: seq<nat>)
    requires Built(edges, nreq)
    ensures var e2 := Shift(edges, nreq); |e2| == |edges| > |nreq| + 1 && e2[|e2| - 1] == 0
  {
    hide OutFrom;
  }

  lemma ShiftedWf(edges: seq<int>, nreq: seq<nat>, live: set<int>)
    requires Built(edges, nreq) && live <= AllNodes(|nreq|)
    ensures WfGraph(Graph(Shift(edges, nreq), |nreq|, live))
  {
    hide OutFrom, Shift, Built;
    ShiftedEnd(edges, nreq);
    forall u | 1 <= u <= |nreq| {
      ShiftedNode(edges, nreq, u);
    }
  }

  /** The entries whose node is kept, in their old order. */
  ghost function Selected(q: seq<int>, keep: set<int>): seq<int> {
    if q == [] then [] else Selected(q[..|q| - 1], keep) + if |q| in keep then [q[|q| - 1]] else []
  }

  /** The members of keep up to n. */
  ghost function Below(keep: set<int>, n: nat): set<int> {
    set j | j in keep && 1 <= j <= n
  }

  /** A kept entry has exactly the kept ones before it in front. */
  lemma {:induction false} SelectedAt(q: seq<int>, keep: set<int>, i: nat)
    requires i < |q| && i + 1 in keep
    ensures |Selected(q, keep)| == |Below(keep, |q|)| > |Below(keep, i)|
    ensures Selected(q, keep)[|Below(keep, i)|] == q[i]
  {
    var n := |q| - 1;
    SelectedSize(q[..n], keep);
    BelowStep(keep, n);
    if i < n { SelectedAt(q[..n], keep, i); }
  }

  lemma {:induction false} SelectedSize(q: seq<int>, keep: set<int>)
    ensures |Selected(q, keep)| == |Below(keep, |q|)|
  {
    if q == [] {
      assert Below(keep, 0) == {};
    } else {
      SelectedSize(q[..|q| - 1], keep);
      BelowStep(keep, |q| - 1);
    }
  }

  lemma BelowStep(keep: set<int>, n: nat)
    ensures |Below(keep, n + 1)| == |Below(keep, n)| + if n + 1 in keep then 1 else 0
  {
    assert Below(keep, n + 1) == if n + 1 in keep then Below(keep, n) + {n + 1} else Below(keep, n);
  }

  // ----- the two searches on graphs -----

  lemma SameReach(g: Graph, h: Graph, u: int, v: int)
    requires forall x, y :: Edge(g, x, y) <==> Edge(h, x, y)
    ensures Reach(g, u, v) <==> Reach(h, u, v)
  {
    hide Edge;
    if Reach(g, u, v) {
      var p :| PathFromTo(g, p, u, v);
      assert PathFromTo(h, p, u, v);
    }
    if Reach(h, u, v) {
      var p :| PathFromTo(h, p, u, v);
      assert PathFromTo(g, p, u, v);
    }
  }

  lemma SameKept(g: Graph, h: Graph)
    requires g.live == h.live && forall x, y :: Edge(g, x, y) <==> Edge(h, x, y)
    ensures Kept(g) == Kept(h)
  {
    hide Edge, Reach;
    forall u, v ensures Reach(g, u, v) <==> Reach(h, u, v) {
      SameReach(g, h, u, v);
    }
    forall v ensures HasEntry(g, v) <==> HasEntry(h, v) {
      if u, x :| Edge(g, u, x) && Scc(g, x, v) && !Scc(g, u, v) {
        assert Edge(h, u, x) && Scc(h, x, v) && !Scc(h, u, v);
      }
      if u, x :| Edge(h, u, x) && Scc(h, x, v) && !Scc(h, u, v) {
        assert Edge(g, u, x) && Scc(g, x, v) && !Scc(g, u, v);
      }
    }
  }

  /** What is kept in the end: of the graph of all edges, the nodes that no other component leads to, and among these
      the ones that no other component leads to by the edges behind the required ones. */
  lemma TwoSearches(edges: seq<int>, nreq: seq<nat>, g1: Graph, g2: Graph)
    requires Built(edges, nreq) && g1.live == AllNodes(|nreq|) && g2.live == Kept(g1)
    requires forall u, v :: Edge(g1, u, v) <==> 1 <= u <= |nreq| && v in OutFrom(edges, edges[u])
    requires forall u, v :: Edge(g2, u, v) <==>
      u in Kept(g1) && v in Kept(g1) && v in OutFrom(edges, edges[u])[nreq[u - 1]..]
    ensures KeptBy(edges, nreq, 2) == Kept(g2)
  {
    hide Kept, OutFrom, Shift;
    var n := |nreq|;
    var h1 := Graph(edges, n, AllNodes(n));
    forall u, v ensures Edge(h1, u, v) <==> Edge(g1, u, v) {
      if 1 <= u <= n && v in OutFrom(edges, edges[u]) { assert v in Out(h1, u); }
    }
    SameKept(h1, g1);
    KeptWf(edges, nreq, 0);
    var h2 := Graph(Shift(edges, nreq), n, Kept(h1));
    forall u, v ensures Edge(h2, u, v) <==> Edge(g2, u, v) {
      if u in Kept(h1) { ShiftedOut(edges, nreq, u); }
    }
    SameKept(h2, g2);
  }

  lemma KeptWf(edges: seq<int>, nreq: seq<nat>, pass: nat)
    requires Built(edges, nreq) && pass < 2
    ensures KeptBy(edges, nreq, pass) <= AllNodes(|nreq|)
    ensures WfGraph(Graph(if pass == 0 then edges else Shift(edges, nreq), |nreq|, KeptBy(edges, nreq, pass)))
    ensures KeptBy(edges, nreq, pass + 1)
      == Kept(Graph(if pass == 0 then edges else Shift(edges, nreq), |nreq|, KeptBy(edges, nreq, pass)))
    ensures KeptBy(edges, nreq, pass + 1) <= KeptBy(edges, nreq, pass)
  {
    hide HasEntry;
    if pass == 1 { ShiftedWf(edges, nreq, KeptBy(edges, nreq, 1)); }
  }

  /** Ready the array for another pass: all zero, but -1 at the nodes pruned before. */
  method Ready(low: array<int>, q: seq<int>)
    requires low.Length == 2 * (|q| + 1)
    modifies low
    ensures forall k :: 0 <= k < low.Length ==> low[k] == if 1 <= k <= |q| && q[k - 1] == 0 then -1 else 0
  {
    for k := 0 to low.Length
      invariant forall j :: 0 <= j < k ==> low[j] == 0
    {
      low[k] := 0;
    }
    for i := 0 to |q|
      invariant forall k :: 0 <= k < low.Length ==> low[k] == if 1 <= k <= i && q[k - 1] == 0 then -1 else 0
    {
      if q[i] == 0 {
        low[i + 1] := -1;
      }
    }
  }

  /** Zero the entries of the nodes without a positive value. */
  method ZeroDropped(unneededq: Queue, low: array<int>, ghost keep: set<int>)
    requires low.Length == 2 * (|unneededq.elements| + 1)
    requires forall v :: 1 <= v <= |unneededq.elements| ==> (low[v] > 0 <==> v in keep)
    modifies unneededq
    ensures |unneededq.elements| == old(|unneededq.elements|)
    ensures forall i :: 0 <= i < |unneededq.elements| ==>
      unneededq.elements[i] == if i + 1 in keep then old(unneededq.elements)[i] else 0
  {
    ghost var q0 := unneededq.elements;
    for i := 0 to |unneededq.elements|
      invariant |unneededq.elements| == |q0|
      invariant forall j :: 0 <= j < |q0| ==>
        unneededq.elements[j] == if j + 1 in keep || i <= j then q0[j] else 0
    {
      if low[i + 1] <= 0 {
        unneededq.elements := unneededq.elements[i := 0];
      }
    }
  }

  /** Run the search and zero the entries of the nodes it does not keep. */
  method OnePass(unneededq: Queue, low: array<int>, edges: seq<int>, ghost live: set<int>)
    requires WfGraph(Graph(edges, |unneededq.elements|, live))
    requires Fresh(Graph(edges, |unneededq.elements|, live), low[..])
    modifies unneededq, low
    ensures |unneededq.elements| == old(|unneededq.elements|)
    ensures forall i :: 0 <= i < |unneededq.elements| ==>
      unneededq.elements[i]
        == if i + 1 in Kept(Graph(edges, |unneededq.elements|, live)) then old(unneededq.elements)[i] else 0
  {
    hide WfGraph, HasEntry;
    var count := |unneededq.elements|;
    var trj := new Search(edges, low, Graph(edges, count, live));
    trj.Roots(count);
    ZeroDropped(unneededq, low, Kept(Graph(edges, count, live)));
  }

  /** Close the gaps. */
  method Compact(unneededq: Queue, ghost q0: seq<int>, ghost keep: set<int>)
    requires |q0| == |unneededq.elements|
    requires forall i :: 0 <= i < |q0| ==> q0[i] != 0 && unneededq.elements[i] == if i + 1 in keep then q0[i] else 0
    modifies unneededq
    ensures unneededq.elements == Selected(q0, keep)
  {
    var j, count := 0, |unneededq.elements|;
    for i := 0 to count
      invariant 0 <= j <= i && |unneededq.elements| == count
      invariant unneededq.elements[..j] == Selected(q0[..i], keep)
      invariant forall k :: i <= k < count ==> unneededq.elements[k] == if k + 1 in keep then q0[k] else 0
    {
      assert q0[..i + 1][..i] == q0[..i];
      if unneededq.elements[i] != 0 {
        unneededq.elements := unneededq.elements[j := unneededq.elements[i]];
        j := j + 1;
        assert unneededq.elements[..j] == unneededq.elements[..j - 1] + [q0[i]];
      }
    }
    assert q0[..count] == q0;
    unneededq.Truncate(j);
  }

  method FilterUnneeded(unneededq: Queue, edges0: seq<int>, nrequires: seq<nat>)
    requires |nrequires| == |unneededq.elements| && |nrequires| < |edges0| && Built(edges0, nrequires)
    requires forall i :: 0 <= i < |unneededq.elements| ==> unneededq.elements[i] != 0
    modifies unneededq
    ensures unneededq.elements == Selected(old(unneededq.elements), KeptBy(edges0, nrequires, 2))
  {
    hide Built, WfGraph, Kept;
    ghost var q0 := unneededq.elements;
    var count, edges := |unneededq.elements|, edges0;
    var low := new int[2 * (count + 1)](_ => 0);
    assert KeptBy(edges0, nrequires, 0) == AllNodes(count);
    for pass := 0 to 2
      invariant |unneededq.elements| == count && low.Length == 2 * (count + 1) && fresh(low)
      invariant edges == if pass == 2 then Shift(edges0, nrequires) else edges0
      invariant pass == 0 ==> forall k :: 0 <= k < low.Length ==> low[k] == 0
      invariant KeptBy(edges0, nrequires, pass) <= AllNodes(count)
      invariant forall i :: 0 <= i < count ==>
        unneededq.elements[i] == if i + 1 in KeptBy(edges0, nrequires, pass) then q0[i] else 0
    {
      ghost var live := KeptBy(edges0, nrequires, pass);
      KeptWf(edges0, nrequires, pass);
      if pass > 0 {
        Ready(low, unneededq.elements);
        edges := Shift(edges, nrequires);
      }
      OnePass(unneededq, low, edges, live);
    }
    Compact(unneededq, q0, KeptBy(edges0, nrequires, 2));
  }
}
