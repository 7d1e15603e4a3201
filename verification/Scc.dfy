/** The component search of the unneeded-package filter, on its array. */
module ComponentSearch {
  import opened Common
  import opened SccGraph
  import opened SccSteps
  import opened SccPop
  import opened SccArray
  import opened SccVisit

  ghost predicate Sound(e: Env, a: seq<int>, ns: int, size: map<int, int>) {
    WfGraph(e.g) && Inv(e) && Rep(e, a, ns, size)
  }

  /** The values dropped to -1 at the nodes listed in slots l..k. */
  ghost predicate Marked(n: nat, a: seq<int>, l: int, k: int, m: int, a': seq<int>) {
    && 0 <= n < l <= k <= |a| == |a'| && a'[0] == a[0]
    && (forall v :: 1 <= v <= n ==> a'[v] == if v in a[l..k] then m else a[v])
    && forall j :: n < j < |a| ==> a'[j] == a[j]
  }

  lemma MarkedNone(e: Env, a: seq<int>, l: int, s: int)
    requires Lows(e, a) && Block(e, a, l, s)
    ensures 0 <= e.g.count < l < l + s < |a| && Marked(e.g.count, a, l, l, -1, a)
  {
  }

  lemma MarkedSlots(n: nat, a: seq<int>, l: int, k: int, m: int, a': seq<int>)
    requires Marked(n, a, l, k, m, a')
    ensures |a'| == |a| && forall j :: n < j < |a| ==> a'[j] == a[j]
  {
  }

  lemma MarkedMore(n: nat, a: seq<int>, l: int, k: int, m: int, a': seq<int>)
    requires Marked(n, a, l, k, m, a') && k < |a| && 1 <= a[k] <= n
    ensures a'[k] == a[k] && Marked(n, a, l, k + 1, m, a'[a[k] := m])
  {
    assert a[l..k + 1] == a[l..k] + [a[k]];
  }

  /** The marking loop goes on exactly as long as it is inside the block. */
  lemma MarkGuard(e: Env, a: seq<int>, l: int, s: int, k: int, a': seq<int>)
    requires Lows(e, a) && Block(e, a, l, s) && Marked(e.g.count, a, l, k, -1, a') && l <= k <= l + s
    requires forall v :: v in e.low ==> v in e.g.live
    requires forall v :: v in e.g.live ==> 1 <= v <= e.g.count
    ensures k < |a| && 0 <= a'[k] <= e.g.count && a'[k] == a[k]
    ensures a'[a'[k]] == l <==> k < l + s
    ensures k < l + s ==> a'[k] >= 1
  {
    if k < l + s {
      assert a[k] !in a[l..k];
    }
  }

  lemma MarkedAll(e: Env, a: seq<int>, l: int, s: int, a': seq<int>)
    requires Lows(e, a) && Block(e, a, l, s) && Marked(e.g.count, a, l, l + s, -1, a') && e.low.Keys == e.g.live
    ensures |a'| == |a| && a'[0] == 0
    ensures forall v :: 1 <= v <= e.g.count ==> a'[v] == if v in e.g.live && e.low[v] == l then -1 else a[v]
    ensures forall k :: e.g.count < k < |a| ==> a'[k] == a[k]
  {
    forall v | 1 <= v <= e.g.count ensures v in a[l..l + s] <==> v in e.g.live && e.low[v] == l {
      if v in a[l..l + s] {
        var k :| l <= k < l + s && a[k] == v;
      }
    }
  }

  lemma Room2(e: Env, a: seq<int>, ns: int, size: map<int, int>)
    requires Rep(e, a, ns, size)
    ensures e.g.count < e.first <= ns <= e.idx < |a| == 2 * (e.g.count + 1)
  {
  }

  /** The nodes in the slots first..ns. */
  lemma SlotNodes(e: Env, a: seq<int>, ns: int, size: map<int, int>)
    requires Basic(e) && Rep(e, a, ns, size)
    ensures forall k :: e.first <= k < ns ==> 1 <= a[k] <= e.g.count
  {
    forall k | e.first <= k < ns ensures 1 <= a[k] <= e.g.count {
      InSlice(a, e.first, ns, k);
      assert a[k] in e.stk;
    }
  }

  lemma GetBlock(e: Env, a: seq<int>, ns: int, size: map<int, int>, v: int)
    requires Basic(e) && Rep(e, a, ns, size) && Done(e, v) && e.low[v] > 0
    ensures e.low[v] in size && Block(e, a, e.low[v], size[e.low[v]]) && e.g.count < e.low[v] < e.first
  {
  }

  /** What the array says about a node. */
  lemma Lookup(e: Env, a: seq<int>, ns: int, size: map<int, int>, v: int)
    requires Basic(e) && Rep(e, a, ns, size) && 1 <= v <= e.g.count
    ensures v < |a|
    ensures v !in e.g.live ==> a[v] == -1
    ensures v in e.g.live ==> a[v] == e.low[v]
    ensures a[v] == 0 <==> White(e, v)
    ensures a[v] != 0 && v in e.g.live && a[v] < e.first ==> Done(e, v)
    ensures a[v] >= e.first <==> v in e.stk
  {
  }

  lemma Successor(g: Graph, u: int, v: int)
    requires WfGraph(g) && 1 <= u <= g.count && v in Out(g, u)
    ensures 1 <= v <= g.count && g.count < g.edges[v] < |g.edges|
    ensures u in g.live && v in g.live ==> Edge(g, u, v)
    ensures g.edges[g.edges[v]] == 0 ==> Out(g, v) == []
  {
  }

  lemma ChildLow(e0: Env, e: Env, c: int)
    requires Returned(e0, e, c)
    ensures c in e.stk || (c in e.low && e.low[c] == -1)
  {
  }

  /** What one look at the array tells about a successor c of `node`. */
  lemma Look(e0: Env, e: Env, a: seq<int>, ns: int, size: map<int, int>, node: int, c: int, p: int)
    requires At(e0, e, a, ns, size, node, p) && 0 <= node < |e.g.edges| && c in Out(e.g, node)
    ensures e.g.count < e.first <= ns <= e.idx < |a| && 1 <= c <= e.g.count && 1 <= node <= e.g.count < |e.g.edges|
    ensures Basic(e) && Rep(e, a, ns, size) && e.g.live == e.low.Keys
    ensures 0 <= e.g.edges[c] < |e.g.edges| && (e.g.edges[e.g.edges[c]] == 0 ==> Out(e.g, c) == [])
    ensures a[c] == 0 <==> White(e, c)
    ensures c in e.g.live ==> Edge(e.g, node, c) && c in e.low && a[c] == e.low[c]
    ensures a[c] >= 0 ==> c in e.g.live
    ensures Edge(e.g, node, c) ==> c in e.g.live
    ensures 0 < a[c] < e.first ==> Done(e, c)
    ensures a[c] >= e.first <==> c in e.stk
    ensures node in e.low && node in e.stk && a[node] == e.low[node]
  {
    hide Inv, Rep, PendLow, Reach, Base, Out;
    AtFacts(e0, e, a, ns, size, node, p);
    Successor(e.g, node, c);
    Lookup(e, a, ns, size, c);
    Lookup(e, a, ns, size, node);
  }

  // ----- the steps of a visit, on state and array together -----

  ghost predicate At(e0: Env, e: Env, a: seq<int>, ns: int, size: map<int, int>, node: int, c: int) {
    Sound(e, a, ns, size) && Base(e0, e, node) && PendLow(e0, e, node, c)
  }

  /** Forward progress: more edges looked at, fewer nodes to visit. */
  ghost predicate Progress(e: Env, e': Env) {
    e'.g == e.g && e.scanned <= e'.scanned && forall v :: White(e', v) ==> White(e, v)
  }

  lemma AtFacts(e0: Env, e: Env, a: seq<int>, ns: int, size: map<int, int>, node: int, c: int)
    requires At(e0, e, a, ns, size, node, c)
    ensures Basic(e) && GrayOk(e) && Rep(e, a, ns, size) && Inv(e) && WfGraph(e.g)
    ensures node in e.stk && node in e.gray && node in e.g.live && 1 <= node <= e.g.count && node !in e0.stk
    ensures e.g.count < e.first <= ns <= e.idx < |a| == 2 * (e.g.count + 1)
  {
    hide Inv, Rep, PendLow, Edge, Reach;
    assert Basic(e) && GrayOk(e) by { InvBasic(e); }
    Room2(e, a, ns, size);
    NotOld(e0, e, node);
  }

  lemma InvBasic(e: Env)
    requires Inv(e)
    ensures Basic(e) && GrayOk(e)
  {
  }

  lemma StepScan(e0: Env, e: Env, a: seq<int>, ns: int, size: map<int, int>, node: int, c: int)
    requires At(e0, e, a, ns, size, node, node) && Edge(e.g, node, c) && c in e.low && (c in e.stk || e.low[c] <= 0)
    ensures At(e0, Scan(e, node, c), a, ns, size, node, c) && Progress(e, Scan(e, node, c))
    ensures c !in e.stk ==> At(e0, Scan(e, node, c), a, ns, size, node, node)
    ensures forall v :: White(Scan(e, node, c), v) <==> White(e, v)
  {
    hide Inv, Rep, Base, PendLow, Edge, Reach, WfGraph, GrayOk, Basic;
    AtFacts(e0, e, a, ns, size, node, node);
    ScanInv(e, node, c);
    RepScan(e, a, ns, size, node, c);
    ScanBase(e0, e, node, c);
  }

  lemma StepLeaf(e0: Env, e: Env, a: seq<int>, ns: int, size: map<int, int>, node: int, c: int)
    requires At(e0, e, a, ns, size, node, node) && White(e, c) && (node, c) in e.scanned && 0 <= c < |e.g.edges|
    requires Out(e.g, c) == []
    ensures 1 <= c < e.first && c < |a| && At(e0, Leaf(e, c), a[c := -1], ns, size, node, node)
    ensures Progress(e, Leaf(e, c)) && !White(Leaf(e, c), c)
  {
    hide Inv, Rep, Base, PendLow, Edge, Reach, WfGraph, GrayOk, Basic, Out;
    AtFacts(e0, e, a, ns, size, node, node);
    LeafInv(e, node, c);
    RepLeaf(e, a, ns, size, c);
    LeafBase(e0, e, node, c);
    LeafBasic(e, c);
  }

  /** A white successor may be visited next. */
  lemma StepEnter(e0: Env, e: Env, a: seq<int>, ns: int, size: map<int, int>, node: int, c: int)
    requires At(e0, e, a, ns, size, node, node) && White(e, c) && Edge(e.g, node, c)
    ensures var e' := Scan(e, node, c); MayEnter(e', c) && e'.stk != {} && Whites(e') == Whites(e)
    ensures var e' := Scan(e, node, c);
      Sound(e', a, ns, size) && Base(e0, e', node) && PendLow(e0, e', node, node) && Basic(e')
  {
    hide Inv, Rep, Base, PendLow, Edge, Reach, WfGraph, GrayOk;
    AtFacts(e0, e, a, ns, size, node, node);
    StepScan(e0, e, a, ns, size, node, c);
    ScanMayEnter(e0, e, node, c);
    WhitesSame(e, Scan(e, node, c));
    InvBasic(Scan(e, node, c));
  }

  lemma StepChild(e0: Env, e: Env, e': Env, a: seq<int>, ns: int, size: map<int, int>, node: int, c: int)
    requires Base(e0, e, node) && PendLow(e0, e, node, node) && Basic(e) && Sound(e', a, ns, size) && Returned(e, e', c)
    ensures At(e0, e', a, ns, size, node, c) && Progress(e, e') && !White(e', c)
  {
    hide Sound, Edge, Reach, GrayOk, Basic, Base, PendLow, White;
    ChildBase(e0, e, e', node, c);
  }

  lemma StepUnkeep(e0: Env, e: Env, a: seq<int>, ns: int, size: map<int, int>, node: int, c: int, a': seq<int>)
    returns (e': Env)
    requires c in e.low && 0 < e.low[c] < e.first && e.low[c] in size
    requires At(e0, e, a, ns, size, node, node) && Edge(e.g, node, c)
    requires Block(e, a, e.low[c], size[e.low[c]]) && Marked(e.g.count, a, e.low[c], e.low[c] + size[e.low[c]], -1, a')
    ensures e'.g == e.g && e'.first == e.first && e'.idx == e.idx && (node, c) in e'.scanned
    ensures At(e0, e', a', ns, size, node, node) && Progress(e, e') && !White(e', c)
  {
    hide Inv, Rep, Base, PendLow, Edge, Reach, GrayOk, Marked, Block, Whites;
    var l := e.low[c];
    AtFacts(e0, e, a, ns, size, node, node);
    assert c in e.g.live && Done(e, c) && e.g.count < l by { LowRange(e, a, ns, size, node, c); }
    RepLows(e, a, ns, size);
    MarkedAll(e, a, l, size[l], a');
    UnkeepBasic(e, l);
    UnkeepInv(e, node, c);
    RepUnkeep(e, a, ns, size, l, a');
    UnkeepBase(e0, e, node, l);
    RepScan(Unkeep(e, l), a', ns, size, node, c);
    ScanBase(e0, Unkeep(e, l), node, c);
    e' := Scan(Unkeep(e, l), node, c);
  }

  lemma RepLows(e: Env, a: seq<int>, ns: int, size: map<int, int>)
    requires Rep(e, a, ns, size)
    ensures Lows(e, a) && forall v :: v in e.g.live ==> 1 <= v <= e.g.count
  {
  }

  lemma LowRange(e: Env, a: seq<int>, ns: int, size: map<int, int>, node: int, c: int)
    requires Basic(e) && Rep(e, a, ns, size) && Edge(e.g, node, c) && 0 < e.low[c] < e.first
    ensures c in e.g.live && Done(e, c) && e.g.count < e.low[c]
  {
  }

  lemma PruneReady(e0: Env, e: Env, a: seq<int>, ns: int, size: map<int, int>, node: int, c: int)
    requires c in e.low && 0 < e.low[c] < e.first && Edge(e.g, node, c) && At(e0, e, a, ns, size, node, node)
    ensures e.g.count < e.first && e.low[c] in size && Lows(e, a) && Block(e, a, e.low[c], size[e.low[c]])
    ensures e.low.Keys == e.g.live && forall v :: v in e.g.live ==> 1 <= v <= e.g.count
  {
    hide Inv, Rep, Base, PendLow, Reach, GrayOk, Lows, Block, Edge;
    AtFacts(e0, e, a, ns, size, node, node);
    LowRange(e, a, ns, size, node, c);
    GetBlock(e, a, ns, size, c);
    RepLows(e, a, ns, size);
  }

  lemma StepLower(e0: Env, e: Env, a: seq<int>, ns: int, size: map<int, int>, node: int, c: int)
    requires At(e0, e, a, ns, size, node, c) && Edge(e.g, node, c) && c in e.stk && c in e.low && node in e.low
    requires e.low[c] < e.low[node]
    ensures var e' := Lower(e, node, e.low[c]);
      node < |a| && node >= 0 && At(e0, e', a[node := e.low[c]], ns, size, node, node) && Progress(e, e')
    ensures forall v :: White(Lower(e, node, e.low[c]), v) <==> White(e, v)
  {
    hide Inv, Rep, Base, PendLow, Edge, Reach, GrayOk, WfGraph;
    AtFacts(e0, e, a, ns, size, node, c);
    LowerInv(e, node, c);
    RepLower(e, a, ns, size, node, e.low[c]);
    SettleLower(e0, e, node, c);
  }

  lemma StepKeep(e0: Env, e: Env, a: seq<int>, ns: int, size: map<int, int>, node: int, c: int)
    requires At(e0, e, a, ns, size, node, c) && node in e.low && (c in e.stk ==> c in e.low && e.low[c] >= e.low[node])
    ensures At(e0, e, a, ns, size, node, node)
  {
    hide Inv, Rep, Base, PendLow, Edge, Reach, GrayOk, WfGraph;
    AtFacts(e0, e, a, ns, size, node, c);
    SettleKeep(e0, e, node, c);
  }

  lemma StepSkip(e0: Env, e: Env, a: seq<int>, ns: int, size: map<int, int>, node: int, c: int)
    requires At(e0, e, a, ns, size, node, c) && c !in e.stk
    ensures At(e0, e, a, ns, size, node, node)
  {
    hide Inv, Rep, Base, PendLow, Edge, Reach, GrayOk, WfGraph;
    AtFacts(e0, e, a, ns, size, node, c);
    SettleKeep(e0, e, node, c);
  }

  lemma EmptyStack(e: Env, a: seq<int>, ns: int, size: map<int, int>)
    requires Rep(e, a, ns, size)
    ensures e.stk == {} ==> ns == e.first
  {
    if e.stk == {} && ns > e.first {
      InSlice(a, e.first, ns, e.first);
    }
  }

  lemma StepPush(e: Env, a: seq<int>, ns: int, size: map<int, int>, node: int)
    requires Sound(e, a, ns, size) && MayEnter(e, node)
    ensures 1 <= node < e.first <= ns < |a|
    ensures At(e, Push(e, node), a[node := e.idx][ns := node], ns + 1, size, node, node)
    ensures (e.stk == {} ==> ns == e.first) && Progress(e, Push(e, node))
    ensures Whites(Push(e, node)) == Whites(e) - {node} && |Whites(Push(e, node))| == |Whites(e)| - 1 && |Whites(e)| > 0
  {
    hide Inv, Rep, Edge, Reach, WfGraph, Base, PendLow;
    assert Basic(e) && GrayOk(e) by { InvBasic(e); }
    Room2(e, a, ns, size);
    EmptyStack(e, a, ns, size);
    assert White(e, node);
    PushInv(e, node);
    RepPush(e, a, ns, size, node);
    PushBase(e, node);
    PushBasic(e, node);
    WhitesLess(e, Push(e, node), node);
  }

  /** All edges of `node` have been looked at. */
  ghost predicate AllScanned(e: Env, node: int) {
    forall v :: Edge(e.g, node, v) ==> (node, v) in e.scanned && !White(e, v)
  }

  lemma StepPopInner(e0: Env, e: Env, a: seq<int>, ns: int, size: map<int, int>, node: int, at: int, a': seq<int>)
    requires node in e.low && node in e.num && e.low[node] == e.num[node] && 0 <= at < ns <= |a| && e.first <= at
    requires a[at] == node && e0.stk != {}
    requires At(e0, e, a, ns, size, node, node) && AllScanned(e, node) && PoppedTo(e, a, at, ns, -1, a')
    ensures e.g.live <= e.low.Keys
    ensures var e' := Pop(e, node, -1, e.first); Sound(e', a', at, size) && Returned(e0, e', node)
  {
    hide Inv, Rep, Base, PendLow, Edge, Reach, GrayOk, WfGraph, PoppedTo, PopOk, Finished, CrossLow;
    AtFacts(e0, e, a, ns, size, node, node);
    EndPopInner(e0, e, node);
    assert Finished(e, node) by { EndFinished(e0, e, node); }
    EndCross(e0, e, node);
    PopInv(e, node, -1, e.first);
    RepPopInner(e, a, ns, size, at, node, a');
    PopReturned(e0, e, node);
  }

  lemma StepLeave(e0: Env, e: Env, a: seq<int>, ns: int, size: map<int, int>, node: int)
    requires At(e0, e, a, ns, size, node, node) && AllScanned(e, node) && node in e.low && node in e.num
    requires e.low[node] != e.num[node]
    ensures e0.stk != {}
    ensures Sound(Leave(e, node), a, ns, size) && Returned(e0, Leave(e, node), node)
  {
    hide Inv, Rep, Base, PendLow, Edge, Reach, GrayOk, WfGraph, Finished, CrossLow;
    AtFacts(e0, e, a, ns, size, node, node);
    if e0.stk == {} { RootCompletes(e0, e, node); }
    assert Finished(e, node) by { EndFinished(e0, e, node); }
    LeaveInv(e, node);
    RepLeave(e, a, ns, size, node);
    LeaveReturned(e0, e, node);
  }

  lemma StepPopRoot(e0: Env, e: Env, a: seq<int>, ns: int, size: map<int, int>, node: int, a': seq<int>)
    requires node in e.low && node in e.num && e.low[node] == e.num[node] && 0 < e.first < ns <= |a|
    requires a[e.first] == node && e0.stk == {}
    requires At(e0, e, a, ns, size, node, node) && AllScanned(e, node) && PoppedTo(e, a, e.first, ns, e.first, a')
    ensures e.g.live <= e.low.Keys
    ensures var e' := Pop(e, node, e.first, e.idx);
      Sound(e', a', e.idx, size[e.first := ns - e.first]) && e'.stk == {} && Progress(e, e') && !White(e', node)
  {
    hide Inv, Rep, Base, PendLow, Edge, Reach, GrayOk, WfGraph, PoppedTo, Finished, CrossLow, Above;
    AtFacts(e0, e, a, ns, size, node, node);
    EndPopRoot(e0, e, node);
    assert Finished(e, node) by { EndFinished(e0, e, node); }
    EndCross(e0, e, node);
    PopInv(e, node, e.first, e.idx);
    RepPopRoot(e, a, ns, size, node, a');
    PopBasic(e, node, e.first, e.idx);
    assert Pop(e, node, e.first, e.idx).stk == {};
  }

  // ----- the loop over a node's edges -----

  lemma OutStep(edges: seq<int>, i: int)
    requires 0 <= i < |edges|
    ensures OutFrom(edges, i) == if edges[i] == 0 then [] else [edges[i]] + OutFrom(edges, i + 1)
  {
  }

  /** Every successor of `node` is in `seen` or still ahead at i; those seen have been looked at. */
  ghost predicate Scanning(e: Env, node: int, i: int, seen: set<int>) {
    && 0 <= node < |e.g.edges| && e.g.count < i < |e.g.edges| && e.g.edges[|e.g.edges| - 1] == 0
    && (forall v :: v in Out(e.g, node) ==> v in seen || v in OutFrom(e.g.edges, i))
    && (forall v :: v in OutFrom(e.g.edges, i) ==> v in Out(e.g, node))
    && forall v :: v in seen && Edge(e.g, node, v) ==> (node, v) in e.scanned && !White(e, v)
  }

  lemma ScanStart(e: Env, node: int)
    requires WfGraph(e.g) && 1 <= node <= e.g.count
    ensures e.g.count < |e.g.edges| && Scanning(e, node, e.g.edges[node], {})
  {
  }

  lemma ScanNext(e: Env, e': Env, node: int, i: int, seen: set<int>)
    requires Scanning(e, node, i, seen) && Progress(e, e') && e.g.edges[i] != 0
    requires Edge(e.g, node, e.g.edges[i]) ==> (node, e.g.edges[i]) in e'.scanned && !White(e', e.g.edges[i])
    ensures Scanning(e', node, i + 1, seen + {e.g.edges[i]})
  {
    hide Edge, White;
    OutStep(e.g.edges, i);
  }

  lemma ScanEnd(e: Env, node: int, i: int, seen: set<int>)
    requires Scanning(e, node, i, seen) && e.g.edges[i] == 0
    ensures AllScanned(e, node)
  {
    hide White;
    OutStep(e.g.edges, i);
  }

  lemma ScanHere(e: Env, node: int, i: int, seen: set<int>)
    requires Scanning(e, node, i, seen) && e.g.edges[i] != 0
    ensures e.g.edges[i] in Out(e.g, node) && i + 1 < |e.g.edges|
  {
    OutStep(e.g.edges, i);
  }

  lemma ProgressWhites(e: Env, e': Env)
    requires Progress(e, e')
    ensures |Whites(e')| <= |Whites(e)|
  {
    var w', w := Whites(e'), Whites(e);
    assert w' <= w;
    SubsetSize(w', w);
  }

  lemma AtNode(e0: Env, e: Env, a: seq<int>, ns: int, size: map<int, int>, node: int)
    requires At(e0, e, a, ns, size, node, node)
    ensures 1 <= node <= e.g.count < e.first <= ns <= e.idx < |a| && a[0] == 0
    ensures node in e.low && a[node] == e.low[node] && node in e.num && e.num[node] == e0.idx && e.first == e0.first
    ensures e.g == e0.g
    ensures e0.stk == {} <==> e0.idx == e.first
    ensures forall k :: e.first <= k < ns ==> 1 <= a[k] <= e.g.count
  {
    hide Inv, Rep, PendLow, Edge, Reach, WfGraph;
    AtFacts(e0, e, a, ns, size, node, node);
    Lookup(e, a, ns, size, node);
    SlotNodes(e, a, ns, size);
    RepLows(e, a, ns, size);
    if e0.stk == {} { EndPopRoot(e0, e, node); } else { EndPopInner(e0, e, node); }
  }

  // ----- a pass -----

  ghost predicate Fresh(g: Graph, a: seq<int>) {
    |a| == 2 * (g.count + 1) && forall k :: 0 <= k < |a| ==> a[k] == if 1 <= k <= g.count && k !in g.live then -1 else 0
  }

  ghost function Start(g: Graph): Env {
    Env(g, map v | v in g.live :: 0, g.count + 1, g.count + 1, {}, map[], {}, {})
  }

  /** The nodes whose component no edge enters from outside. */
  ghost function Kept(g: Graph): set<int> {
    set v | v in g.live && !HasEntry(g, v)
  }

  lemma StartInv(g: Graph)
    requires WfGraph(g)
    ensures Inv(Start(g))
  {
    hide Reach, Scc, OutFrom;
    var e := Start(g);
    UpIntro(e);
    LowIntro(e);
  }

  lemma StartSound(g: Graph, a: seq<int>)
    requires WfGraph(g) && Fresh(g, a)
    ensures Sound(Start(g), a, g.count + 1, map[]) && forall v :: v in g.live ==> White(Start(g), v)
  {
    hide Reach, Scc, Edge, OutFrom, Inv, Whites;
    var e := Start(g);
    StartInv(g);
    assert a[e.first..g.count + 1] == [];
    FewWhites(e);
    LiveCount(g.live, g.count);
    assert Rep(e, a, g.count + 1, map[]);
  }

  lemma FewWhites(e: Env)
    ensures |Whites(e)| <= |e.g.live|
  {
    SubsetSize(Whites(e), e.g.live);
  }

  lemma {:induction false} LiveCount(s: set<int>, n: nat)
    requires forall v :: v in s ==> 1 <= v <= n
    ensures |s| <= n
  {
    if n > 0 {
      LiveCount(s - {n}, n - 1);
    } else if |s| > 0 {
      var x := Pick(s);
    }
  }

  lemma Pick<T>(s: set<T>) returns (x: T)
    requires |s| > 0
    ensures x in s
  {
    x :| x in s;
  }

  lemma IdleFacts(e: Env, a: seq<int>, ns: int, size: map<int, int>)
    requires Sound(e, a, ns, size)
    ensures WfGraph(e.g) && Basic(e) && Rep(e, a, ns, size) && |a| == 2 * (e.g.count + 1)
    ensures e.g.count < e.first <= e.idx < |a|
    ensures forall v :: v in e.g.live ==> 1 <= v <= e.g.count
  {
  }

  lemma RootSuccessor(e: Env, v: int)
    requires WfGraph(e.g) && 1 <= v <= e.g.count
    ensures v < |e.g.edges| && 0 <= e.g.edges[v] < |e.g.edges|
  {
  }

  lemma RootMayEnter(e: Env, v: int)
    requires White(e, v) && e.stk == {} && e.first == e.idx
    ensures MayEnter(e, v)
  {
  }

  lemma StepRootLeaf(e: Env, a: seq<int>, size: map<int, int>, v: int)
    requires Sound(e, a, e.idx, size) && e.stk == {} && e.first == e.idx && White(e, v)
    requires 0 <= v < |e.g.edges| && 0 <= e.g.edges[v] < |e.g.edges| && e.g.edges[e.g.edges[v]] == 0
    ensures 1 <= v <= e.g.count < e.idx < |a|
    ensures Sound(RootLeaf(e, v), a[v := e.idx][e.idx := v], e.idx + 1, size[e.idx := 1])
    ensures Progress(e, RootLeaf(e, v)) && !White(RootLeaf(e, v), v)
  {
    hide Inv, Rep, Reach, Edge, WfGraph;
    InvBasic(e);
    RepRootLeaf(e, a, size, v);
    RootLeafBasic(e, v);
    RootLeafInv(e, v);
  }

  lemma PassEnd(e: Env, a: seq<int>, size: map<int, int>)
    requires Sound(e, a, e.idx, size) && e.stk == {} && forall v :: v in e.g.live ==> !White(e, v)
    ensures |a| == 2 * (e.g.count + 1) && forall v :: 1 <= v <= e.g.count ==> (a[v] > 0 <==> v in Kept(e.g))
  {
    hide HasEntry, Reach, Edge, White;
    FinalMeaning(e);
    RepLows(e, a, e.idx, size);
  }

  class Search {
    var edges: seq<int>
    const low: array<int>
    var idx: int
    var nstack: int
    var firstidx: int
    ghost var e: Env
    ghost var size: map<int, int>

    ghost predicate Valid()
      reads this, low
    {
      edges == e.g.edges && idx == e.idx && firstidx == e.first && Sound(e, low[..], nstack, size)
    }

    /** Between two roots: nothing on the stack. */
    ghost predicate Idle()
      reads this, low
    {
      edges == e.g.edges && idx == e.idx == e.first && e.stk == {} && Sound(e, low[..], e.idx, size)
    }

    /** Prune the component kept with value l: its nodes follow one another from slot l. */
    static method DropBlock(low: array<int>, l: int, ghost s: int, ghost e: Env, ghost a: seq<int>)
      requires a == low[..] && Lows(e, a) && Block(e, a, l, s) && e.low.Keys == e.g.live
      requires forall v :: v in e.g.live ==> 1 <= v <= e.g.count
      modifies low
      ensures Marked(e.g.count, a, l, l + s, -1, low[..])
      ensures forall j :: e.g.count < j < low.Length ==> low[j] == a[j]
    {
      hide Lows, Block, Marked;
      var k := l;
      MarkedNone(e, a, l, s);
      MarkGuard(e, a, l, s, k, low[..]);
      while low[low[k]] == l
        invariant l <= k <= l + s && k < low.Length && 0 <= low[k] <= e.g.count < low.Length
        invariant Marked(e.g.count, a, l, k, -1, low[..])
        invariant low[low[k]] == l <==> k < l + s
        invariant low[k] == a[k] && (k < l + s ==> low[k] >= 1)
        decreases l + s - k
      {
        ghost var b := low[..];
        MarkedMore(e.g.count, a, l, k, -1, b);
        low[low[k]] := -1;
        k := k + 1;
        assert low[..] == b[b[k - 1] := -1];
        MarkGuard(e, a, l, s, k, low[..]);
      }
      MarkedSlots(e.g.count, a, l, l + s, -1, low[..]);
    }

    /** Give every node from slot `at` up the finishing value m. */
    method FinishAbove(at: int, m: int)
      requires 0 <= e.g.count < at <= nstack <= low.Length && low[0] == 0
      requires forall k :: at <= k < nstack ==> 1 <= low[k] <= e.g.count
      modifies low
      ensures PoppedTo(e, old(low[..]), at, nstack, m, low[..])
    {
      ghost var a := low[..];
      for i := at to nstack
        invariant Marked(e.g.count, a, at, i, m, low[..])
        invariant forall k :: e.g.count < k < low.Length ==> low[k] == a[k]
      {
        MarkedMore(e.g.count, a, at, i, m, low[..]);
        low[low[i]] := m;
      }
    }

    /** An edge into a component kept from an earlier root prunes that component. */
    method Prune(node: int, nnode: int, l: int, ghost e0: Env)
      requires edges == e.g.edges && idx == e.idx && firstidx == e.first && 0 <= nnode < low.Length && l == low[nnode]
      requires At(e0, e, low[..], nstack, size, node, node) && Edge(e.g, node, nnode) && nnode in e.low
      requires e.low[nnode] == l && 0 < l < firstidx
      modifies low, this`e
      ensures edges == e.g.edges && idx == e.idx && firstidx == e.first && e.g.count < firstidx
      ensures forall k :: e.g.count < k < low.Length ==> low[k] == old(low[k])
      ensures Progress(old(e), e) && (node, nnode) in e.scanned && !White(e, nnode)
      ensures At(e0, e, low[..], nstack, size, node, node)
    {
      hide At, Sound, WfGraph, Inv, Rep, Basic, Base, PendLow, Edge, Reach, GrayOk, Lows, Block, Marked, White, Unkeep,
           Scan, Done, Progress;
      ghost var a, e1 := low[..], e;
      PruneReady(e0, e1, a, nstack, size, node, nnode);
      DropBlock(low, l, size[l], e1, a);
      ghost var a' := low[..];
      ghost var e2 := StepUnkeep(e0, e1, a, nstack, size, node, nnode, a');
      e := e2;
      assert low[..] == a';
    }

    /** One edge of `node`, to nnode. */
    method Follow(node: int, nnode: int, ghost e0: Env)
      requires edges == e.g.edges && idx == e.idx && firstidx == e.first && 0 <= node < |edges|
      requires nnode in Out(e.g, node)
      requires At(e0, e, low[..], nstack, size, node, node)
      modifies low, this`idx, this`nstack, this`e, this`size
      ensures edges == e.g.edges && idx == e.idx && firstidx == e.first
      ensures 0 <= old(nstack) <= nstack <= low.Length
      ensures forall k :: 0 <= firstidx <= k < old(nstack) <= low.Length ==> low[k] == old(low[k])
      ensures Progress(old(e), e)
      ensures Edge(e.g, node, nnode) ==> (node, nnode) in e.scanned && !White(e, nnode)
      ensures At(e0, e, low[..], nstack, size, node, node)
      decreases |Whites(e)|, 2
    {
      hide At, Sound, WfGraph, Inv, Rep, Basic, Base, PendLow, Edge, Reach, GrayOk, Block, Lows, Marked, Whites, White,
           Returned, MayEnter, Out;
      Look(e0, e, low[..], nstack, size, node, nnode, node);
      var l := low[nnode];
      if l == 0 {
        l := Enter(node, nnode, e0);
        if l < 0 {
          return;
        }
        Look(e0, e, low[..], nstack, size, node, nnode, nnode);
      } else if nnode in e.g.live && (l < 0 || l >= firstidx) {
        StepScan(e0, e, low[..], nstack, size, node, nnode);
        e := Scan(e, node, nnode);
      }
      if l < 0 {
        return;
      }
      if l < firstidx {
        Prune(node, nnode, l, e0);
      } else if l < low[node] {
        StepLower(e0, e, low[..], nstack, size, node, nnode);
        low[node] := l;
        e := Lower(e, node, l);
      } else {
        StepKeep(e0, e, low[..], nstack, size, node, nnode);
      }
    }

    /** An edge to a node not seen before: at once pruned if it has no successors, else visited. */
    method Enter(node: int, nnode: int, ghost e0: Env) returns (l: int)
      requires edges == e.g.edges && idx == e.idx && firstidx == e.first && 0 <= node < |edges|
      requires nnode in Out(e.g, node)
      requires At(e0, e, low[..], nstack, size, node, node) && White(e, nnode)
      modifies low, this`idx, this`nstack, this`e, this`size
      ensures edges == e.g.edges && idx == e.idx && firstidx == e.first
      ensures 0 <= old(nstack) <= nstack <= low.Length
      ensures forall k :: 0 <= firstidx <= k < old(nstack) <= low.Length ==> low[k] == old(low[k])
      ensures Progress(old(e), e)
      ensures (node, nnode) in e.scanned && !White(e, nnode)
      ensures 0 <= nnode < low.Length && l == low[nnode]
      ensures l < 0 ==> At(e0, e, low[..], nstack, size, node, node)
      ensures l >= 0 ==> l >= firstidx && At(e0, e, low[..], nstack, size, node, nnode)
      decreases |Whites(e)|, 1
    {
      hide At, Sound, WfGraph, Inv, Rep, Basic, Base, PendLow, Edge, Reach, GrayOk, Block, Lows, Marked, Whites, White,
           Returned, MayEnter, Out;
      Look(e0, e, low[..], nstack, size, node, nnode, node);
      StepScan(e0, e, low[..], nstack, size, node, nnode);
      StepEnter(e0, e, low[..], nstack, size, node, nnode);
      e := Scan(e, node, nnode);
      if edges[edges[nnode]] == 0 {
        StepLeaf(e0, e, low[..], nstack, size, node, nnode);
        idx := idx + 1;
        low[nnode] := -1;
        e := Leaf(e, nnode);
        return -1;
      }
      ghost var e1 := e;
      Visit(nnode);
      StepChild(e0, e1, e, low[..], nstack, size, node, nnode);
      Look(e0, e, low[..], nstack, size, node, nnode, nnode);
      ChildLow(e1, e, nnode);
      l := low[nnode];
      if l < 0 {
        StepSkip(e0, e, low[..], nstack, size, node, nnode);
      }
    }

    /** Number the node and put it on the stack. */
    method Begin(node: int) returns (myidx: int, stackstart: int)
      requires Valid() && MayEnter(e, node)
      modifies low, this`idx, this`nstack, this`e
      ensures myidx == old(idx) && stackstart == old(nstack) && e == Push(old(e), node)
      ensures edges == e.g.edges && idx == e.idx && firstidx == e.first && 0 <= node < |edges|
      ensures |Whites(e)| < |Whites(old(e))| && Progress(old(e), e) && Scanning(e, node, edges[node], {})
      ensures 0 <= stackstart < nstack <= low.Length && low[stackstart] == node
      ensures 0 <= firstidx <= stackstart && myidx == old(e).idx && (old(e).stk == {} ==> stackstart == firstidx)
      ensures forall k :: 0 <= firstidx <= k < stackstart ==> low[k] == old(low[k])
      ensures At(old(e), e, low[..], nstack, size, node, node)
    {
      hide At, Sound, WfGraph, Inv, Rep, Basic, Base, PendLow, Edge, Reach, GrayOk, PoppedTo, Whites, White, Returned,
           MayEnter, Out, AllScanned, OutFrom;
      ghost var e0 := e;
      StepPush(e, low[..], nstack, size, node);
      myidx, stackstart := idx, nstack;
      idx, nstack := idx + 1, nstack + 1;
      low[node] := myidx;
      low[stackstart] := node;
      e := Push(e, node);
      AtFacts(e0, e, low[..], nstack, size, node, node);
      ScanStart(e, node);
    }

    method Visit(node: int)
      requires Valid() && MayEnter(e, node)
      modifies low, this`idx, this`nstack, this`e, this`size
      ensures old(e.stk) != {} ==> 0 <= old(nstack) <= nstack <= low.Length
      ensures old(e.stk) != {} ==> forall k :: 0 <= firstidx <= k < old(nstack) <= low.Length ==> low[k] == old(low[k])
      ensures old(e.stk) != {} ==> Valid() && Returned(old(e), e, node)
      ensures old(e.stk) == {} ==> Idle() && Progress(old(e), e) && !White(e, node)
      decreases |Whites(e)|, 0
    {
      hide At, Sound, WfGraph, Inv, Rep, Basic, Base, PendLow, Edge, Reach, GrayOk, PoppedTo, Whites, White, Returned,
           MayEnter, Out, AllScanned, OutFrom;
      ghost var e0 := e;
      var myidx, stackstart := Begin(node);
      var i := edges[node];
      ghost var seen: set<int> := {};
      while edges[i] != 0
        invariant edges == e.g.edges && idx == e.idx && firstidx == e.first == e0.first && e.g == e0.g
        invariant |Whites(e)| < |Whites(e0)| && Progress(e0, e)
        invariant Scanning(e, node, i, seen)
        invariant 0 <= firstidx <= stackstart < nstack <= low.Length && low[stackstart] == node
        invariant forall k :: 0 <= firstidx <= k < stackstart ==> low[k] == old(low[k])
        invariant At(e0, e, low[..], nstack, size, node, node)
        decreases |edges| - i
      {
        ghost var e1 := e;
        ScanHere(e, node, i, seen);
        Follow(node, edges[i], e0);
        ProgressWhites(e1, e);
        ScanNext(e1, e, node, i, seen);
        seen := seen + {edges[i]};
        i := i + 1;
      }
      ScanEnd(e, node, i, seen);
      assert Progress(e0, e);
      Complete(node, myidx, stackstart, e0);
    }

    /** The end of a visit: if the node's component is complete, it leaves the stack, kept only if it is the root's. */
    method Complete(node: int, myidx: int, stackstart: int, ghost e0: Env)
      requires edges == e.g.edges && idx == e.idx && firstidx == e.first && 0 <= stackstart < nstack <= low.Length
      requires low[stackstart] == node
      requires e0.stk == {} ==> stackstart == firstidx
      requires firstidx <= stackstart && myidx == e0.idx
      requires At(e0, e, low[..], nstack, size, node, node) && AllScanned(e, node)
      modifies low, this`nstack, this`e, this`size
      ensures e0.stk != {} ==> stackstart <= nstack <= low.Length
      ensures forall k :: old(e.g.count) < k < low.Length ==> low[k] == old(low[k])
      ensures old(e.g.count) < firstidx
      ensures e0.stk != {} ==> Valid() && Returned(e0, e, node)
      ensures e0.stk == {} ==> Idle() && Progress(old(e), e) && !White(e, node)
    {
      hide At, Sound, WfGraph, Inv, Rep, Basic, Base, PendLow, Edge, Reach, GrayOk, PoppedTo, White, Returned,
           AllScanned;
      AtNode(e0, e, low[..], nstack, size, node);
      if low[node] == myidx {
        ghost var a := low[..];
        var m := if myidx != firstidx then -1 else myidx;
        FinishAbove(stackstart, m);
        PoppedSlots(e, a, stackstart, nstack, m, low[..]);
        if m == -1 {
          StepPopInner(e0, e, a, nstack, size, node, stackstart, low[..]);
          e := Pop(e, node, -1, e.first);
        } else {
          StepPopRoot(e0, e, a, nstack, size, node, low[..]);
          size := size[e.first := nstack - e.first];
          e := Pop(e, node, e.first, e.idx);
        }
        nstack := stackstart;
      } else {
        StepLeave(e0, e, low[..], nstack, size, node);
        e := Leave(e, node);
      }
    }

    /** Start a pass: live nodes hold 0, ignored ones -1, the stack area is empty. */
    constructor (edges: seq<int>, low: array<int>, ghost g: Graph)
      requires WfGraph(g) && g.edges == edges && Fresh(g, low[..])
      ensures Idle() && e.g == g && this.low == low && forall v :: v in g.live ==> White(e, v)
    {
      this.edges, this.low := edges, low;
      var top := low.Length / 2;
      idx, nstack, firstidx := top, top, top;
      e, size := Start(g), map[];
      StartSound(g, low[..]);
    }

    /** One pass over all nodes: every node not reached yet becomes the root of a round. */
    method Roots(count: nat)
      requires Idle() && count == e.g.count && forall v :: v in e.g.live ==> White(e, v)
      modifies low, this
      ensures e.g == old(e.g) && low.Length == 2 * (count + 1)
      ensures forall v :: 1 <= v <= count ==> (low[v] > 0 <==> v in Kept(e.g))
    {
      hide Sound, WfGraph, Inv, Rep, Basic, Edge, Reach, GrayOk, White, Out, HasEntry;
      ghost var g := e.g;
      IdleFacts(e, low[..], e.idx, size);
      for i := 1 to count + 1
        invariant Idle() && e.g == g && low.Length == 2 * (count + 1)
        invariant forall v :: v in g.live && v < i ==> !White(e, v)
      {
        IdleFacts(e, low[..], e.idx, size);
        Lookup(e, low[..], e.idx, size, i);
        RootSuccessor(e, i);
        ghost var e1 := e;
        if low[i] == 0 {
          if edges[edges[i]] != 0 {
            firstidx, nstack := idx, idx;
            RootMayEnter(e, i);
            Visit(i);
          } else {
            var myidx := idx;
            StepRootLeaf(e, low[..], size, i);
            idx := idx + 1;
            low[i] := myidx;
            low[myidx] := i;
            e, size := RootLeaf(e, i), size[myidx := 1];
          }
        }
        assert Progress(e1, e) && !White(e, i);
      }
      PassEnd(e, low[..], size);
    }
  }
}
