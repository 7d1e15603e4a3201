/** Each step of the component search keeps the invariant. */
module SccSteps {
  import opened SccGraph

  // ----- entering a node -----

  ghost function Push(e: Env, node: int): Env {
    e.(low := e.low[node := e.idx], idx := e.idx + 1, stk := e.stk + {node}, num := e.num[node := e.idx],
       gray := e.gray + {node})
  }

  ghost predicate Parent(e: Env, p: int, node: int) {
    p in e.gray && (p, node) in e.scanned && p in e.num && forall x ::
      x in e.gray ==> x in e.num && e.num[x] <= e.num[p]
  }

  /** The node is the root of this round, or the latest node being visited has an edge to it. */
  ghost predicate MayEnter(e: Env, node: int) {
    White(e, node) && ((e.stk == {} && e.first == e.idx) || exists p :: Parent(e, p, node))
  }

  /** Everything on the stack reaches the node that is being entered. */
  lemma AllReachNode(e: Env, node: int, y: int)
    requires Basic(e) && GrayOk(e) && Down(e) && Up(e) && MayEnter(e, node) && y in e.stk
    ensures Reach(e.g, y, node)
  {
    hide Reach, Edge, Up;
    var p :| Parent(e, p, node);
    var x := GetBack(e, y);
    assert Edge(e.g, p, node);
    ReachEdge(e.g, p, node);
    ReachTrans(e.g, x, p, node);
    ReachTrans(e.g, y, x, node);
  }

  lemma PushBasic(e: Env, node: int)
    requires Basic(e) && White(e, node)
    ensures Basic(Push(e, node))
    ensures forall v :: White(Push(e, node), v) <==> White(e, v) && v != node
    ensures forall v :: Done(Push(e, node), v) <==> Done(e, v)
  {
    var e' := Push(e, node);
    assert e'.low.Keys == e.low.Keys + {node};
  }

  lemma PushGray(e: Env, node: int)
    requires Basic(e) && GrayOk(e) && White(e, node)
    ensures GrayOk(Push(e, node))
  {
    hide Edge, Reach;
    PushBasic(e, node);
  }

  lemma PushDown(e: Env, node: int)
    requires Basic(e) && GrayOk(e) && Down(e) && Up(e) && MayEnter(e, node)
    ensures Down(Push(e, node))
  {
    hide Edge, Reach, GrayOk, Up;
    ReachRefl(e.g, node);
    forall u | u in e.stk ensures Reach(e.g, u, node) { AllReachNode(e, node, u); }
  }

  lemma PushUp(e: Env, node: int)
    requires Basic(e) && Up(e) && White(e, node) && e.gray <= e.stk
    ensures Up(Push(e, node))
  {
    hide Reach, Up;
    var e' := Push(e, node);
    ReachRefl(e.g, node);
    forall y | y in e'.stk ensures exists x :: Back(e', y, x) {
      if y == node {
        assert Back(e', node, node);
      } else {
        var x := GetBack(e, y);
        PushKeeps(e, node, y, x);
      }
    }
    UpIntro(e');
  }

  /** Entering a node takes nothing away from the others. */
  lemma PushKeeps(e: Env, node: int, y: int, x: int)
    requires Basic(e) && White(e, node) && y in e.stk && e.gray <= e.stk
    ensures Back(e, y, x) ==> Back(Push(e, node), y, x)
    ensures LowAt(e, y, x) ==> LowAt(Push(e, node), y, x)
  {
    hide Reach;
  }

  lemma PushLow(e: Env, node: int)
    requires Basic(e) && LowOk(e) && White(e, node) && e.gray <= e.stk
    ensures LowOk(Push(e, node))
  {
    hide Reach, LowOk;
    var e' := Push(e, node);
    ReachRefl(e.g, node);
    forall y | y in e'.stk ensures exists w :: LowAt(e', y, w) {
      if y == node {
        assert LowAt(e', node, node);
      } else {
        var w := GetLow(e, y);
        PushKeeps(e, node, y, w);
      }
    }
    LowIntro(Push(e, node));
  }

  /** Nothing about finished components depends on more than the edges scanned and the finished low values. */
  lemma DoneSame(e: Env, e': Env)
    requires e.low.Keys == e.g.live && e'.low.Keys == e.g.live && e'.g == e.g && e'.scanned == e.scanned
    requires DoneClosed(e) && DoneWhole(e) && DoneKept(e)
    requires forall v :: Done(e', v) <==> Done(e, v)
    requires forall v :: Done(e, v) ==> e'.low[v] == e.low[v]
    ensures DoneClosed(e') && DoneWhole(e') && DoneKept(e')
  {
    hide Edge, Scc, Done;
    forall v ensures Entered(e', v) <==> Entered(e, v) {
      EnteredSame(e, e', v);
    }
  }

  lemma EnteredSame(e: Env, e': Env, v: int)
    requires e'.g == e.g && e'.scanned == e.scanned
    ensures Entered(e', v) <==> Entered(e, v)
  {
    assert forall u, w :: EnteredBy(e', v, u, w) <==> EnteredBy(e, v, u, w);
  }

  lemma PushInv(e: Env, node: int)
    requires Inv(e) && MayEnter(e, node)
    ensures Inv(Push(e, node))
  {
    hide Edge, Reach, Scc, Down, Up, LowOk, DoneClosed, DoneWhole, DoneKept;
    PushBasic(e, node);
    PushGray(e, node);
    PushDown(e, node);
    PushUp(e, node);
    PushLow(e, node);
    DoneSame(e, Push(e, node));
  }

  // ----- scanning an edge -----

  ghost function Scan(e: Env, u: int, v: int): Env {
    e.(scanned := e.scanned + {(u, v)})
  }

  lemma ReachSame(e: Env, e': Env)
    requires Basic(e) && Up(e) && LowOk(e) && Down(e)
    requires e'.g == e.g && e'.stk == e.stk && e'.num == e.num && e'.gray == e.gray
    requires e.stk <= e'.low.Keys && forall v :: v in e.stk ==> e'.low[v] == e.low[v]
    ensures Up(e') && LowOk(e') && Down(e')
  {
    hide Reach, Up, LowOk;
    forall y | y in e'.stk ensures exists x :: Back(e', y, x) { var x := GetBack(e, y); assert Back(e', y, x); }
    forall y | y in e'.stk ensures exists w :: LowAt(e', y, w) { var w := GetLow(e, y); assert LowAt(e', y, w); }
    UpIntro(e');
    LowIntro(e');
  }

  /** Looking at an edge to a node that is not in a kept component changes nothing else. */
  lemma ScanInv(e: Env, u: int, v: int)
    requires Inv(e) && u in e.gray && Edge(e.g, u, v)
    requires !(Done(e, v) && e.low[v] > 0)
    ensures Inv(Scan(e, u, v))
  {
    hide Edge, Reach, Scc, Up, LowOk, Down, DoneKept, DoneClosed, DoneWhole;
    var e' := Scan(e, u, v);
    ReachSame(e, e');
    ScanKept(e, u, v);
    assert DoneClosed(e') && DoneWhole(e') by { ScanWhole(e, u, v); }
  }

  lemma ScanWhole(e: Env, u: int, v: int)
    requires e.low.Keys == e.g.live && DoneClosed(e) && DoneWhole(e)
    ensures DoneClosed(Scan(e, u, v)) && DoneWhole(Scan(e, u, v))
  {
    hide Edge, Scc;
    assert forall x :: Done(Scan(e, u, v), x) <==> Done(e, x);
  }

  lemma ScanKept(e: Env, u: int, v: int)
    requires Basic(e) && DoneWhole(e) && DoneKept(e) && Edge(e.g, u, v)
    requires !(Done(e, v) && e.low[v] > 0)
    ensures DoneKept(Scan(e, u, v))
  {
    hide Reach, Scc;
    var e' := Scan(e, u, v);
    forall x | Done(e, x) ensures e.low[x] > 0 <==> !Entered(e', x) {
      if Entered(e, x) {
        var a, b :| EnteredBy(e, x, a, b);
        assert EnteredBy(e', x, a, b);
      } else {
        assert e.low[x] > 0;
        forall a, b ensures !EnteredBy(e', x, a, b) {
          assert !EnteredBy(e, x, a, b);
          if (a, b) == (u, v) { assert !Scc(e.g, v, x); }
        }
      }
    }
  }

  // ----- an edge to a white node without successors -----

  ghost function Leaf(e: Env, v: int): Env {
    e.(low := e.low[v := -1], idx := e.idx + 1)
  }

  lemma LoneComponent(g: Graph, v: int, u: int)
    requires 0 <= v < |g.edges| && Out(g, v) == [] && Reach(g, v, u)
    ensures u == v
  {
    hide Reach;
    assert Closed(g, {v});
    ClosedReach(g, {v}, v, u);
  }

  lemma LeafBasic(e: Env, v: int)
    requires Basic(e) && White(e, v)
    ensures Basic(Leaf(e, v))
    ensures forall x :: White(Leaf(e, v), x) <==> White(e, x) && x != v
    ensures forall x :: Done(Leaf(e, v), x) <==> Done(e, x) || x == v
  {
    assert Leaf(e, v).low.Keys == e.low.Keys + {v};
  }

  lemma LeafGray(e: Env, v: int)
    requires Basic(e) && GrayOk(e) && White(e, v) && 0 <= v < |e.g.edges| && Out(e.g, v) == []
    ensures GrayOk(Leaf(e, v))
  {
    hide Reach;
    LeafBasic(e, v);
  }

  lemma LeafDone(e: Env, u: int, v: int)
    requires Basic(e) && GrayOk(e) && DoneClosed(e) && DoneWhole(e) && DoneKept(e)
    requires White(e, v) && 0 <= v < |e.g.edges| && Out(e.g, v) == [] && (u, v) in e.scanned
    ensures Basic(Leaf(e, v)) && DoneClosed(Leaf(e, v)) && DoneWhole(Leaf(e, v)) && DoneKept(Leaf(e, v))
  {
    hide Reach, White;
    var e' := Leaf(e, v);
    LeafBasic(e, v);
    ReachRefl(e.g, v);
    forall x | Scc(e.g, v, x) || Scc(e.g, x, v) ensures x == v { LoneComponent(e.g, v, x); }
    forall x ensures Entered(e', x) <==> Entered(e, x) { EnteredSame(e, e', x); }
    assert u != v;
    assert EnteredBy(e', v, u, v);
  }

  /** A white node without successors, entered by a scanned edge, is a finished component of its own. */
  lemma LeafInv(e: Env, u: int, v: int)
    requires Inv(e) && White(e, v) && 0 <= v < |e.g.edges| && Out(e.g, v) == [] && (u, v) in e.scanned
    ensures Inv(Leaf(e, v))
  {
    hide Edge, Reach, Scc, Up, LowOk, Down, DoneKept, DoneClosed, DoneWhole, GrayOk;
    LeafBasic(e, v);
    LeafGray(e, v);
    ReachSame(e, Leaf(e, v));
    LeafDone(e, u, v);
  }

  // ----- an edge to a node on the stack -----

  ghost function Lower(e: Env, u: int, l: int): Env {
    e.(low := e.low[u := l])
  }

  /** The low value drops to that of a stacked successor. */
  lemma LowerInv(e: Env, u: int, v: int)
    requires Inv(e) && u in e.gray && Edge(e.g, u, v) && v in e.stk && e.low[v] < e.low[u]
    ensures Inv(Lower(e, u, e.low[v]))
  {
    hide Edge, Reach, Scc, DoneKept, DoneClosed, DoneWhole, Up, LowOk, Down;
    var e' := Lower(e, u, e.low[v]);
    assert e'.low.Keys == e.low.Keys + {u};
    LowerReach(e, u, v);
    DoneSame(e, e');
  }

  lemma LowerReach(e: Env, u: int, v: int)
    requires Basic(e) && GrayOk(e) && Down(e) && Up(e) && LowOk(e)
    requires u in e.stk && Edge(e.g, u, v) && v in e.stk && e.low[v] < e.low[u]
    ensures var e' := Lower(e, u, e.low[v]); Down(e') && Up(e') && LowOk(e')
  {
    hide Reach, Edge, GrayOk, Up, LowOk;
    UpSame(e, Lower(e, u, e.low[v]));
    LowerLow(e, u, v);
  }

  lemma UpSame(e: Env, e': Env)
    requires Up(e) && e'.g == e.g && e'.stk == e.stk && e'.num == e.num && e'.gray == e.gray
    ensures Up(e')
  {
    hide Reach, Up;
    forall y | y in e'.stk ensures exists x :: Back(e', y, x) {
      var x := GetBack(e, y);
      assert Back(e', y, x);
    }
    UpIntro(e');
  }

  lemma LowerLow(e: Env, u: int, v: int)
    requires Basic(e) && LowOk(e) && u in e.stk && Edge(e.g, u, v) && v in e.stk
    ensures LowOk(Lower(e, u, e.low[v]))
  {
    hide Reach, Edge, Basic, LowOk;
    assert Keyed(e) by { BasicKeyed(e); }
    var e' := Lower(e, u, e.low[v]);
    forall y | y in e'.stk ensures exists w :: LowAt(e', y, w) {
      LowerLowAt(e, u, v, y);
    }
    LowIntro(e');
  }

  ghost predicate Keyed(e: Env) {
    e.stk <= e.low.Keys && e.stk <= e.num.Keys
  }

  lemma BasicKeyed(e: Env)
    requires Basic(e)
    ensures Keyed(e)
  {
  }

  lemma LowerLowAt(e: Env, u: int, v: int, y: int)
    requires Keyed(e) && LowOk(e) && u in e.stk && Edge(e.g, u, v) && v in e.stk && y in e.stk
    ensures exists w :: LowAt(Lower(e, u, e.low[v]), y, w)
  {
    hide Reach, Edge, LowOk;
    var e' := Lower(e, u, e.low[v]);
    if y == u {
      var w := GetLow(e, v);
      ReachEdge(e.g, u, v);
      ReachTrans(e.g, u, v, w);
      assert LowAt(e', u, w);
    } else {
      var w := GetLow(e, y);
      assert LowAt(e', y, w);
    }
  }

  // ----- an edge into a component kept from an earlier root -----

  ghost function Unkeep(e: Env, l: int): Env
    requires e.g.live <= e.low.Keys
  {
    e.(low := map x | x in e.g.live :: if e.low[x] == l then -1 else e.low[x])
  }

  lemma UnkeepBasic(e: Env, l: int)
    requires Basic(e) && 0 < l < e.first
    ensures Basic(Unkeep(e, l))
    ensures forall x :: White(Unkeep(e, l), x) <==> White(e, x)
    ensures forall x :: Done(Unkeep(e, l), x) <==> Done(e, x)
  {
  }

  lemma UnkeepDone(e: Env, u: int, v: int)
    requires Basic(e) && GrayOk(e) && DoneClosed(e) && DoneWhole(e) && DoneKept(e)
    requires u in e.gray && Edge(e.g, u, v) && Done(e, v) && e.low[v] > 0
    ensures var e' := Scan(Unkeep(e, e.low[v]), u, v); Basic(e') && DoneClosed(e') && DoneWhole(e') && DoneKept(e')
  {
    hide Reach, Scc, Edge, White;
    var l := e.low[v];
    var e1 := Unkeep(e, l);
    var e' := Scan(e1, u, v);
    UnkeepBasic(e, l);
    SccReflSym(e.g);
    assert forall x :: Done(e', x) <==> Done(e, x);
    forall x | Done(e, x) ensures e'.low[x] > 0 <==> !Entered(e', x) {
      if e.low[x] == l {
        assert Scc(e.g, v, x);
        assert u in e.stk && !Scc(e.g, u, x);
        assert EnteredBy(e', x, u, v);
      } else if Entered(e, x) {
        var a, b :| EnteredBy(e, x, a, b);
        assert EnteredBy(e', x, a, b);
      } else {
        forall a, b ensures !EnteredBy(e', x, a, b) {
          assert !EnteredBy(e, x, a, b);
          if (a, b) == (u, v) { assert !Scc(e.g, v, x); }
        }
      }
    }
  }

  lemma SccReflSym(g: Graph)
    ensures forall u, v :: Scc(g, u, v) <==> Scc(g, v, u)
  {
    hide Reach;
  }

  lemma UnkeepInv(e: Env, u: int, v: int)
    requires Inv(e) && u in e.gray && Edge(e.g, u, v) && Done(e, v) && e.low[v] > 0
    ensures Inv(Scan(Unkeep(e, e.low[v]), u, v))
  {
    hide Reach, Scc, Edge, Up, LowOk, Down, DoneKept, DoneClosed, DoneWhole;
    UnkeepBasic(e, e.low[v]);
    ReachSame(e, Scan(Unkeep(e, e.low[v]), u, v));
    UnkeepDone(e, u, v);
  }
}
