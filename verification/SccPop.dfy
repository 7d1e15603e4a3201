/** Leaving a node: its component is complete, or it stays on the stack. */
module SccPop {
  import opened SccGraph
  import opened SccSteps

  /** The stack from `node` up. */
  ghost function Above(e: Env, node: int): set<int> {
    set v | v in e.stk && node in e.num && v in e.num && e.num[v] >= e.num[node]
  }

  /** All edges of `node` have been looked at, and it is the latest node being visited. */
  ghost predicate Finished(e: Env, node: int) {
    && node in e.gray && node in e.num && node in e.low
    && (forall v :: Edge(e.g, node, v) ==> (node, v) in e.scanned && !White(e, v))
    && (forall x :: x in e.gray && x != node ==> x in e.num && e.num[x] < e.num[node])
  }

  /** The low value of `node` accounts for every scanned edge from the nodes in `up` down to the rest of the stack. */
  ghost predicate CrossLow(e: Env, node: int, up: set<int>) {
    node in e.low && forall u, v ::
      u in up && v in e.stk && v !in up && (u, v) in e.scanned ==> v in e.num && e.low[node] <= e.num[v]
  }

  /** With low == num, no edge leaves the upper part for the rest of the stack: it is closed but for finished nodes. */
  lemma AboveClosed(e: Env, node: int)
    requires Basic(e) && GrayOk(e) && DoneClosed(e) && Finished(e, node)
    requires CrossLow(e, node, Above(e, node)) && e.low[node] == e.num[node]
    ensures Closed(e.g, Above(e, node) + Dones(e))
  {
    var up := Above(e, node);
    forall u, v | u in up + Dones(e) && Edge(e.g, u, v) ensures v in up + Dones(e) {
      if u in Dones(e) {
        assert Done(e, v);
      } else {
        assert !White(e, u);
        assert (u, v) in e.scanned && !White(e, v);
        if v in e.stk && v !in up { assert e.low[node] <= e.num[v]; }
        if v !in e.stk { assert Done(e, v); }
      }
    }
  }

  ghost function Dones(e: Env): set<int> {
    set v | v in e.g.live && Done(e, v)
  }

  lemma DonesClosed(e: Env)
    requires DoneClosed(e)
    ensures Closed(e.g, Dones(e))
  {
    forall u, v | u in Dones(e) && Edge(e.g, u, v) ensures v in Dones(e) { assert Done(e, v); }
  }

  /** The upper part leads back to `node`: any older node being visited lies outside a closed set. */
  lemma AboveLeadsBack(e: Env, node: int, y: int)
    requires Basic(e) && GrayOk(e) && DoneClosed(e) && Up(e) && Finished(e, node)
    requires CrossLow(e, node, Above(e, node)) && e.low[node] == e.num[node]
    requires y in Above(e, node)
    ensures Reach(e.g, y, node)
  {
    hide Reach, Edge, Up;
    AboveClosed(e, node);
    var x := GetBack(e, y);
    ClosedReach(e.g, Above(e, node) + Dones(e), y, x);
    assert x in e.stk;
    assert x == node;
  }

  /** The upper part of the stack is exactly one component. */
  lemma AboveIsComponent(e: Env, node: int)
    requires Basic(e) && GrayOk(e) && DoneClosed(e) && Up(e) && Down(e) && Finished(e, node)
    requires CrossLow(e, node, Above(e, node)) && e.low[node] == e.num[node]
    ensures node in Above(e, node)
    ensures forall y, z :: y in Above(e, node) && Scc(e.g, z, y) && z in e.g.live ==> z in Above(e, node)
    ensures forall y, z :: y in Above(e, node) && z in Above(e, node) ==> Scc(e.g, y, z)
  {
    hide Reach, Edge, Up, GrayOk, DoneClosed;
    var up := Above(e, node);
    assert node in up by { assert e.gray <= e.stk by { GrayOnStack(e); } }
    forall y | y in up ensures Reach(e.g, node, y) && Reach(e.g, y, node) {
      AboveLeadsBack(e, node, y);
    }
    forall y, z | y in up && z in up ensures Scc(e.g, y, z) {
      ReachTrans(e.g, y, node, z);
      ReachTrans(e.g, z, node, y);
    }
    AboveClosed(e, node);
    DonesClosed(e);
    forall y, z | y in up && Scc(e.g, z, y) && z in e.g.live ensures z in up {
      ClosedReach(e.g, up + Dones(e), y, z);
      if z in Dones(e) {
        ClosedReach(e.g, Dones(e), z, y);
      }
    }
  }

  lemma GrayOnStack(e: Env)
    requires GrayOk(e)
    ensures e.gray <= e.stk
  {
  }

  // ----- taking the component off the stack -----

  ghost function Pop(e: Env, node: int, m: int, first: int): Env
    requires e.g.live <= e.low.Keys
  {
    e.(low := map v | v in e.g.live :: if v in Above(e, node) then m else e.low[v],
       stk := e.stk - Above(e, node), gray := e.gray - {node}, first := first)
  }

  /** The finishing value: -1 below an edge from the stack, the root's own number for the root of the round. */
  ghost predicate PopOk(e: Env, node: int, m: int, first: int) {
    || (m == -1 && first == e.first && exists p :: p in e.stk && p !in Above(e, node) && (p, node) in e.scanned)
    || (m == e.first && first == e.idx && e.stk == Above(e, node))
  }

  lemma PopBasic(e: Env, node: int, m: int, first: int)
    requires Basic(e) && PopOk(e, node, m, first) && node in e.stk
    ensures Basic(Pop(e, node, m, first))
    ensures forall v :: White(Pop(e, node, m, first), v) <==> White(e, v)
    ensures forall v :: Done(Pop(e, node, m, first), v) <==> Done(e, v) || v in Above(e, node)
  {
    assert Above(e, node) <= e.stk;
  }

  lemma PopGray(e: Env, node: int, m: int, first: int)
    requires Basic(e) && GrayOk(e) && Finished(e, node) && PopOk(e, node, m, first)
    ensures GrayOk(Pop(e, node, m, first))
  {
    hide Edge, PopOk, White, Done;
    var e' := Pop(e, node, m, first);
    PopBasic(e, node, m, first);
    forall x | x in e'.gray ensures x in e'.stk {
      assert x in e.gray && e.num[x] < e.num[node];
    }
    forall u, v | Edge(e.g, u, v) && !White(e', u) && u !in e'.gray ensures (u, v) in e.scanned && !White(e', v) {
      assert !White(e, u);
    }
  }

  /** With the upper part gone, older nodes still lead back to older ones. */
  lemma PopUp(e: Env, node: int, m: int, first: int)
    requires Basic(e) && Up(e) && node in e.num
    ensures Up(Pop(e, node, m, first))
  {
    hide Reach, Up;
    var e' := Pop(e, node, m, first);
    forall y | y in e'.stk ensures exists x :: Back(e', y, x) {
      var x := GetBack(e, y);
      assert e.num[y] < e.num[node];
      assert Back(e', y, x);
    }
    UpIntro(e');
  }

  lemma PopLow(e: Env, node: int, m: int, first: int)
    requires Basic(e) && LowOk(e) && node in e.num
    ensures LowOk(Pop(e, node, m, first))
  {
    hide Reach, LowOk;
    forall y | y in Pop(e, node, m, first).stk ensures exists w :: LowAt(Pop(e, node, m, first), y, w) {
      PopLowAt(e, node, m, first, y);
    }
    LowIntro(Pop(e, node, m, first));
  }

  lemma PopLowAt(e: Env, node: int, m: int, first: int, y: int)
    requires Basic(e) && LowOk(e) && node in e.num && y in Pop(e, node, m, first).stk
    ensures exists w :: LowAt(Pop(e, node, m, first), y, w)
  {
    hide Reach, LowOk;
    var e' := Pop(e, node, m, first);
    var w := GetLow(e, y);
    assert e'.low[y] == e.low[y] <= e.num[y] < e.num[node];
    assert LowAt(e', y, w);
  }

  lemma PopDown(e: Env, node: int, m: int, first: int)
    requires Basic(e) && Down(e)
    ensures Down(Pop(e, node, m, first))
  {
    hide Reach;
  }

  lemma PopClosed(e: Env, node: int, m: int, first: int)
    requires Basic(e) && GrayOk(e) && DoneClosed(e) && Finished(e, node) && PopOk(e, node, m, first)
    requires CrossLow(e, node, Above(e, node)) && e.low[node] == e.num[node]
    ensures DoneClosed(Pop(e, node, m, first))
  {
    hide Edge, PopOk;
    var e' := Pop(e, node, m, first);
    PopBasic(e, node, m, first);
    AboveClosed(e, node);
    forall u, v | Done(e', u) && Edge(e.g, u, v) ensures Done(e', v) {
      assert u in Above(e, node) + Dones(e);
      assert v in Above(e, node) + Dones(e);
    }
  }

  lemma PopWhole(e: Env, node: int, m: int, first: int)
    requires Basic(e) && GrayOk(e) && DoneClosed(e) && DoneWhole(e) && Up(e) && Down(e) && Finished(e, node)
    requires PopOk(e, node, m, first)
    requires CrossLow(e, node, Above(e, node)) && e.low[node] == e.num[node]
    ensures DoneWhole(Pop(e, node, m, first))
  {
    hide Edge, Scc, Up, Down, GrayOk, DoneClosed, CrossLow, Finished;
    var e', up := Pop(e, node, m, first), Above(e, node);
    assert node in e.stk by { AboveIsComponent(e, node); }
    PopBasic(e, node, m, first);
    AboveIsComponent(e, node);
    assert forall u, v :: Scc(e.g, u, v) <==> Scc(e.g, v, u) by { SccReflSym(e.g); }
  }

  lemma PopKept(e: Env, node: int, m: int, first: int)
    requires Basic(e) && GrayOk(e) && DoneClosed(e) && DoneKept(e) && Up(e) && Down(e) && Finished(e, node)
    requires PopOk(e, node, m, first)
    requires CrossLow(e, node, Above(e, node)) && e.low[node] == e.num[node]
    ensures DoneKept(Pop(e, node, m, first))
  {
    hide Edge, Scc, Up, Down, CrossLow, Finished, PopOk;
    var e', up := Pop(e, node, m, first), Above(e, node);
    AboveIsComponent(e, node);
    PopBasic(e, node, m, first);
    forall v ensures Entered(e', v) <==> Entered(e, v) { EnteredSame(e, e', v); }
    forall v | v in up ensures m > 0 <==> !Entered(e', v) {
      PopEntry(e, node, m, first, v);
    }
  }

  lemma PopEntry(e: Env, node: int, m: int, first: int, v: int)
    requires Basic(e) && GrayOk(e) && DoneClosed(e) && Up(e) && Down(e) && Finished(e, node) && PopOk(e, node, m, first)
    requires CrossLow(e, node, Above(e, node)) && e.low[node] == e.num[node]
    requires v in Above(e, node)
    ensures m > 0 <==> !Entered(e, v)
  {
    hide Scc, Up, Down, CrossLow, Finished;
    var up := Above(e, node);
    AboveIsComponent(e, node);
    if m == -1 {
      var p :| p in e.stk && p !in up && (p, node) in e.scanned;
      assert Edge(e.g, p, node);
      assert EnteredBy(e, v, p, node);
    } else {
      forall u, w | (u, w) in e.scanned && Scc(e.g, w, v) ensures Scc(e.g, u, v) {
        assert Edge(e.g, u, w) && !White(e, u);
        EdgeLive(e.g, u, w);
        assert w in up;
        assert Done(e, u) ==> Done(e, w);
        assert u in e.stk;
      }
    }
  }

  lemma PopInv(e: Env, node: int, m: int, first: int)
    requires Inv(e) && Finished(e, node) && PopOk(e, node, m, first)
    requires CrossLow(e, node, Above(e, node)) && e.low[node] == e.num[node]
    ensures Inv(Pop(e, node, m, first))
    ensures node in Above(e, node)
  {
    hide Edge, Reach, Scc, Up, Down, LowOk, DoneClosed, DoneWhole, DoneKept, CrossLow, PopOk;
    AboveIsComponent(e, node);
    PopBasic(e, node, m, first);
    PopGray(e, node, m, first);
    PopUp(e, node, m, first);
    PopLow(e, node, m, first);
    PopDown(e, node, m, first);
    PopClosed(e, node, m, first);
    PopWhole(e, node, m, first);
    PopKept(e, node, m, first);
  }

  // ----- leaving a node that stays on the stack -----

  ghost function Leave(e: Env, node: int): Env {
    e.(gray := e.gray - {node})
  }

  /** Whatever led back to `node` leads on to an older node being visited. */
  lemma LeaveUp(e: Env, node: int)
    requires Basic(e) && GrayOk(e) && Up(e) && LowOk(e) && Finished(e, node) && e.low[node] < e.num[node]
    ensures Up(Leave(e, node))
  {
    hide Reach, Up, LowOk, Basic, GrayOk, Finished;
    var x' := LeaveBack(e, node);
    forall y | y in e.stk ensures exists x :: Back(Leave(e, node), y, x) {
      LeaveUpAt(e, node, x', y);
    }
    UpIntro(Leave(e, node));
  }

  /** `node` itself leads back to an older node being visited. */
  lemma LeaveBack(e: Env, node: int) returns (x': int)
    requires Basic(e) && GrayOk(e) && Up(e) && LowOk(e) && Finished(e, node) && e.low[node] < e.num[node]
    ensures Back(e, node, x') && x' != node
  {
    hide Reach, Edge, Up, LowOk;
    var w := GetLow(e, node);
    x' := GetBack(e, w);
    ReachTrans(e.g, node, w, x');
  }

  lemma LeaveUpAt(e: Env, node: int, x': int, y: int)
    requires Up(e) && y in e.stk && Back(e, node, x') && x' != node
    ensures exists x :: Back(Leave(e, node), y, x)
  {
    hide Reach, Up;
    var x := GetBack(e, y);
    if x == node {
      ReachTrans(e.g, y, node, x');
      assert Back(Leave(e, node), y, x');
    } else {
      assert Back(Leave(e, node), y, x);
    }
  }

  lemma LeaveInv(e: Env, node: int)
    requires Inv(e) && Finished(e, node) && e.low[node] < e.num[node]
    ensures Inv(Leave(e, node))
  {
    hide Reach, Edge, Scc, Up, LowOk, Down, DoneClosed, DoneWhole, DoneKept;
    var e' := Leave(e, node);
    LeaveUp(e, node);
    LeaveRest(e, node);
    DoneSame(e, e');
  }

  lemma LeaveRest(e: Env, node: int)
    requires Basic(e) && GrayOk(e) && Down(e) && LowOk(e) && Finished(e, node)
    ensures GrayOk(Leave(e, node)) && Down(Leave(e, node)) && LowOk(Leave(e, node))
  {
    hide Reach, Edge, LowOk;
    LowSame(e, Leave(e, node));
    assert forall v :: White(Leave(e, node), v) <==> White(e, v);
  }

  lemma LowSame(e: Env, e': Env)
    requires LowOk(e) && e'.g == e.g && e'.stk == e.stk && e'.num == e.num && e'.low == e.low
    ensures LowOk(e')
  {
    hide Reach, LowOk;
    forall y | y in e'.stk ensures exists w :: LowAt(e', y, w) {
      var w := GetLow(e, y);
      assert LowAt(e', y, w);
    }
    LowIntro(e');
  }

  // ----- roots -----

  /** A root without successors is kept at once, in a block of its own. */
  ghost function RootLeaf(e: Env, v: int): Env {
    e.(low := e.low[v := e.idx], idx := e.idx + 1, first := e.idx + 1)
  }

  lemma RootLeafBasic(e: Env, v: int)
    requires Basic(e) && e.stk == {} && e.first == e.idx && White(e, v)
    ensures Basic(RootLeaf(e, v))
    ensures forall x :: White(RootLeaf(e, v), x) <==> White(e, x) && x != v
    ensures forall x :: Done(RootLeaf(e, v), x) <==> Done(e, x) || x == v
  {
    assert RootLeaf(e, v).low.Keys == e.low.Keys + {v};
  }

  lemma RootLeafInv(e: Env, v: int)
    requires Inv(e) && e.stk == {} && e.first == e.idx
    requires White(e, v) && 0 <= v < |e.g.edges| && Out(e.g, v) == []
    ensures Inv(RootLeaf(e, v))
  {
    hide Reach, Up, LowOk, Scc, DoneClosed, DoneWhole, DoneKept;
    var e' := RootLeaf(e, v);
    RootLeafBasic(e, v);
    UpIntro(e');
    LowIntro(e');
    forall a, b | (a, b) in e.scanned ensures b != v { RootNotEntered(e, v, a, b); }
    RootLeafDone(e, v);
  }

  lemma RootLeafDone(e: Env, v: int)
    requires Basic(e) && DoneClosed(e) && DoneWhole(e) && DoneKept(e) && e.stk == {} && e.first == e.idx
    requires White(e, v) && 0 <= v < |e.g.edges| && Out(e.g, v) == []
    requires forall a, b :: (a, b) in e.scanned ==> b != v
    ensures Basic(RootLeaf(e, v)) && DoneClosed(RootLeaf(e, v)) && DoneWhole(RootLeaf(e, v)) && DoneKept(RootLeaf(e, v))
  {
    hide Reach, White;
    var e' := RootLeaf(e, v);
    RootLeafBasic(e, v);
    ReachRefl(e.g, v);
    forall x | Scc(e.g, v, x) || Scc(e.g, x, v) ensures x == v { LoneComponent(e.g, v, x); }
    forall x ensures Entered(e', x) <==> Entered(e, x) { EnteredSame(e, e', x); }
    assert !Entered(e, v);
  }

  lemma RootNotEntered(e: Env, v: int, a: int, b: int)
    requires Basic(e) && GrayOk(e) && DoneClosed(e) && e.stk == {} && White(e, v) && (a, b) in e.scanned
    ensures b != v
  {
    hide Reach;
    assert Edge(e.g, a, b) && Done(e, a) && Done(e, b);
  }

  // ----- the end -----

  /** v's component has an edge entering it from a node outside it. */
  ghost predicate HasEntry(g: Graph, v: int) {
    exists u, w :: Edge(g, u, w) && Scc(g, w, v) && !Scc(g, u, v)
  }

  /** When every node is finished, the kept ones are exactly those whose component no edge enters. */
  lemma FinalMeaning(e: Env)
    requires Inv(e) && e.stk == {} && forall v :: v in e.g.live ==> !White(e, v)
    ensures forall v :: v in e.g.live ==> (e.low[v] > 0 <==> !HasEntry(e.g, v))
  {
    hide Reach, Scc, Edge, Up, Down, LowOk, DoneClosed, DoneWhole;
    forall v | v in e.g.live ensures e.low[v] > 0 <==> !HasEntry(e.g, v) {
      assert Done(e, v);
      if HasEntry(e.g, v) {
        var u, w :| Edge(e.g, u, w) && Scc(e.g, w, v) && !Scc(e.g, u, v);
        assert u in e.g.live by { EdgeLive(e.g, u, w); }
        assert (u, w) in e.scanned;
        assert EnteredBy(e, v, u, w);
      }
      if Entered(e, v) {
        var u, w :| EnteredBy(e, v, u, w);
        assert Edge(e.g, u, w);
      }
    }
  }

  lemma EdgeLive(g: Graph, u: int, v: int)
    requires Edge(g, u, v)
    ensures u in g.live && v in g.live
  {
  }
}
