/** What one visit of a node may do to the search state, and how the work on its edges adds up to it. */
module SccVisit {
  import opened SccGraph
  import opened SccSteps
  import opened SccPop

  /** From e0 to e the search only went forward, and no edge of a node on the old stack was looked at. */
  ghost predicate Grown(e0: Env, e: Env) {
    && e.g == e0.g && e.idx >= e0.idx && e0.stk <= e.stk && e0.scanned <= e.scanned
    && (forall v :: v in e0.stk && v in e0.num ==> v in e.num && e.num[v] == e0.num[v])
    && (forall v :: v in e.stk && v !in e0.stk ==> v in e.num && e.num[v] >= e0.idx)
    && (forall v :: White(e, v) ==> White(e0, v))
    && (forall p :: p in e.scanned ==> p in e0.scanned || p.0 !in e0.stk)
  }

  ghost predicate LowsKept(e0: Env, e: Env) {
    forall v :: v in e0.stk && v in e0.low ==> v in e.low && e.low[v] == e0.low[v]
  }

  /** An edge from the new part of the stack to the old part is accounted for by the low value of `node` or of `c`. */
  ghost predicate PendLow(e0: Env, e: Env, node: int, c: int) {
    forall u, v :: u in e.stk && u !in e0.stk && v in e0.stk && (u, v) in e.scanned ==>
      v in e.num && node in e.low && (e.low[node] <= e.num[v] || (c in e.stk && c in e.low && e.low[c] <= e.num[v]))
  }

  /** Between two edges of `node`, which was entered in state e0. */
  ghost predicate Base(e0: Env, e: Env, node: int) {
    && Basic(e0) && GrayOk(e0) && MayEnter(e0, node)
    && Grown(e0, e) && LowsKept(e0, e) && e.first == e0.first && e.gray == e0.gray + {node}
    && node in e.stk && node in e.num && e.num[node] == e0.idx
  }

  /** After the visit of `node`: it is pruned with all that lay above it, or it stays, low enough for what lies above
      it. */
  ghost predicate Returned(e0: Env, e: Env, node: int) {
    && Grown(e0, e) && LowsKept(e0, e) && e.first == e0.first && e.gray == e0.gray && !White(e, node)
    && if node in e.stk then PendLow(e0, e, node, node) else e.stk == e0.stk && node in e.low && e.low[node] == -1
  }

  lemma PushBase(e0: Env, node: int)
    requires Basic(e0) && GrayOk(e0) && MayEnter(e0, node)
    ensures Base(e0, Push(e0, node), node) && PendLow(e0, Push(e0, node), node, node)
  {
    hide Edge;
    PushBasic(e0, node);
  }

  lemma NotOld(e0: Env, e: Env, node: int)
    requires Base(e0, e, node)
    ensures node !in e0.stk
  {
    hide Edge, Reach;
  }

  lemma ScanBase(e0: Env, e: Env, node: int, c: int)
    requires Base(e0, e, node) && Basic(e) && PendLow(e0, e, node, node)
    ensures Base(e0, Scan(e, node, c), node) && PendLow(e0, Scan(e, node, c), node, c)
    ensures c !in e.stk ==> PendLow(e0, Scan(e, node, c), node, node)
  {
    hide Edge, Reach, GrayOk, MayEnter;
    NotOld(e0, e, node);
  }

  /** The latest node being visited may send the search on to a white successor. */
  lemma ScanMayEnter(e0: Env, e: Env, node: int, c: int)
    requires Base(e0, e, node) && Basic(e) && White(e, c)
    ensures MayEnter(Scan(e, node, c), c) && e.stk != {}
  {
    hide Edge, Reach, PendLow;
    var e' := Scan(e, node, c);
    assert White(e', c);
    assert Parent(e', node, c);
  }

  lemma LeafBase(e0: Env, e: Env, node: int, c: int)
    requires Base(e0, e, node) && Basic(e) && PendLow(e0, e, node, node) && White(e, c)
    ensures Base(e0, Leaf(e, c), node) && PendLow(e0, Leaf(e, c), node, node)
  {
    hide Edge, Reach, GrayOk, MayEnter;
    LeafBasic(e, c);
  }

  lemma UnkeepBase(e0: Env, e: Env, node: int, l: int)
    requires Base(e0, e, node) && Basic(e) && PendLow(e0, e, node, node) && 0 < l < e.first
    ensures Base(e0, Unkeep(e, l), node) && PendLow(e0, Unkeep(e, l), node, node)
  {
    hide Edge, Reach, GrayOk, MayEnter;
    UnkeepBasic(e, l);
  }

  lemma GrownTrans(e0: Env, e: Env, e': Env)
    requires Grown(e0, e) && Grown(e, e') && e0.stk <= e0.num.Keys
    ensures Grown(e0, e')
  {
    hide White;
  }

  /** A visited child leaves the state of the parent's loop intact, but for the parent's own low value. */
  lemma ChildBase(e0: Env, e: Env, e': Env, node: int, c: int)
    requires Base(e0, e, node) && Basic(e) && PendLow(e0, e, node, node) && Returned(e, e', c)
    ensures Base(e0, e', node) && PendLow(e0, e', node, c)
  {
    hide Edge, Reach, GrayOk, MayEnter, White;
    GrownTrans(e0, e, e');
    forall u, v | u in e'.stk && u !in e0.stk && v in e0.stk && (u, v) in e'.scanned
      ensures v in e'.num && node in e'.low
      ensures e'.low[node] <= e'.num[v] || (c in e'.stk && c in e'.low && e'.low[c] <= e'.num[v])
    {
      if u in e.stk { assert (u, v) in e.scanned; }
    }
  }

  lemma SettleLower(e0: Env, e: Env, node: int, c: int)
    requires Base(e0, e, node) && Basic(e) && PendLow(e0, e, node, c) && c in e.stk && e.low[c] < e.low[node]
    ensures Base(e0, Lower(e, node, e.low[c]), node) && PendLow(e0, Lower(e, node, e.low[c]), node, node)
  {
    hide Edge, Reach, GrayOk, MayEnter;
    NotOld(e0, e, node);
    assert forall v :: White(Lower(e, node, e.low[c]), v) <==> White(e, v);
  }

  lemma SettleKeep(e0: Env, e: Env, node: int, c: int)
    requires Base(e0, e, node) && Basic(e) && PendLow(e0, e, node, c) && (c in e.stk ==> e.low[c] >= e.low[node])
    ensures PendLow(e0, e, node, node)
  {
    hide Edge, Reach, GrayOk, MayEnter, Grown;
  }

  // ----- the end of the visit -----

  /** What lies above `node` on the stack is what was pushed since it was entered. */
  lemma AboveNew(e0: Env, e: Env, node: int)
    requires Base(e0, e, node) && Basic(e)
    ensures forall v :: v in Above(e, node) <==> v in e.stk && v !in e0.stk
  {
    hide Edge, Reach, GrayOk, MayEnter, White;
  }

  lemma EndCross(e0: Env, e: Env, node: int)
    requires Base(e0, e, node) && Basic(e) && PendLow(e0, e, node, node)
    ensures CrossLow(e, node, Above(e, node))
  {
    hide Edge, Reach, GrayOk, MayEnter, White, Above, Grown;
    AboveNew(e0, e, node);
  }

  lemma EndFinished(e0: Env, e: Env, node: int)
    requires Base(e0, e, node) && Basic(e) && forall v :: Edge(e.g, node, v) ==> (node, v) in e.scanned && !White(e, v)
    ensures Finished(e, node)
  {
    hide Edge, Reach, MayEnter, White;
  }

  lemma EndPopInner(e0: Env, e: Env, node: int)
    requires Base(e0, e, node) && Basic(e) && e0.stk != {}
    ensures PopOk(e, node, -1, e.first) && e0.idx > e.first
  {
    hide Edge, Reach, White, Above;
    AboveNew(e0, e, node);
    var p :| Parent(e0, p, node);
    assert p in e.stk && p !in Above(e, node) && (p, node) in e.scanned;
  }

  lemma EndPopRoot(e0: Env, e: Env, node: int)
    requires Base(e0, e, node) && Basic(e) && e0.stk == {}
    ensures PopOk(e, node, e.first, e.idx) && e0.idx == e.first
  {
    hide Edge, Reach, White, Above;
    AboveNew(e0, e, node);
    AboveStack(e, node);
    forall v | v in e.stk ensures v in Above(e, node) { assert v !in e0.stk; }
    assert e.stk == Above(e, node);
  }

  lemma AboveStack(e: Env, node: int)
    ensures Above(e, node) <= e.stk
  {
  }

  lemma PopReturned(e0: Env, e: Env, node: int)
    requires Base(e0, e, node) && Basic(e) && PopOk(e, node, -1, e.first)
    ensures Returned(e0, Pop(e, node, -1, e.first), node)
  {
    hide Edge, Reach, PopOk, Above;
    var e' := Pop(e, node, -1, e.first);
    AboveNew(e0, e, node);
    PopBasic(e, node, -1, e.first);
    NotOld(e0, e, node);
    forall v ensures v in e'.stk <==> v in e0.stk { assert v in Above(e, node) <==> v in e.stk && v !in e0.stk; }
    assert node !in e0.gray;
    assert e'.gray == e0.gray;
  }

  lemma LeaveReturned(e0: Env, e: Env, node: int)
    requires Base(e0, e, node) && Basic(e) && PendLow(e0, e, node, node)
    ensures Returned(e0, Leave(e, node), node)
  {
    hide Edge, Reach;
    var e' := Leave(e, node);
    NotOld(e0, e, node);
    assert e'.gray == e0.gray;
    assert forall v :: White(e', v) <==> White(e, v);
  }

  /** A root is always finished as a whole: its low value can not drop below the bottom of the stack. */
  lemma RootCompletes(e0: Env, e: Env, node: int)
    requires Base(e0, e, node) && Basic(e) && e0.stk == {}
    ensures e.low[node] == e.num[node]
  {
    hide Edge, Reach, White;
  }
}
