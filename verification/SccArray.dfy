/** How the search's state is packed into one array: low values in slots 1..count, the stack above them. */
module SccArray {
  import opened SccGraph
  import opened SccSteps
  import opened SccPop

  /** Slots l..l+s hold exactly the nodes of the kept component with value l, and the next slot holds none of them. */
  ghost predicate Block(e: Env, a: seq<int>, l: int, s: int) {
    && e.g.count < l < l + s <= e.first < |a|
    && (forall k :: l <= k < l + s ==> a[k] in e.low && e.low[a[k]] == l)
    && (forall j, k :: l <= j < k < l + s ==> a[j] != a[k])
    && (forall v :: v in e.low && e.low[v] == l ==> v in a[l..l + s])
    && (a[l + s] == 0 || (a[l + s] in e.low && e.low[a[l + s]] != l))
  }

  ghost predicate Blocks(e: Env, a: seq<int>, size: map<int, int>) {
    forall v :: Done(e, v) && e.low[v] > 0 ==> e.low[v] in size && Block(e, a, e.low[v], size[e.low[v]])
  }

  /** Slots 1..count mirror the low values; ignored nodes hold -1. */
  ghost predicate Lows(e: Env, a: seq<int>) {
    && |a| == 2 * (e.g.count + 1) && a[0] == 0
    && forall v :: 1 <= v <= e.g.count ==> a[v] == if v in e.g.live && v in e.low then e.low[v] else -1
  }

  ghost predicate Listed(stk: set<int>, a: seq<int>, lo: int, hi: int) {
    0 <= lo <= hi <= |a| && forall v :: v in stk <==> v in a[lo..hi]
  }

  ghost predicate Ordered(num: map<int, int>, a: seq<int>, lo: int, hi: int) {
    0 <= lo <= hi <= |a| && forall j, k {:trigger a[j], a[k]} ::
      lo <= j < k < hi ==> a[j] in num && a[k] in num && num[a[j]] < num[a[k]]
  }

  ghost predicate Left(e: Env, a: seq<int>, ns: int) {
    forall k :: 0 <= ns <= k < |a| ==> a[k] == 0 || Done(e, a[k])
  }

  /** Slots first..ns list the stack in visiting order; what lies above is left over from finished components. */
  ghost predicate Stack(e: Env, a: seq<int>, ns: int) {
    e.g.count < e.first <= ns <= |a| && Listed(e.stk, a, e.first, ns) && Ordered(e.num, a, e.first, ns)
      && Left(e, a, ns)
  }

  ghost function Whites(e: Env): set<int> {
    set v | v in e.g.live && White(e, v)
  }

  /** There is room for every node still to be visited. */
  ghost predicate Room(e: Env, ns: int) {
    ns <= e.idx && e.idx + |Whites(e)| <= 2 * e.g.count + 1
  }

  ghost predicate Rep(e: Env, a: seq<int>, ns: int, size: map<int, int>) {
    && (forall v :: v in e.g.live ==> 1 <= v <= e.g.count)
    && Lows(e, a) && Stack(e, a, ns) && Room(e, ns) && Blocks(e, a, size)
  }

  /** A kept block survives when nothing below `first` changes and no node enters or leaves its value. */
  lemma BlockStays(e: Env, a: seq<int>, e': Env, a': seq<int>, l: int, s: int)
    requires Block(e, a, l, s) && |a'| == |a| && e'.g == e.g && e.first <= e'.first < |a|
    requires forall k :: e.g.count < k < e.first ==> a'[k] == a[k]
    requires a'[e.first] == a[e.first] || (a'[e.first] in e'.low && e'.low[a'[e.first]] != l)
    requires e'.low.Keys == e.low.Keys && forall v :: v in e.low ==> (e'.low[v] == l <==> e.low[v] == l)
    ensures Block(e', a', l, s)
  {
    assert a'[l..l + s] == a[l..l + s];
  }

  /** Kept blocks survive a step that keeps the slots and values below `first`, apart from the
      value `drop`, which vanishes. */
  lemma BlocksStay(e: Env, a: seq<int>, e': Env, a': seq<int>, size: map<int, int>, drop: int)
    requires Basic(e) && Basic(e') && Blocks(e, a, size) && |a'| == |a| && e'.g == e.g && e.first <= e'.first < |a|
    requires forall k :: e.g.count < k < e.first ==> a'[k] == a[k]
    requires a'[e.first] == a[e.first] || (a'[e.first] in e'.low && e'.low[a'[e.first]] >= e.first)
    requires forall v :: v in e.g.live && 0 < e'.low[v] < e.first ==> e.low[v] == e'.low[v] != drop
    requires forall v :: v in e.g.live && 0 < e.low[v] < e.first && e.low[v] != drop ==> e'.low[v] == e.low[v]
    requires forall v :: Done(e', v) && e'.low[v] > 0 ==> e'.low[v] < e.first
    ensures Blocks(e', a', size)
  {
    hide Block;
    forall x | Done(e', x) && e'.low[x] > 0 ensures e'.low[x] in size && Block(e', a', e'.low[x], size[e'.low[x]]) {
      assert Done(e, x);
      BlockLow(e, a, e.low[x], size[e.low[x]]);
      BlockStays(e, a, e', a', e.low[x], size[e.low[x]]);
    }
  }

  lemma BlockLow(e: Env, a: seq<int>, l: int, s: int)
    requires Block(e, a, l, s)
    ensures e.g.count < l < e.first
  {
  }

  lemma WhitesLess(e: Env, e': Env, v: int)
    requires e'.g == e.g && White(e, v) && forall x :: White(e', x) <==> White(e, x) && x != v
    ensures Whites(e') == Whites(e) - {v} && |Whites(e')| == |Whites(e)| - 1 && |Whites(e)| > 0
  {
    assert v in Whites(e);
  }

  lemma WhitesSame(e: Env, e': Env)
    requires e'.g == e.g && forall x :: White(e', x) <==> White(e, x)
    ensures Whites(e') == Whites(e)
  {
  }

  lemma Bounds(e: Env, a: seq<int>, ns: int)
    requires Lows(e, a) && Stack(e, a, ns)
    ensures e.g.count < e.first <= ns <= |a| == 2 * (e.g.count + 1)
  {
  }

  lemma WhitesSome(e: Env, v: int)
    requires White(e, v)
    ensures |Whites(e)| > 0
  {
    assert v in Whites(e);
  }

  /** The slot past the stack, and any above, hold no kept node and no node on the stack. */
  lemma LeftOver(e: Env, a: seq<int>, ns: int, k: int)
    requires Basic(e) && Stack(e, a, ns) && ns <= k < |a|
    ensures a[k] == 0 || (a[k] in e.low && e.low[a[k]] < e.first && Done(e, a[k]))
  {
  }

  lemma InSlice(a: seq<int>, lo: int, hi: int, j: int)
    requires 0 <= lo <= j < hi <= |a|
    ensures a[lo..hi][j - lo] == a[j] && a[j] in a[lo..hi]
  {
  }

  lemma OrderedSame(num: map<int, int>, a: seq<int>, num': map<int, int>, a': seq<int>, lo: int, hi: int, hi': int)
    requires Ordered(num, a, lo, hi) && |a'| == |a| && lo <= hi' <= hi
    requires a'[lo..hi'] == a[lo..hi']
    requires forall v :: v in a[lo..hi'] && v in num ==> v in num' && num'[v] == num[v]
    ensures Ordered(num', a', lo, hi')
  {
    if !Ordered(num', a', lo, hi') {
      var j, k :| lo <= j < k < hi' && !(a'[j] in num' && a'[k] in num' && num'[a'[j]] < num'[a'[k]]);
      OrderedAt(num, a, num', a', lo, hi, hi', j, k);
    }
  }

  lemma OrderedAt(num: map<int, int>, a: seq<int>, num': map<int, int>, a': seq<int>, lo: int, hi: int, hi': int,
      j: int, k: int)
    requires Ordered(num, a, lo, hi) && |a'| == |a| && lo <= hi' <= hi && lo <= j < k < hi'
    requires a'[lo..hi'] == a[lo..hi']
    requires forall v :: v in a[lo..hi'] && v in num ==> v in num' && num'[v] == num[v]
    ensures a'[j] in num' && a'[k] in num' && num'[a'[j]] < num'[a'[k]]
  {
    InSlice(a, lo, hi', j);
    InSlice(a', lo, hi', j);
    InSlice(a, lo, hi', k);
    InSlice(a', lo, hi', k);
  }

  /** The stack is unchanged when the slots above count are and finished nodes stay finished. */
  lemma StackSame(e: Env, a: seq<int>, ns: int, e': Env, a': seq<int>)
    requires Stack(e, a, ns) && |a'| == |a| && e'.g == e.g && e'.first == e.first && e'.stk == e.stk && e'.num == e.num
    requires forall k :: e.g.count < k < |a| ==> a'[k] == a[k]
    requires forall v :: Done(e, v) ==> Done(e', v)
    ensures Stack(e', a', ns)
  {
    hide Done, Ordered;
    assert a'[e.first..ns] == a[e.first..ns];
    OrderedSame(e.num, a, e.num, a', e.first, ns, ns);
  }

  // ----- entering a node -----

  lemma RepPush(e: Env, a: seq<int>, ns: int, size: map<int, int>, node: int)
    requires Basic(e) && Rep(e, a, ns, size) && White(e, node)
    ensures 1 <= node <= e.g.count < ns < |a| && e.idx < |a| - 1
    ensures Rep(Push(e, node), a[node := e.idx][ns := node], ns + 1, size)
  {
    hide Blocks, Stack, Basic, White, Whites;
    Bounds(e, a, ns);
    WhitesSome(e, node);
    assert node in e.g.live by { WhiteLive(e, node); }
    PushBasic(e, node);
    WhitesLess(e, Push(e, node), node);
    StackPush(e, a, ns, node);
    BlocksPush(e, a, ns, size, node);
    LowsSet(e, a, Push(e, node), node, e.idx, ns, node);
  }

  lemma WhiteLive(e: Env, v: int)
    requires White(e, v)
    ensures v in e.g.live
  {
  }

  /** Setting slot v to the new low value, and one slot above count to anything. */
  lemma LowsSet(e: Env, a: seq<int>, e': Env, v: int, l: int, k: int, x: int)
    requires Lows(e, a) && v in e.g.live && 1 <= v <= e.g.count < k < |a| && e'.g == e.g && e'.low == e.low[v := l]
    ensures Lows(e', a[v := l][k := x]) && Lows(e', a[v := l])
  {
  }

  lemma BlocksPush(e: Env, a: seq<int>, ns: int, size: map<int, int>, node: int)
    requires Basic(e) && Stack(e, a, ns) && Blocks(e, a, size) && White(e, node) && 1 <= node <= e.g.count && ns < |a|
    ensures Blocks(Push(e, node), a[node := e.idx][ns := node], size)
  {
    hide Blocks, Stack;
    PushBasic(e, node);
    BoundsOnly(e, a, ns);
    BlocksStay(e, a, Push(e, node), a[node := e.idx][ns := node], size, 0);
  }

  lemma BoundsOnly(e: Env, a: seq<int>, ns: int)
    requires Stack(e, a, ns)
    ensures e.g.count < e.first <= ns <= |a|
  {
  }

  lemma StackPush(e: Env, a: seq<int>, ns: int, node: int)
    requires Basic(e) && Stack(e, a, ns) && White(e, node) && 1 <= node <= e.g.count && ns < |a|
    ensures Stack(Push(e, node), a[node := e.idx][ns := node], ns + 1)
  {
    hide Ordered, Done;
    var e', a' := Push(e, node), a[node := e.idx][ns := node];
    PushBasic(e, node);
    assert a'[e.first..ns] == a[e.first..ns];
    assert a'[e.first..ns + 1] == a'[e.first..ns] + [node];
    assert forall v :: v in a[e.first..ns] ==> v in e.stk;
    OrderedSame(e.num, a, e'.num, a', e.first, ns, ns);
    OrderedMore(e'.num, a', e.first, ns);
  }

  lemma OrderedMore(num: map<int, int>, a: seq<int>, lo: int, hi: int)
    requires Ordered(num, a, lo, hi) && hi < |a| && a[hi] in num
    requires forall v :: v in a[lo..hi] ==> v in num && num[v] < num[a[hi]]
    ensures Ordered(num, a, lo, hi + 1)
  {
    forall j | lo <= j < hi ensures a[j] in num && num[a[j]] < num[a[hi]] {
      InSlice(a, lo, hi, j);
    }
  }

  // ----- steps that touch low values only -----

  lemma RepLeaf(e: Env, a: seq<int>, ns: int, size: map<int, int>, v: int)
    requires Basic(e) && Rep(e, a, ns, size) && White(e, v) && ns < |a|
    ensures 1 <= v <= e.g.count < |a|
    ensures Rep(Leaf(e, v), a[v := -1], ns, size)
  {
    hide Blocks, Stack, Whites, Done;
    Bounds(e, a, ns);
    LeafBasic(e, v);
    WhitesLess(e, Leaf(e, v), v);
    StackSame(e, a, ns, Leaf(e, v), a[v := -1]);
    LowsSet(e, a, Leaf(e, v), v, -1, ns, 0);
    BlocksLow(e, a, Leaf(e, v), a[v := -1], size, 0);
  }

  /** Blocks survive when only slots up to count change. */
  lemma BlocksLow(e: Env, a: seq<int>, e': Env, a': seq<int>, size: map<int, int>, drop: int)
    requires Basic(e) && Basic(e') && Blocks(e, a, size) && |a'| == |a| && e'.g == e.g && e'.first == e.first < |a|
    requires forall k :: e.g.count < k < |a| ==> a'[k] == a[k]
    requires e.g.count < e.first
    requires forall v :: v in e.g.live && 0 < e'.low[v] < e.first ==> e.low[v] == e'.low[v] != drop
    requires forall v :: v in e.g.live && 0 < e.low[v] < e.first && e.low[v] != drop ==> e'.low[v] == e.low[v]
    ensures Blocks(e', a', size)
  {
    hide Blocks;
    BlocksStay(e, a, e', a', size, drop);
  }

  lemma RepLower(e: Env, a: seq<int>, ns: int, size: map<int, int>, u: int, l: int)
    requires Basic(e) && Rep(e, a, ns, size) && u in e.stk && e.first <= l <= e.low[u] && ns < |a|
    ensures 1 <= u <= e.g.count < |a|
    ensures Rep(Lower(e, u, l), a[u := l], ns, size)
  {
    hide Blocks, Stack, Whites;
    Bounds(e, a, ns);
    var e' := Lower(e, u, l);
    assert forall x :: White(e', x) <==> White(e, x);
    assert forall x :: Done(e', x) <==> Done(e, x);
    WhitesSame(e, e');
    StackSame(e, a, ns, e', a[u := l]);
    LowsSet(e, a, e', u, l, ns, 0);
    BlocksLow(e, a, e', a[u := l], size, 0);
  }

  lemma RepScan(e: Env, a: seq<int>, ns: int, size: map<int, int>, u: int, v: int)
    requires Basic(e) && Rep(e, a, ns, size) && ns < |a|
    ensures Rep(Scan(e, u, v), a, ns, size)
  {
    hide Blocks, Stack, Whites;
    Bounds(e, a, ns);
    var e' := Scan(e, u, v);
    assert forall x :: White(e', x) <==> White(e, x);
    assert forall x :: Done(e', x) <==> Done(e, x);
    WhitesSame(e, e');
    StackSame(e, a, ns, e', a);
    BlocksLow(e, a, e', a, size, 0);
  }

  lemma RepLeave(e: Env, a: seq<int>, ns: int, size: map<int, int>, node: int)
    requires Basic(e) && Rep(e, a, ns, size) && ns < |a|
    ensures Rep(Leave(e, node), a, ns, size)
  {
    hide Blocks, Stack, Whites;
    Bounds(e, a, ns);
    var e' := Leave(e, node);
    assert forall x :: White(e', x) <==> White(e, x);
    assert forall x :: Done(e', x) <==> Done(e, x);
    WhitesSame(e, e');
    StackSame(e, a, ns, e', a);
    BlocksLow(e, a, e', a, size, 0);
  }

  // ----- pruning a kept block -----

  lemma RepUnkeep(e: Env, a: seq<int>, ns: int, size: map<int, int>, l: int, a': seq<int>)
    requires Basic(e) && Rep(e, a, ns, size) && e.g.count < l < e.first && |a'| == |a| && a'[0] == 0 && ns < |a|
    requires forall v :: 1 <= v <= e.g.count ==> a'[v] == if v in e.g.live && e.low[v] == l then -1 else a[v]
    requires forall k :: e.g.count < k < |a| ==> a'[k] == a[k]
    ensures Rep(Unkeep(e, l), a', ns, size)
  {
    hide Blocks, Stack, Whites, White, Done;
    Bounds(e, a, ns);
    var e' := Unkeep(e, l);
    UnkeepBasic(e, l);
    WhitesSame(e, e');
    StackSame(e, a, ns, e', a');
    BlocksLow(e, a, e', a', size, l);
  }

  // ----- taking a component off the stack -----

  /** Slots from `at` on are the upper part of the stack. */
  lemma SlotsAbove(e: Env, a: seq<int>, ns: int, at: int, node: int)
    requires Basic(e) && Stack(e, a, ns) && e.first <= at < ns && a[at] == node
    ensures node in e.stk && forall v :: v in Above(e, node) <==> v in a[at..ns]
    ensures forall k :: e.first <= k < at ==> a[k] in e.stk && a[k] !in Above(e, node)
    ensures forall v :: v in e.stk && v !in Above(e, node) ==> v in a[e.first..at]
  {
    hide Done;
    InSlice(a, e.first, ns, at);
    assert a[e.first..ns] == a[e.first..at] + a[at..ns];
    forall v | v in a[at..ns] ensures v in Above(e, node) {
      var k :| at <= k < ns && a[k] == v;
      assert k == at || e.num[a[at]] < e.num[a[k]];
    }
    forall k | e.first <= k < at ensures a[k] in e.stk && a[k] !in Above(e, node) {
      InSlice(a, e.first, ns, k);
      assert e.num[a[k]] < e.num[a[at]];
    }
  }

  /** `a'` is `a` after the finishing loop gave every node of slots at..ns the value m. */
  ghost predicate PoppedTo(e: Env, a: seq<int>, at: int, ns: int, m: int, a': seq<int>) {
    && 0 <= at <= ns <= |a| && |a'| == |a| && |a| > e.g.count && a'[0] == 0
    && (forall v :: 1 <= v <= e.g.count ==> a'[v] == if v in a[at..ns] then m else a[v])
    && forall k :: e.g.count < k < |a| ==> a'[k] == a[k]
  }

  lemma LowsPop(e: Env, a: seq<int>, ns: int, at: int, node: int, m: int, first: int, a': seq<int>)
    requires Basic(e) && Lows(e, a) && Stack(e, a, ns) && e.first <= at < ns && a[at] == node
    requires PoppedTo(e, a, at, ns, m, a')
    ensures Lows(Pop(e, node, m, first), a')
  {
    hide Stack;
    SlotsAbove(e, a, ns, at, node);
    assert Above(e, node) <= e.stk;
  }

  lemma RepPopInner(e: Env, a: seq<int>, ns: int, size: map<int, int>, at: int, node: int, a': seq<int>)
    requires Basic(e) && Rep(e, a, ns, size) && e.first <= at < ns && a[at] == node && PoppedTo(e, a, at, ns, -1, a')
    requires PopOk(e, node, -1, e.first)
    ensures Rep(Pop(e, node, -1, e.first), a', at, size)
  {
    hide Blocks, Stack, PopOk, White, Done, Whites, Lows, Above, PoppedTo;
    var e' := Pop(e, node, -1, e.first);
    SlotsAbove(e, a, ns, at, node);
    PopBasic(e, node, -1, e.first);
    WhitesSame(e, e');
    LowsPop(e, a, ns, at, node, -1, e.first, a');
    StackPop(e, a, ns, at, node, a');
    BlocksPopInner(e, a, ns, size, at, node, a');
  }

  lemma BlocksPopInner(e: Env, a: seq<int>, ns: int, size: map<int, int>, at: int, node: int, a': seq<int>)
    requires Basic(e) && Stack(e, a, ns) && Blocks(e, a, size) && e.first <= at < ns && a[at] == node
    requires PoppedTo(e, a, at, ns, -1, a')
    requires PopOk(e, node, -1, e.first)
    ensures Blocks(Pop(e, node, -1, e.first), a', size)
  {
    hide Blocks, Stack, PopOk;
    SlotsAbove(e, a, ns, at, node);
    BoundsOnly(e, a, ns);
    PopBasic(e, node, -1, e.first);
    BlocksLow(e, a, Pop(e, node, -1, e.first), a', size, 0);
  }

  lemma StackPop(e: Env, a: seq<int>, ns: int, at: int, node: int, a': seq<int>)
    requires Basic(e) && Stack(e, a, ns) && e.first <= at < ns && a[at] == node && PoppedTo(e, a, at, ns, -1, a')
    requires PopOk(e, node, -1, e.first)
    ensures Stack(Pop(e, node, -1, e.first), a', at)
  {
    hide PopOk, Ordered, Above, Done, Left, Listed;
    SlotsAbove(e, a, ns, at, node);
    PopBasic(e, node, -1, e.first);
    assert a'[e.first..at] == a[e.first..at];
    OrderedSame(e.num, a, e.num, a', e.first, ns, at);
    ListedPop(e, a, ns, at, node, a');
    LeftPop(e, a, ns, at, node, a');
  }

  lemma ListedPop(e: Env, a: seq<int>, ns: int, at: int, node: int, a': seq<int>)
    requires Basic(e) && Stack(e, a, ns) && e.first <= at < ns && a[at] == node && PoppedTo(e, a, at, ns, -1, a')
    ensures Listed(Pop(e, node, -1, e.first).stk, a', e.first, at)
  {
    hide Ordered, Above, Left;
    SlotsAbove(e, a, ns, at, node);
    assert a'[e.first..at] == a[e.first..at];
    forall v | v in a[e.first..at] ensures v in e.stk && v !in Above(e, node) {
      var k :| e.first <= k < at && a[k] == v;
    }
  }

  lemma LeftPop(e: Env, a: seq<int>, ns: int, at: int, node: int, a': seq<int>)
    requires Basic(e) && Stack(e, a, ns) && e.first <= at < ns && a[at] == node && PoppedTo(e, a, at, ns, -1, a')
    requires PopOk(e, node, -1, e.first)
    ensures Left(Pop(e, node, -1, e.first), a', at)
  {
    hide Ordered, Above, Listed, PopOk, Done;
    SlotsAbove(e, a, ns, at, node);
    PopBasic(e, node, -1, e.first);
    forall k | at <= k < |a| ensures a'[k] == 0 || Done(Pop(e, node, -1, e.first), a'[k]) {
      if k < ns { InSlice(a, at, ns, k); }
    }
  }

  /** The root's component becomes a kept block in place. */
  lemma RepPopRoot(e: Env, a: seq<int>, ns: int, size: map<int, int>, node: int, a': seq<int>)
    requires Basic(e) && Rep(e, a, ns, size) && e.first < ns && a[e.first] == node
    requires PoppedTo(e, a, e.first, ns, e.first, a')
    requires PopOk(e, node, e.first, e.idx)
    ensures Rep(Pop(e, node, e.first, e.idx), a', e.idx, size[e.first := ns - e.first])
  {
    hide Blocks, Stack, PopOk, White, Done, Whites, Above, PoppedTo;
    var e' := Pop(e, node, e.first, e.idx);
    SlotsAbove(e, a, ns, e.first, node);
    PopBasic(e, node, e.first, e.idx);
    WhitesSame(e, e');
    LowsPop(e, a, ns, e.first, node, e.first, e.idx, a');
    StackPopRoot(e, a, ns, node, a');
    BlocksPopRoot(e, a, ns, size, node, a');
  }

  lemma StackPopRoot(e: Env, a: seq<int>, ns: int, node: int, a': seq<int>)
    requires Basic(e) && Stack(e, a, ns) && ns <= e.idx <= |a| && e.first < ns && a[e.first] == node
    requires PoppedTo(e, a, e.first, ns, e.first, a') && PopOk(e, node, e.first, e.idx)
    ensures Stack(Pop(e, node, e.first, e.idx), a', e.idx)
  {
    SlotsAbove(e, a, ns, e.first, node);
    PopBasic(e, node, e.first, e.idx);
    assert e.stk == Above(e, node);
    assert Pop(e, node, e.first, e.idx).stk == {};
  }

  lemma BlocksPopRoot(e: Env, a: seq<int>, ns: int, size: map<int, int>, node: int, a': seq<int>)
    requires Basic(e) && Stack(e, a, ns) && Blocks(e, a, size) && ns <= e.idx < |a| && e.first < ns
    requires a[e.first] == node
    requires PoppedTo(e, a, e.first, ns, e.first, a') && PopOk(e, node, e.first, e.idx)
    ensures Blocks(Pop(e, node, e.first, e.idx), a', size[e.first := ns - e.first])
  {
    hide Block, Stack, PopOk, White, Above, PoppedTo;
    var e', size' := Pop(e, node, e.first, e.idx), size[e.first := ns - e.first];
    SlotsAbove(e, a, ns, e.first, node);
    PopBasic(e, node, e.first, e.idx);
    RootBlock(e, a, ns, node, a');
    forall x | Done(e', x) && e'.low[x] > 0 && x !in Above(e, node)
      ensures e'.low[x] in size' && Block(e', a', e'.low[x], size'[e'.low[x]])
    {
      assert Done(e, x) && e.low[x] in size;
      BlockPopRoot(e, a, ns, node, a', e.low[x], size[e.low[x]]);
    }
  }

  lemma BlockPopRoot(e: Env, a: seq<int>, ns: int, node: int, a': seq<int>, l: int, s: int)
    requires Basic(e) && Stack(e, a, ns) && ns <= e.idx < |a| && e.first < ns && a[e.first] == node && l < e.first
    requires PoppedTo(e, a, e.first, ns, e.first, a') && PopOk(e, node, e.first, e.idx) && Block(e, a, l, s)
    ensures Block(Pop(e, node, e.first, e.idx), a', l, s)
  {
    hide Block, Stack, PopOk, White;
    SlotsAbove(e, a, ns, e.first, node);
    BoundsOnly(e, a, ns);
    PopBasic(e, node, e.first, e.idx);
    assert a'[e.first] == a[e.first];
    BlockStays(e, a, Pop(e, node, e.first, e.idx), a', l, s);
  }

  lemma RootBlock(e: Env, a: seq<int>, ns: int, node: int, a': seq<int>)
    requires Basic(e) && Stack(e, a, ns) && ns <= e.idx < |a| && e.first < ns && a[e.first] == node
    requires PoppedTo(e, a, e.first, ns, e.first, a') && PopOk(e, node, e.first, e.idx)
    ensures Block(Pop(e, node, e.first, e.idx), a', e.first, ns - e.first)
  {
    hide White, Listed, Left, Above, Ordered, PoppedTo, Done;
    var e', l := Pop(e, node, e.first, e.idx), e.first;
    SlotsAbove(e, a, ns, l, node);
    PoppedSlots(e, a, l, ns, l, a');
    forall k | l <= k < ns ensures a'[k] in e'.low && e'.low[a'[k]] == l { InSlice(a, l, ns, k); }
    Distinct(e.num, a, l, ns);
    LeftOver(e, a, ns, ns);
  }

  lemma PoppedSlots(e: Env, a: seq<int>, at: int, ns: int, m: int, a': seq<int>)
    requires PoppedTo(e, a, at, ns, m, a') && e.g.count < at
    ensures |a'| == |a| && a'[at..ns] == a[at..ns] && forall k :: e.g.count < k < |a| ==> a'[k] == a[k]
  {
  }

  lemma Distinct(num: map<int, int>, a: seq<int>, lo: int, hi: int)
    requires Ordered(num, a, lo, hi)
    ensures forall j, k :: lo <= j < k < hi ==> a[j] != a[k]
  {
  }

  // ----- roots -----

  lemma RepRootLeaf(e: Env, a: seq<int>, size: map<int, int>, v: int)
    requires Basic(e) && e.stk == {} && e.first == e.idx && Rep(e, a, e.idx, size) && White(e, v)
    ensures 1 <= v <= e.g.count < e.idx < |a|
    ensures Rep(RootLeaf(e, v), a[v := e.idx][e.idx := v], e.idx + 1, size[e.idx := 1])
  {
    hide Blocks, Stack, Basic, White, Whites, Done;
    Bounds(e, a, e.idx);
    WhitesSome(e, v);
    WhiteLive(e, v);
    RootLeafBasic(e, v);
    WhitesLess(e, RootLeaf(e, v), v);
    LowsSet(e, a, RootLeaf(e, v), v, e.idx, e.idx, v);
    StackRootLeaf(e, a, v);
    BlocksRootLeaf(e, a, size, v);
  }

  lemma StackRootLeaf(e: Env, a: seq<int>, v: int)
    requires Basic(e) && e.stk == {} && e.first == e.idx && Stack(e, a, e.idx) && White(e, v)
    requires 1 <= v <= e.g.count < e.idx < |a|
    ensures Stack(RootLeaf(e, v), a[v := e.idx][e.idx := v], e.idx + 1)
  {
    RootLeafBasic(e, v);
  }

  lemma BlocksRootLeaf(e: Env, a: seq<int>, size: map<int, int>, v: int)
    requires Basic(e) && e.stk == {} && e.first == e.idx && Stack(e, a, e.idx) && Blocks(e, a, size)
    requires White(e, v) && 1 <= v <= e.g.count < e.idx < |a| - 1
    ensures Blocks(RootLeaf(e, v), a[v := e.idx][e.idx := v], size[e.idx := 1])
  {
    hide Block, Stack;
    var e', a', size' := RootLeaf(e, v), a[v := e.idx][e.idx := v], size[e.idx := 1];
    RootLeafBasic(e, v);
    LeafBlock(e, a, v);
    forall x | Done(e', x) && e'.low[x] > 0 && x != v
      ensures e'.low[x] in size' && Block(e', a', e'.low[x], size'[e'.low[x]])
    {
      assert Done(e, x);
      BlockStays(e, a, e', a', e.low[x], size[e.low[x]]);
    }
  }

  lemma LeafBlock(e: Env, a: seq<int>, v: int)
    requires Basic(e) && e.stk == {} && e.first == e.idx && Stack(e, a, e.idx) && White(e, v)
    requires 1 <= v <= e.g.count < e.idx < |a| - 1
    ensures Block(RootLeaf(e, v), a[v := e.idx][e.idx := v], e.idx, 1)
  {
    var a' := a[v := e.idx][e.idx := v];
    assert a'[e.idx..e.idx + 1] == [v];
    LeftOver(e, a, e.idx, e.idx + 1);
  }
}
