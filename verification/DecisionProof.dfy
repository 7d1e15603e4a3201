/** From a resolution chain to a unit-propagation refutation. */
module DecisionProof {
  import opened Containers
  import opened DecisionSort

  const REASON_UNIT_RULE := 1
  const REASON_UNSOLVABLE := 18
  const REASON_PREMISE := 19
  const RULE_PKG_SAME_NAME := 0x106

  ghost function LitSet(c: seq<int>): set<int> {
    set p | p in c
  }

  /** A rule mentions every variable at most once. */
  ghost predicate ProperRule(c: seq<int>) {
    (forall i, j :: 0 <= i < j < |c| ==> Abs(c[i]) != Abs(c[j])) && 0 !in c
  }

  lemma DistinctVars(c: seq<int>, x: int)
    requires ProperRule(c) && x in c
    ensures x != 0 && forall y :: y in c && y != x ==> Abs(y) != Abs(x)
  {
    var j :| 0 <= j < |c| && c[j] == x;
    forall y | y in c && y != x ensures Abs(y) != Abs(x) {
      var k :| 0 <= k < |c| && c[k] == y;
    }
  }

  // ----- resolution -----

  /** Clause r can be resolved with rule c on the literal p of c: p is c's only literal that clashes with r,
      and nothing in c was resolved away before. `start` holds the literals given as true. */
  ghost predicate ResolvesOn(c: seq<int>, r: set<int>, done: set<int>, start: set<int>, p: int) {
    && ProperRule(c) && p in c && -p in r && Abs(p) !in VarsOf(start)
    && forall q :: q in c && q != p ==> -q !in r && Abs(q) !in done
  }

  ghost function Resolvent(c: seq<int>, r: set<int>, p: int): set<int> {
    (r - {-p}) + (LitSet(c) - {p})
  }

  /** Resolving r with the rules in turn, on the pivots ps, leaves only literals that are false from the start. */
  ghost predicate Chain(rules: Rules, rids: seq<nat>, ps: seq<int>, r: set<int>, done: set<int>, start: set<int>)
    requires |ps| == |rids|
    decreases |rids|
  {
    if rids == [] then forall x :: x in r ==> -x in start
    else ResolvesOn(rules(rids[0]), r, done, start, ps[0])
         && Chain(rules, rids[1..], ps[1..], Resolvent(rules(rids[0]), r, ps[0]), done + {Abs(ps[0])}, start)
  }

  /** The solver's record of a contradiction: a conflicting rule and the rules its literals are resolved with. */
  ghost predicate Complete(rules: Rules, rids: seq<nat>, ps: seq<int>, start: set<int>) {
    && |rids| > 0 && |ps| == |rids| - 1 && ProperRule(rules(rids[0]))
    && Chain(rules, rids[1..], ps, LitSet(rules(rids[0])), {}, start)
  }

  // ----- refutations -----

  /** A refutation: decisions forced one after the other, then a rule all of whose literals are false. */
  ghost predicate Refutation(rules: Rules, start: set<int>, es: seq<Entry>) {
    && |es| > 0
    && var n := |es| - 1;
    && ValidOrder(rules, start, es[..n]) && Decided(start, es[..n])
    && es[n].lit == 0
    && forall p :: p in rules(es[n].rid) ==> -p in start + Lits(es[..n])
  }

  /** The record for step k of the chain. */
  function ProofEntry(rid: nat, lit: int, last: bool, info: nat -> (int, int, int, int)): Entry {
    var (typ, from, to, dep) := info(rid);
    Entry(lit, if last then REASON_UNSOLVABLE else REASON_UNIT_RULE, rid, 0, typ, from, to, dep)
  }

  /** The chain turned around: the last rule decides first, the conflicting rule comes last. */
  ghost function Reversed(rids: seq<nat>, ps: seq<int>, info: nat -> (int, int, int, int)): (es: seq<Entry>)
    requires |ps| == |rids|
    ensures |es| == |rids|
  {
    if rids == [] then [] else Reversed(rids[1..], ps[1..], info) + [ProofEntry(rids[0], ps[0], false, info)]
  }

  /** Resolution never brings in both signs of a variable, nor one that is done. */
  ghost predicate CleanClause(r: set<int>, done: set<int>) {
    forall x :: x in r ==> x != 0 && -x !in r && Abs(x) !in done
  }

  lemma ResolventClean(c: seq<int>, r: set<int>, done: set<int>, start: set<int>, p: int)
    requires CleanClause(r, done) && ResolvesOn(c, r, done, start, p)
    ensures CleanClause(Resolvent(c, r, p), done + {Abs(p)})
  {
    DistinctVars(c, p);
    forall x | x in Resolvent(c, r, p)
      ensures x != 0 && -x !in Resolvent(c, r, p) && Abs(x) !in done + {Abs(p)}
    {
      assert Abs(-x) == Abs(x) && -(-x) == x;
      if x in c {
        DistinctVars(c, x);
      }
    }
  }

  /** Every clause of the chain is falsified by the decisions made before it in the reversed order. */
  lemma {:induction false} ReversedProof(rules: Rules, rids: seq<nat>, ps: seq<int>, r: set<int>, done: set<int>,
      start: set<int>,
                                         info: nat -> (int, int, int, int))
    requires |ps| == |rids|
    requires Chain(rules, rids, ps, r, done, start) && CleanClause(r, done)
    ensures var es := Reversed(rids, ps, info);
      && ValidOrder(rules, start, es) && Decided(start, es)
      && (forall x :: x in r ==> -x in start + Lits(es))
      && (forall t :: 0 <= t < |es| ==> Abs(es[t].lit) !in done)
      && (forall t :: 0 <= t < |es| ==> es[t].lit !in r)
    decreases |rids|
  {
    hide Lits, ValidOrder, Decided, UnitUnder, VarsOf;
    if rids == [] {
      NoDecisions(rules, start);
    } else {
      var c, p := rules(rids[0]), ps[0];
      var r', done' := Resolvent(c, r, p), done + {Abs(p)};
      ResolventClean(c, r, done, start, p);
      ReversedProof(rules, rids[1..], ps[1..], r', done', start, info);
      ReversedStep(rules, c, p, r, done, start, Reversed(rids[1..], ps[1..], info),
                   ProofEntry(rids[0], p, false, info));
    }
  }

  lemma NoDecisions(rules: Rules, start: set<int>)
    ensures ValidOrder(rules, start, []) && Decided(start, []) && Lits([]) == {}
  {
  }

  lemma ReversedStep(rules: Rules, c: seq<int>, p: int, r: set<int>, done: set<int>, start: set<int>,
      tail: seq<Entry>, e: Entry)
    requires CleanClause(r, done) && ResolvesOn(c, r, done, start, p) && e.lit == p && rules(e.rid) == c
    requires ValidOrder(rules, start, tail) && Decided(start, tail)
    requires forall x :: x in Resolvent(c, r, p) ==> -x in start + Lits(tail)
    requires forall t :: 0 <= t < |tail| ==> Abs(tail[t].lit) !in done + {Abs(p)}
    requires forall t :: 0 <= t < |tail| ==> tail[t].lit !in Resolvent(c, r, p)
    ensures var es := tail + [e];
      && ValidOrder(rules, start, es) && Decided(start, es)
      && (forall x :: x in r ==> -x in start + Lits(es))
      && (forall t :: 0 <= t < |es| ==> Abs(es[t].lit) !in done)
      && (forall t :: 0 <= t < |es| ==> es[t].lit !in r)
  {
    hide Lits, ValidOrder, Decided, VarsOf, Resolvent;
    ClauseSplit(c, r, p);
    assert p != 0 && Abs(p) !in done && Abs(-p) == Abs(p) by { assert -p in r; }
    ExtendOrder(rules, start, tail, e);
    forall x | x in r ensures -x in start + Lits(tail + [e]) {
      assert x == -p || x in Resolvent(c, r, p);
    }
    forall t | 0 <= t < |tail| + 1 ensures (tail + [e])[t].lit !in r && Abs((tail + [e])[t].lit) !in done {
      if t < |tail| {
        assert (tail + [e])[t] == tail[t];
        var l := tail[t].lit;
        assert l != -p && l !in Resolvent(c, r, p);
      }
    }
  }

  lemma ClauseSplit(c: seq<int>, r: set<int>, p: int)
    requires p in c && -p in r
    ensures forall q :: q in c && q != p ==> q in Resolvent(c, r, p)
    ensures forall x :: x in r && x != -p ==> x in Resolvent(c, r, p)
  {
  }

  /** One more forced decision at the end of a valid order. */
  lemma ExtendOrder(rules: Rules, start: set<int>, tail: seq<Entry>, e: Entry)
    requires ValidOrder(rules, start, tail) && Decided(start, tail)
    requires UnitUnder(rules, e, start + Lits(tail))
    requires e.lit != 0 && Abs(e.lit) !in VarsOf(start)
    requires forall t :: 0 <= t < |tail| ==> Abs(tail[t].lit) != Abs(e.lit)
    ensures ValidOrder(rules, start, tail + [e]) && Decided(start, tail + [e])
    ensures Lits(tail + [e]) == Lits(tail) + {e.lit}
  {
    var es := tail + [e];
    VarsAppend(tail, [e]);
    VarsOne(e);
    forall t | 0 <= t < |es| ensures UnitUnder(rules, es[t], start + Lits(es[..t])) {
      if t < |tail| {
        assert es[..t] == tail[..t] && es[t] == tail[t];
      } else {
        assert es[..t] == tail;
      }
    }
  }

  /** The main result: a complete chain turned around is a refutation. */
  lemma ChainRefutes(rules: Rules, rids: seq<nat>, ps: seq<int>, start: set<int>, info: nat -> (int, int, int, int))
    requires Complete(rules, rids, ps, start)
    ensures Refutation(rules, start, Reversed(rids[1..], ps, info) + [ProofEntry(rids[0], 0, true, info)])
  {
    var c := rules(rids[0]);
    ProperClean(c);
    ReversedProof(rules, rids[1..], ps, LitSet(c), {}, start, info);
    var tail, e := Reversed(rids[1..], ps, info), ProofEntry(rids[0], 0, true, info);
    var es := tail + [e];
    assert es[..|es| - 1] == tail;
    assert forall p :: p in c ==> p in LitSet(c);
  }

  lemma ProperClean(c: seq<int>)
    requires ProperRule(c)
    ensures CleanClause(LitSet(c), {})
  {
    forall x | x in LitSet(c) ensures -x !in LitSet(c) {
      DistinctVars(c, x);
    }
  }

  // ----- swapping the last two records -----

  /** The last two records swapped: the binary conflict becomes the last decision, and the rule that installed
      the other package is the one that fails. */
  ghost function Swapped(es: seq<Entry>): seq<Entry>
    requires |es| >= 2
  {
    var a, b := es[|es| - 2], es[|es| - 1];
    es[..|es| - 2] + [b.(lit := -a.lit, reason := REASON_UNIT_RULE), a.(lit := 0, reason := REASON_UNSOLVABLE)]
  }

  /** The guard of the swap. */
  predicate Swappable(rules: Rules, es: seq<Entry>) {
    && |es| >= 2
    && var a, b := es[|es| - 2], es[|es| - 1];
    && b.typ == RULE_PKG_SAME_NAME && a.lit > 0
    && |rules(b.rid)| == 2 && rules(b.rid)[0] < 0 && rules(b.rid)[1] < 0
    && (a.lit == -rules(b.rid)[0] || a.lit == -rules(b.rid)[1])
  }

  lemma SwapRefutes(rules: Rules, start: set<int>, es: seq<Entry>)
    requires Refutation(rules, start, es) && Swappable(rules, es) && ProperRule(rules(es[|es| - 1].rid))
    ensures Refutation(rules, start, Swapped(es))
  {
    var n := |es| - 1;
    var a, b, pre := es[n - 1], es[n], es[..n - 1];
    var b' := b.(lit := -a.lit, reason := REASON_UNIT_RULE);
    assert Swapped(es)[..n] == pre + [b'] && es[..n] == pre + [a];
    LastDecision(rules, start, pre, a);
    BinaryRule(rules(b.rid));
    ExtendOrder(rules, start, pre, b');
  }

  lemma LastDecision(rules: Rules, start: set<int>, pre: seq<Entry>, a: Entry)
    requires ValidOrder(rules, start, pre + [a]) && Decided(start, pre + [a])
    ensures ValidOrder(rules, start, pre) && Decided(start, pre) && UnitUnder(rules, a, start + Lits(pre))
    ensures Abs(a.lit) !in VarsOf(start) && forall t :: 0 <= t < |pre| ==> Abs(pre[t].lit) != Abs(a.lit)
    ensures Lits(pre + [a]) == Lits(pre) + {a.lit}
  {
    var es := pre + [a];
    VarsAppend(pre, [a]);
    VarsOne(a);
    assert es[|pre|] == a && es[..|pre|] == pre;
    forall t | 0 <= t < |pre|
      ensures UnitUnder(rules, pre[t], start + Lits(pre[..t])) && Abs(pre[t].lit) != Abs(a.lit) && pre[t].lit != 0
      ensures Abs(pre[t].lit) !in VarsOf(start)
    {
      assert es[t] == pre[t] && es[..t] == pre[..t];
      assert UnitUnder(rules, es[t], start + Lits(es[..t]));
    }
    forall s, t | 0 <= s < t < |pre| ensures Abs(pre[s].lit) != Abs(pre[t].lit) {
      assert es[s] == pre[s] && es[t] == pre[t];
    }
  }

  lemma BinaryRule(c: seq<int>)
    requires |c| == 2 && ProperRule(c)
    ensures c[0] in c && c[1] in c && Abs(c[0]) != Abs(c[1]) && forall p :: p in c ==> p == c[0] || p == c[1]
  {
  }

  // ----- the source's pass over the chain -----

  /** `seen` and `seent` record an assignment: every literal of r is false and every pivot's variable is known. */
  ghost predicate Tracks(seen: set<int>, seent: set<int>, r: set<int>, done: set<int>) {
    && seen == VarsOf(r) + done
    && seent <= seen
    && forall x :: x in r ==> (Abs(x) in seent <==> x < 0)
  }

  /** One rule of the chain: find its true literal and record its new literals as false. */
  method VisitRule(c: seq<int>, seen0: set<int>, seent0: set<int>, ghost r: set<int>, ghost done: set<int>,
      ghost start: set<int>, ghost p: int)
    returns (truelit: int, seen: set<int>, seent: set<int>, aborted: bool)
    requires CleanClause(r, done) && Tracks(seen0, seent0, r, done)
    requires ProperRule(c)
    requires (p == 0 && r == {} && done == {}) || ResolvesOn(c, r, done, start, p)
    ensures !aborted && truelit == p
    ensures Tracks(seen, seent, Resolvent(c, r, p), if p == 0 then {} else done + {Abs(p)})
  {
    hide CleanClause, Tracks, ProperRule, ResolvesOn, Resolvent;
    truelit, aborted := 0, false;
    seen, seent := seen0, seent0;
    for i := 0 to |c|
      invariant !aborted
      invariant truelit == if p in c[..i] then p else 0
      invariant seen == seen0 + (set q | q in c[..i] :: Abs(q))
      invariant seent == seent0 + (set q | q in c[..i] && Abs(q) !in seen0 && q < 0 :: Abs(q))
    {
      var lit := c[i];
      assert c[..i + 1] == c[..i] + [lit];
      assert lit in c;
      VisitLiteral(c, i, seen0, seent0, seen, seent, r, done, start, p);
      var vv := Abs(lit);
      if vv in seen {
        if (lit > 0) == (vv in seent) {
          if truelit != 0 {
            aborted := true;
          }
          truelit := lit;
        }
      } else {
        seen := seen + {vv};
        if lit < 0 {
          seent := seent + {vv};
        }
      }
    }
    assert c[..|c|] == c;
    if p != 0 { PivotIn(c, r, done, start, p); }
    Visited(c, seen0, seent0, seen, seent, r, done, start, p);
  }

  lemma PivotIn(c: seq<int>, r: set<int>, done: set<int>, start: set<int>, p: int)
    requires ResolvesOn(c, r, done, start, p)
    ensures p in c
  {
  }

  /** Inside a rule, only the pivot is seen with a matching sign. */
  lemma VisitLiteral(c: seq<int>, i: nat, seen0: set<int>, seent0: set<int>, seen: set<int>, seent: set<int>,
                     r: set<int>, done: set<int>, start: set<int>, p: int)
    requires CleanClause(r, done) && Tracks(seen0, seent0, r, done) && ProperRule(c) && i < |c|
    requires (p == 0 && r == {} && done == {}) || ResolvesOn(c, r, done, start, p)
    requires seen == seen0 + (set q | q in c[..i] :: Abs(q))
    requires seent == seent0 + (set q | q in c[..i] && Abs(q) !in seen0 && q < 0 :: Abs(q))
    ensures Abs(c[i]) in seen <==> Abs(c[i]) in seen0
    ensures Abs(c[i]) in seent <==> Abs(c[i]) in seent0
    ensures c[i] == p ==> Abs(p) in seen0 && (p > 0 <==> Abs(p) in seent0) && p !in c[..i]
    ensures c[i] != p && Abs(c[i]) in seen0 ==> c[i] in r
    ensures c[i] in r ==> (Abs(c[i]) in seent0 <==> c[i] < 0)
    ensures c[i] != 0
  {
    var q := c[i];
    assert q in c;
    forall k | k in c[..i] ensures Abs(k) != Abs(q) {
      var j :| 0 <= j < i && c[..i][j] == k;
      assert c[j] == k;
    }
    if q == p { assert -p in r; assert Abs(-p) in VarsOf(r); }
    if q != p && Abs(q) in seen0 {
      assert Abs(q) in VarsOf(r);
      var x :| x in r && Abs(x) == Abs(q);
      assert x == q || x == -q;
    }
  }

  lemma Visited(c: seq<int>, seen0: set<int>, seent0: set<int>, seen: set<int>, seent: set<int>,
                r: set<int>, done: set<int>, start: set<int>, p: int)
    requires CleanClause(r, done) && Tracks(seen0, seent0, r, done) && ProperRule(c)
    requires (p == 0 && r == {} && done == {}) || ResolvesOn(c, r, done, start, p)
    requires seen == seen0 + (set q | q in c :: Abs(q))
    requires seent == seent0 + (set q | q in c && Abs(q) !in seen0 && q < 0 :: Abs(q))
    ensures Tracks(seen, seent, Resolvent(c, r, p), if p == 0 then {} else done + {Abs(p)})
  {
    hide ProperRule;
    VisitedSeen(c, seen, r, done, start, p);
    forall x | x in Resolvent(c, r, p) ensures Abs(x) in seent <==> x < 0 {
      if x in r {
        assert Abs(x) in VarsOf(r);
      } else {
        NewLiteral(c, seen0, seent, seent0, r, done, start, p, x);
      }
    }
  }

  /** The variables seen are those of the resolvent and the pivots. */
  lemma VisitedSeen(c: seq<int>, seen: set<int>, r: set<int>, done: set<int>, start: set<int>, p: int)
    requires (p == 0 && r == {} && done == {}) || ResolvesOn(c, r, done, start, p)
    requires seen == VarsOf(r) + done + (set q | q in c :: Abs(q))
    requires ProperRule(c)
    ensures seen == VarsOf(Resolvent(c, r, p)) + (if p == 0 then {} else done + {Abs(p)})
  {
    hide ProperRule;
    var r', done' := Resolvent(c, r, p), if p == 0 then {} else done + {Abs(p)};
    assert 0 !in c by { ZeroFree(c); }
    assert Abs(-p) == Abs(p);
    forall v | v in seen ensures v in VarsOf(r') + done' {
      if v in VarsOf(r) {
        var x :| x in r && Abs(x) == v;
        assert x == -p || x in r';
      } else if v !in done {
        var q :| q in c && Abs(q) == v;
        assert q == p || q in r';
      }
    }
    forall v | v in VarsOf(r') + done' ensures v in seen {
      if v in VarsOf(r') {
        var x :| x in r' && Abs(x) == v;
        assert x in r || x in c;
      }
    }
  }

  lemma ZeroFree(c: seq<int>)
    requires ProperRule(c)
    ensures 0 !in c
  {
  }

  /** A literal the rule adds is recorded as false. */
  lemma NewLiteral(c: seq<int>, seen0: set<int>, seent: set<int>, seent0: set<int>, r: set<int>, done: set<int>,
      start: set<int>, p: int, x: int)
    requires CleanClause(r, done) && Tracks(seen0, seent0, r, done) && ProperRule(c)
    requires (p == 0 && r == {} && done == {}) || ResolvesOn(c, r, done, start, p)
    requires seent == seent0 + (set q | q in c && Abs(q) !in seen0 && q < 0 :: Abs(q))
    requires x in c && x != p && x !in r
    ensures Abs(x) in seent <==> x < 0
  {
    DistinctVars(c, x);
    assert Abs(x) !in VarsOf(r) by {
      assert Abs(x) in VarsOf(r) ==> exists y :: y in r && (y == x || y == -x);
    }
    assert Abs(x) !in seen0;
  }

  /** The first pass: [rule, lit, rule, lit, rule, ...] in chain order. */
  ghost predicate FlatChain(flat: seq<int>, rids: seq<nat>, ps: seq<int>, k: nat)
    requires |ps| == |rids| - 1 && 0 < k <= |rids|
  {
    && |flat| == 2 * k - 1
    && (forall j :: 0 <= j < k ==> flat[2 * j] == rids[j])
    && (forall j :: 0 < j < k ==> flat[2 * j - 1] == ps[j - 1])
  }

  /** Walk the chain. A complete chain never reaches the aborts. */
  method CollectChain(rules: Rules, rids: seq<nat>, fq: Queue, ghost ps: seq<int>, ghost start: set<int>)
    returns (aborted: bool)
    requires Complete(rules, rids, ps, start) && fq.elements == []
    modifies fq
    ensures !aborted && FlatChain(fq.elements, rids, ps, |rids|)
  {
    hide Tracks, CleanClause, Chain, ResolvesOn, Resolvent;
    aborted := false;
    var seen: set<int>, seent: set<int> := {}, {};
    ghost var r: set<int>, done: set<int> := {}, {};
    ChainStart(rules(rids[0]));
    var k := 0;
    while k < |rids|
      invariant 0 <= k <= |rids| && !aborted
      invariant k == 0 ==> fq.elements == [] && r == {} && done == {}
      invariant k > 0 ==> FlatChain(fq.elements, rids, ps, k) && Chain(rules, rids[k..], ps[k - 1..], r, done, start)
      invariant CleanClause(r, done) && Tracks(seen, seent, r, done)
    {
      var c := rules(rids[k]);
      ghost var p := if k == 0 then 0 else ps[k - 1];
      if k > 0 {
        ChainHead(rules, rids, ps, k, r, done, start);
      }
      var truelit, bad;
      truelit, seen, seent, bad := VisitRule(c, seen, seent, r, done, start, p);
      r, done := Resolvent(c, r, p), if p == 0 then {} else done + {Abs(p)};
      if bad {
        aborted := true;
      }
      ghost var e := fq.elements;
      if truelit != 0 {
        fq.Push(truelit);
      } else if k != 0 {
        aborted := true;
      }
      fq.Push(rids[k]);
      FlatGrows(e, fq.elements, rids, ps, k);
      k := k + 1;
    }
  }

  lemma FlatGrows(e: seq<int>, f: seq<int>, rids: seq<nat>, ps: seq<int>, k: nat)
    requires |ps| == |rids| - 1 && k < |rids|
    requires k == 0 ==> e == [] && f == [rids[0]]
    requires k > 0 ==> FlatChain(e, rids, ps, k) && f == e + [ps[k - 1]] + [rids[k]]
    ensures FlatChain(f, rids, ps, k + 1)
  {
    if k > 0 {
      forall j | 0 <= j < k + 1 ensures f[2 * j] == rids[j] { if j < k { assert f[2 * j] == e[2 * j]; } }
      forall j | 0 < j < k + 1 ensures f[2 * j - 1] == ps[j - 1] { if j < k { assert f[2 * j - 1] == e[2 * j - 1]; } }
    }
  }

  lemma ChainStart(c: seq<int>)
    requires ProperRule(c)
    ensures CleanClause({}, {}) && Tracks({}, {}, {}, {})
    ensures Resolvent(c, {}, 0) == LitSet(c) && CleanClause(LitSet(c), {})
  {
    ProperClean(c);
    ZeroFree(c);
  }

  lemma ChainHead(rules: Rules, rids: seq<nat>, ps: seq<int>, k: nat, r: set<int>, done: set<int>, start: set<int>)
    requires 0 < k < |rids| && |ps| == |rids| - 1
    requires Chain(rules, rids[k..], ps[k - 1..], r, done, start) && CleanClause(r, done)
    ensures ResolvesOn(rules(rids[k]), r, done, start, ps[k - 1]) && ProperRule(rules(rids[k])) && ps[k - 1] != 0
    ensures Chain(rules, rids[k + 1..], ps[k..], Resolvent(rules(rids[k]), r, ps[k - 1]),
                  done + {Abs(ps[k - 1])}, start)
    ensures CleanClause(Resolvent(rules(rids[k]), r, ps[k - 1]), done + {Abs(ps[k - 1])})
  {
    assert rids[k..][0] == rids[k] && rids[k..][1..] == rids[k + 1..];
    assert ps[k - 1..][0] == ps[k - 1] && ps[k - 1..][1..] == ps[k..];
    ResolventClean(rules(rids[k]), r, done, start, ps[k - 1]);
    assert -ps[k - 1] in r;
  }

  /** The second pass: one record per rule, from the end of the flat list to its front. */
  method BuildEntries(flat: seq<int>, q: DecisionQueue, info: nat -> (int, int, int, int), ghost rids: seq<nat>,
      ghost ps: seq<int>)
    requires |ps| == |rids| - 1 && FlatChain(flat, rids, ps, |rids|)
    requires q.entries == []
    modifies q
    ensures q.entries == Reversed(rids[1..], ps, info) + [ProofEntry(rids[0], 0, true, info)]
  {
    hide Reversed;
    var i := |flat| - 1;
    ghost var k := |rids|;
    EmptyReversed(rids, ps, info);
    while i > 0
      invariant 0 < k <= |rids| && i == 2 * (k - 1)
      invariant q.entries == Reversed(rids[k..], ps[k - 1..], info)
      decreases i
    {
      k := k - 1;
      assert flat[i] == rids[k] && flat[i - 1] == ps[k - 1];
      q.entries := q.entries + [ProofEntry(flat[i], flat[i - 1], false, info)];
      ReversedHead(rids, ps, k, info);
      i := i - 2;
    }
    assert flat[0] == flat[2 * 0] == rids[0];
    q.entries := q.entries + [ProofEntry(flat[i], 0, true, info)];
    assert ps[0..] == ps;
  }

  lemma EmptyReversed(rids: seq<nat>, ps: seq<int>, info: nat -> (int, int, int, int))
    requires |ps| == |rids| - 1
    ensures Reversed(rids[|rids|..], ps[|rids| - 1..], info) == []
  {
  }

  lemma ReversedHead(rids: seq<nat>, ps: seq<int>, k: nat, info: nat -> (int, int, int, int))
    requires 0 < k < |rids| && |ps| == |rids| - 1
    ensures Reversed(rids[k..], ps[k - 1..], info)
      == Reversed(rids[k + 1..], ps[k..], info) + [ProofEntry(rids[k], ps[k - 1], false, info)]
  {
    assert rids[k..][1..] == rids[k + 1..] && ps[k - 1..][1..] == ps[k..];
  }

  /** The literals given as true: the system package, and the negated literals of a learnt rule. */
  ghost function Given(premise: seq<int>): set<int> {
    {1} + (set p | p in premise :: -p)
  }

  /** A premise record. */
  function PremiseEntry(p: int): Entry {
    Entry(-p, REASON_PREMISE, 0, 0, 0, Abs(p), 0, 0)
  }

  /** The premise records of a learnt rule. */
  ghost function Premises(premise: seq<int>): (es: seq<Entry>)
    ensures |es| == |premise| && forall i :: 0 <= i < |premise| ==> es[i] == PremiseEntry(premise[i])
  {
    seq(|premise|, i requires 0 <= i < |premise| => PremiseEntry(premise[i]))
  }

  /** The chain turned around, its last two records swapped if they can be. */
  ghost function ProofRun(rules: Rules, rids: seq<nat>, ps: seq<int>, info: nat -> (int, int, int, int)): seq<Entry>
    requires |rids| > 0 && |ps| == |rids| - 1
  {
    var es := Reversed(rids[1..], ps, info) + [ProofEntry(rids[0], 0, true, info)];
    if Swappable(rules, es) then Swapped(es) else es
  }

  lemma {:induction false} ReversedAt(rids: seq<nat>, ps: seq<int>, info: nat -> (int, int, int, int), t: nat)
    requires |ps| == |rids| && t < |rids|
    ensures var k := |rids| - 1 - t; Reversed(rids, ps, info)[t] == ProofEntry(rids[k], ps[k], false, info)
  {
    if t < |rids| - 1 { ReversedAt(rids[1..], ps[1..], info, t); }
  }

  /** The records one by one: forced decisions (reason 1) by the rules of the chain from the last one on, then the rule
      that fails (reason 18). If the chain starts with a conflict between two packages of the same name (type 262), and
      the first of its pivots is one of them to install, the two records change places: the other package is decided
      not to be installed. Premises have reason 19. */
  lemma ProofRecords(rules: Rules, rids: seq<nat>, ps: seq<int>, info: nat -> (int, int, int, int), t: nat)
    requires |rids| > 0 && |ps| == |rids| - 1 && t < |rids|
    ensures var run, n, c := ProofRun(rules, rids, ps, info), |rids|, rules(rids[0]);
      var k := n - 1 - t;
      var swap := n > 1 && info(rids[0]).0 == 262 && ps[0] > 0 && |c| == 2 && c[0] < 0 && c[1] < 0
        && (ps[0] == -c[0] || ps[0] == -c[1]);
      && |run| == n
      && run[t] == if k == 0 then Record(0, 18, if swap then rids[1] else rids[0], info)
         else if k == 1 && swap then Record(-ps[0], 1, rids[0], info) else Record(ps[k - 1], 1, rids[k], info)
    ensures forall p :: PremiseEntry(p) == Entry(-p, 19, 0, 0, 0, if p >= 0 then p else -p, 0, 0)
  {
    hide Reversed;
    var es := Reversed(rids[1..], ps, info) + [ProofEntry(rids[0], 0, true, info)];
    var n := |rids|;
    if n > 1 { ReversedAt(rids[1..], ps, info, n - 2); }
    if t < n - 1 { ReversedAt(rids[1..], ps, info, t); }
  }

  function Record(lit: int, reason: int, rid: nat, info: nat -> (int, int, int, int)): Entry {
    Entry(lit, reason, rid, 0, info(rid).0, info(rid).1, info(rid).2, info(rid).3)
  }

  /** `solver_get_proof`. `premise` is the learnt rule to explain, or empty for a problem. */
  method GetProof(rules: Rules, rids: seq<nat>, premise: seq<int>, sorted: bool, info: nat -> (int, int, int, int),
                  order: seq<Entry> -> seq<Entry>, q: DecisionQueue, ghost ps: seq<int>)
    returns (aborted: bool, ghost cuts: seq<nat>)
    requires Complete(rules, rids, ps, Given(premise)) && 0 !in premise
    requires forall s :: multiset(order(s)) == multiset(s)
    modifies q
    ensures !aborted
    ensures |q.entries| >= |premise|
    ensures multiset(q.entries[..|premise|]) == multiset(Premises(premise))
    ensures multiset(q.entries[|premise|..]) == multiset(ProofRun(rules, rids, ps, info))
    ensures !sorted ==> q.entries == Premises(premise) + ProofRun(rules, rids, ps, info)
    ensures sorted ==> q.entries[..|premise|] == if |premise| > 1 then order(Premises(premise)) else Premises(premise)
    ensures sorted ==>
      Phases(rules, {1} + (set p | p in premise :: Abs(p)), ProofRun(rules, rids, ps, info), q.entries[|premise|..],
             cuts, order)
    ensures Refutation(rules, Given(premise), q.entries[|premise|..])
  {
    hide Refutation, Phases, Reversed, Complete, FlatChain, Swapped;
    var fq := new Queue();
    q.entries := [];
    CompleteLengths(rules, rids, ps, Given(premise));
    aborted := CollectChain(rules, rids, fq, ps, Given(premise));
    BuildEntries(fq.elements, q, info, rids, ps);
    ChainRefutes(rules, rids, ps, Given(premise), info);
    if Swappable(rules, q.entries) {
      SwapLast(rules, q, rids, ps, Given(premise), info);
    }
    cuts := AddPremises(rules, premise, sorted, order, q);
  }

  lemma CompleteLengths(rules: Rules, rids: seq<nat>, ps: seq<int>, start: set<int>)
    requires Complete(rules, rids, ps, start)
    ensures |rids| > 0 && |ps| == |rids| - 1 && ProperRule(rules(rids[0]))
  {
  }

  /** Swap the last two decisions and fix up their literals and reasons. */
  method SwapLast(rules: Rules, q: DecisionQueue, ghost rids: seq<nat>, ghost ps: seq<int>, ghost start: set<int>,
      ghost info: nat -> (int, int, int, int))
    requires Swappable(rules, q.entries) && Refutation(rules, start, q.entries)
    requires ProperRule(rules(q.entries[|q.entries| - 1].rid))
    modifies q
    ensures q.entries == Swapped(old(q.entries)) && Refutation(rules, start, q.entries)
  {
    hide Refutation;
    ghost var es := q.entries;
    SwapRefutes(rules, start, es);
    var n := |q.entries|;
    q.MoveDecision(n - 2, n - 1);
    assert q.entries == es[..n - 2] + [es[n - 1], es[n - 2]];
    q.entries := q.entries[n - 2 := q.entries[n - 2].(lit := -q.entries[n - 1].lit, reason := REASON_UNIT_RULE)];
    q.entries := q.entries[n - 1 := q.entries[n - 1].(lit := 0, reason := REASON_UNSOLVABLE)];
    assert q.entries == Swapped(es);
  }

  /** All but the last record, the failing rule, are sorted into runs of alternating signs. */
  ghost predicate Phases(rules: Rules, m0: set<int>, es: seq<Entry>, now: seq<Entry>, cuts: seq<nat>,
                         order: seq<Entry> -> seq<Entry>)
  {
    && |es| == |now| > 0 && now[|now| - 1] == es[|es| - 1]
    && Alternates(rules, m0, es[..|es| - 1], now[..|now| - 1], cuts, order)
    && |cuts| > 0 && cuts[|cuts| - 1] == |now| - 1
  }

  /** Put the premises in front and, if asked, sort them and the decisions. */
  method AddPremises(rules: Rules, premise: seq<int>, sorted: bool, order: seq<Entry> -> seq<Entry>, q: DecisionQueue)
    returns (ghost cuts: seq<nat>)
    requires Refutation(rules, Given(premise), q.entries) && 0 !in premise
    requires forall s :: multiset(order(s)) == multiset(s)
    modifies q
    ensures |q.entries| >= |premise|
    ensures multiset(q.entries[..|premise|]) == multiset(Premises(premise))
    ensures multiset(q.entries[|premise|..]) == multiset(old(q.entries))
    ensures !sorted ==> q.entries == Premises(premise) + old(q.entries)
    ensures sorted ==> q.entries[..|premise|] == if |premise| > 1 then order(Premises(premise)) else Premises(premise)
    ensures sorted ==>
      Phases(rules, {1} + (set p | p in premise :: Abs(p)), old(q.entries), q.entries[|premise|..], cuts, order)
    ensures Refutation(rules, Given(premise), q.entries[|premise|..])
  {
    hide Refutation, Given, Premises, Phases;
    cuts := [];
    ghost var body, prem := q.entries, Premises(premise);
    var seen := InsertPremises(premise, q, prem);
    var i := |premise|;
    assert q.entries[..i] == prem && q.entries[i..] == body;
    if sorted {
      if i > 1 {
        SortPremises(q, i, order, prem, body);
      }
      GivenVars(premise);
      ghost var front := q.entries[..i];
      cuts := SortBody(rules, q, i, seen, order, Given(premise));
      assert q.entries[..i] == front;
    }
  }

  method SortPremises(q: DecisionQueue, i: nat, order: seq<Entry> -> seq<Entry>, ghost prem: seq<Entry>,
      ghost body: seq<Entry>)
    requires i == |prem| > 0 && q.entries == prem + body
    requires forall s :: multiset(order(s)) == multiset(s)
    modifies q
    ensures |q.entries| == |prem| + |body|
    ensures q.entries[i..] == body && multiset(q.entries[..i]) == multiset(prem)
    ensures q.entries[..i] == if i > 1 then order(prem) else prem
  {
    assert q.entries == [] + prem + body;
    ghost var run := SortRun(q, 0, i, order, [], prem, body);
    assert q.entries == run + body;
    assert q.entries[..i] == run;
  }

  method InsertPremises(premise: seq<int>, q: DecisionQueue, ghost prem: seq<Entry>) returns (seen: set<int>)
    requires |prem| == |premise| && forall i :: 0 <= i < |premise| ==> prem[i] == PremiseEntry(premise[i])
    modifies q
    ensures q.entries == prem + old(q.entries)
    ensures seen == {1} + (set p | p in premise :: Abs(p))
  {
    ghost var body := q.entries;
    seen := {1};
    var i := 0;
    while i < |premise|
      invariant 0 <= i <= |premise|
      invariant q.entries == prem[..i] + body
      invariant seen == {1} + (set p | p in premise[..i] :: Abs(p))
    {
      assert q.entries[..i] == prem[..i] && q.entries[i..] == body;
      q.entries := q.entries[..i] + [PremiseEntry(premise[i])] + q.entries[i..];
      seen := seen + {Abs(premise[i])};
      assert prem[..i + 1] == prem[..i] + [prem[i]];
      assert premise[..i + 1] == premise[..i] + [premise[i]];
      i := i + 1;
    }
    assert prem[..i] == prem && premise[..i] == premise;
  }

  lemma GivenVars(premise: seq<int>)
    requires 0 !in premise
    ensures VarsOf(Given(premise)) == {1} + (set p | p in premise :: Abs(p))
    ensures 0 !in Given(premise)
  {
    var g := Given(premise);
    forall v | v in {1} + (set p | p in premise :: Abs(p)) ensures v in VarsOf(g) {
      if v == 1 {
        assert 1 in g && Abs(1) == 1;
      } else {
        var p :| p in premise && Abs(p) == v;
        assert -p in g && Abs(-p) == Abs(p);
      }
    }
    forall v | v in VarsOf(g) ensures v in {1} + (set p | p in premise :: Abs(p)) {
      var x :| x in g && Abs(x) == v;
      if x != 1 { assert -x in premise && Abs(-x) == Abs(x); }
    }
  }

  /** Sort everything between the premises and the failing rule. */
  method SortBody(rules: Rules, q: DecisionQueue, i: nat, seen: set<int>, order: seq<Entry> -> seq<Entry>,
      ghost start: set<int>)
    returns (ghost cuts: seq<nat>)
    requires i <= |q.entries| && Refutation(rules, start, q.entries[i..]) && seen == VarsOf(start) && 0 !in start
    requires forall s :: multiset(order(s)) == multiset(s)
    modifies q
    ensures |q.entries| == |old(q.entries)| && q.entries[..i] == old(q.entries[..i])
    ensures multiset(q.entries[i..]) == multiset(old(q.entries[i..]))
    ensures Refutation(rules, start, q.entries[i..])
    ensures Phases(rules, seen, old(q.entries[i..]), q.entries[i..], cuts, order)
  {
    hide VarOrder, Refutation, Alternates;
    ghost var was, n := q.entries, |q.entries| - 1;
    NotEmpty(rules, start, was[i..]);
    ghost var es := was[i..n];
    assert was[i..] == es + [was[n]];
    RefutationOrder(rules, start, es, was[n]);
    var m;
    m, cuts := SortUnitDecisions(rules, q, i, |q.entries| - 1, seen, order);
    ghost var now := q.entries[i..n];
    assert q.entries[n..][0] == was[n..][0];
    assert q.entries[i..] == now + [was[n]];
    SortedRefutes(rules, start, es, now, was[n]);
    PhasesOf(rules, seen, es, now, was[n], cuts, order);
  }

  lemma PhasesOf(rules: Rules, m0: set<int>, es: seq<Entry>, now: seq<Entry>, last: Entry, cuts: seq<nat>,
                 order: seq<Entry> -> seq<Entry>)
    requires |es| == |now| && Alternates(rules, m0, es, now, cuts, order)
    requires |cuts| > 0 && cuts[|cuts| - 1] == |now|
    ensures Phases(rules, m0, es + [last], now + [last], cuts, order)
  {
    hide RunAt;
    assert (es + [last])[..|es|] == es && (now + [last])[..|now|] == now;
  }

  lemma NotEmpty(rules: Rules, start: set<int>, es: seq<Entry>)
    requires Refutation(rules, start, es)
    ensures |es| > 0
  {
  }

  lemma RefutationOrder(rules: Rules, start: set<int>, es: seq<Entry>, last: Entry)
    requires Refutation(rules, start, es + [last])
    ensures VarOrder(rules, VarsOf(start), es)
  {
    hide VarOrder, ValidOrder, Decided, Lits;
    assert (es + [last])[..|es|] == es;
    ValidIsVarOrder(rules, start, es);
  }

  /** Permuting the decisions into an order of variables keeps the refutation. */
  lemma SortedRefutes(rules: Rules, start: set<int>, es: seq<Entry>, now: seq<Entry>, last: Entry)
    requires Refutation(rules, start, es + [last]) && 0 !in start
    requires multiset(now) == multiset(es) && VarOrder(rules, VarsOf(start), now)
    ensures Refutation(rules, start, now + [last]) && multiset(now + [last]) == multiset(es + [last])
  {
    hide VarOrder, ValidOrder, Decided, Lits;
    assert (es + [last])[..|es|] == es && (now + [last])[..|now|] == now;
    SortedStaysValid(rules, start, es, now);
    SortedStaysDecided(start, es, now);
    MultisetVars(now, es);
  }

  lemma SortedStaysDecided(start: set<int>, es: seq<Entry>, sorted: seq<Entry>)
    requires Decided(start, es) && multiset(sorted) == multiset(es)
    ensures Decided(start, sorted)
  {
    MultisetVars(sorted, es);
    forall t | 0 <= t < |sorted| ensures sorted[t].lit != 0 && Abs(sorted[t].lit) !in VarsOf(start) {
      assert sorted[t] in es;
    }
    forall s, t | 0 <= s < t < |sorted| ensures Abs(sorted[s].lit) != Abs(sorted[t].lit) {
      assert sorted[s] in es && sorted[t] in es;
      if sorted[s] == sorted[t] { NoDuplicate(start, es, sorted, s, t); }
    }
  }

  /** A record cannot occur twice in a permutation of records that decide different variables. */
  lemma NoDuplicate(start: set<int>, es: seq<Entry>, sorted: seq<Entry>, s: nat, t: nat)
    requires Decided(start, es) && multiset(sorted) == multiset(es)
    requires s < t < |sorted|
    ensures sorted[s] != sorted[t]
  {
    AtMostOnce(start, es, sorted[s]);
    if sorted[s] == sorted[t] {
      Twice(sorted, s, t);
    }
  }

  lemma Twice(es: seq<Entry>, s: nat, t: nat)
    requires s < t < |es| && es[s] == es[t]
    ensures multiset(es)[es[s]] >= 2
  {
    assert es == es[..t] + [es[t]] + es[t + 1..];
    assert es[..t][s] == es[t];
    assert es[t] in multiset(es[..t]);
  }

  lemma AtMostOnce(start: set<int>, es: seq<Entry>, e: Entry)
    requires Decided(start, es)
    ensures multiset(es)[e] <= 1
  {
    if e in es {
      var u :| 0 <= u < |es| && es[u] == e;
      assert es == es[..u] + [es[u]] + es[u + 1..];
      assert e !in es[..u] && e !in es[u + 1..];
    }
  }
}
