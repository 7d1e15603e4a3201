/** What the check of a supplement says about its truth, and which packages it depends on. */
module SupplementChecks {
  import opened DepBlocks
  import opened CleanDeps
  import opened OrProviders

  // ----- possible and true -----

  /** No splitprovides namespace under the ANDs and ORs. */
  predicate Unsplit(w: World, d: Dep) {
    match d
    case And(a, b) => Unsplit(w, a) && Unsplit(w, b)
    case Or(a, b) => Unsplit(w, a) && Unsplit(w, b)
    case Cond(_, _) => true
    case Unless(_, _) => true
    case _ => !w.splitprovides(d)
  }

  /** No COND or UNLESS under the ANDs and ORs. */
  predicate Unconditional(d: Dep) {
    match d
    case And(a, b) => Unconditional(a) && Unconditional(b)
    case Or(a, b) => Unconditional(a) && Unconditional(b)
    case Cond(_, _) => false
    case Unless(_, _) => false
    case _ => true
  }

  lemma LeafPossible(w: World, d: Dep, m: set<int>)
    requires WfWorld(w) && !d.And? && !d.Or? && !d.Cond? && !d.Unless? && !w.splitprovides(d) && SYSTEMSOLVABLE in m
    ensures Possible(w, d, m) <==> LeafHolds(w.pool, d, false, m)
  {
    hide List;
    var l := Providers(w.pool, d);
    if l != [] && l[0] == SYSTEMSOLVABLE { assert l[0] in l; }
  }

  /** What is true is possible, and without conditions the other way round. */
  lemma {:induction false} PossibleTruth(w: World, d: Dep, m: set<int>)
    requires WfWorld(w) && Unsplit(w, d) && SYSTEMSOLVABLE in m
    ensures Truth(w.pool, d, false, m) ==> Possible(w, d, m)
    ensures Unconditional(d) && Possible(w, d, m) ==> Truth(w.pool, d, false, m)
    decreases d
  {
    hide LeafHolds, List, Valid;
    match d
    case And(a, b) =>
      PossibleTruth(w, a, m);
      PossibleTruth(w, b, m);
    case Or(a, b) =>
      PossibleTruth(w, a, m);
      PossibleTruth(w, b, m);
    case Cond(_, _) =>
    case Unless(_, _) =>
    case _ => LeafPossible(w, d, m);
  }

  // ----- the packages looked at -----

  /** The check of d reads the provider list of e: the sides of an AND, what a condition is about and what holds
      otherwise, but not the condition. */
  ghost predicate Consults(w: World, d: Dep, e: Dep)
    decreases d
  {
    if d.And? then Consults(w, d.name, e) || Consults(w, d.evr, e)
    else if d.Cond? || d.Unless? then Consults(w, d.name, e) || (d.evr.Else? && Consults(w, d.evr.evr, e))
    else e == d && !w.splitprovides(d)
  }

  /** The packages looked at are the providers read that are in m. */
  lemma {:induction false} PkgCheckMembers(w: World, d: Dep, m: set<int>, p: int)
    requires Lists(w)
    ensures p in PkgCheck(w, d, m) <==> p in m && exists e :: Consults(w, d, e) && p in Providers(w.pool, e)
    decreases d
  {
    hide List;
    if d.And? {
      PkgCheckMembers(w, d.name, m, p);
      PkgCheckMembers(w, d.evr, m, p);
    } else if d.Cond? || d.Unless? {
      PkgCheckMembers(w, d.name, m, p);
      if d.evr.Else? { PkgCheckMembers(w, d.evr.evr, m, p); }
    } else if p in m && p in Providers(w.pool, d) && !w.splitprovides(d) {
      assert Consults(w, d, d);
    }
  }

  /** For one provider list, every package looked at comes once. */
  lemma LookedOnce(w: World, d: Dep, m: set<int>)
    requires WfWorld(w) && !d.And? && !d.Cond? && !d.Unless? && !w.splitprovides(d)
    ensures |PkgCheck(w, d, m)| == |Common(Providers(w.pool, d), m)|
  {
    hide List, Among;
    assert ValidList(w.pool, w.pool.whatprovides(d));
    AmongSize(Providers(w.pool, d), m);
  }

  function Common(l: seq<int>, m: set<int>): set<int> {
    set p | p in l && p in m
  }

  lemma CommonStep(k: seq<int>, x: int, m: set<int>)
    requires x !in k
    ensures |Common(k + [x], m)| == |Common(k, m)| + if x in m then 1 else 0
  {
    assert Common(k + [x], m) == if x in m then Common(k, m) + {x} else Common(k, m);
  }

  lemma {:induction false} AmongSize(l: seq<int>, m: set<int>)
    requires Ascending(l)
    ensures |Among(l, m)| == |Common(l, m)|
  {
    hide Common;
    if l == [] {
      NothingCommon(m);
    } else {
      var k, x := l[..|l| - 1], l[|l| - 1];
      AmongSize(k, m);
      CommonStep(k, x, m);
      assert l == k + [x];
    }
  }

  lemma NothingCommon(m: set<int>)
    ensures Common([], m) == {}
  {
  }

  /** No complex dependency under an OR. */
  predicate PlainOrs(d: Dep)
    decreases d
  {
    match d
    case And(a, b) => PlainOrs(a) && PlainOrs(b)
    case Or(_, _) => !Complex(d)
    case _ => true
  }

  /** Nothing but the packages looked at decides whether a supplement is possible. */
  lemma {:induction false} LookedAtDecides(w: World, d: Dep, m: set<int>, n: set<int>)
    requires WfWorld(w) && PlainOrs(d) && Unsplit(w, d) && Unions(w.pool, d, false)
    requires (forall e :: w.splitprovides(e) ==> e.Simple?) && SYSTEMSOLVABLE in m && SYSTEMSOLVABLE in n
    requires forall p :: p in PkgCheck(w, d, m + n) ==> (p in m <==> p in n)
    ensures Possible(w, d, m) <==> Possible(w, d, n)
    decreases d
  {
    hide List, Valid, Among, Union;
    match d
    case And(a, b) =>
      LookedAtDecides(w, a, m, n);
      LookedAtDecides(w, b, m, n);
    case Or(a, b) => OrDecides(w, d, m, n);
    case Cond(_, _) =>
    case Unless(_, _) =>
    case _ => LeafDecides(w, d, m, n);
  }

  lemma LeafDecides(w: World, d: Dep, m: set<int>, n: set<int>)
    requires Lists(w) && !w.splitprovides(d) && !d.And? && !d.Or? && !d.Cond? && !d.Unless?
    requires forall p :: p in PkgCheck(w, d, m + n) ==> (p in m <==> p in n)
    ensures Possible(w, d, m) <==> Possible(w, d, n)
  {
    hide List;
  }

  lemma OrDecides(w: World, d: Dep, m: set<int>, n: set<int>)
    requires WfWorld(w) && d.Or? && !Complex(d) && Unsplit(w, d) && Unions(w.pool, d, false)
    requires (forall e :: w.splitprovides(e) ==> e.Simple?) && SYSTEMSOLVABLE in m && SYSTEMSOLVABLE in n
    requires forall p :: p in PkgCheck(w, d, m + n) ==> (p in m <==> p in n)
    ensures Possible(w, d, m) <==> Possible(w, d, n)
  {
    hide List, Valid, Truth, Possible, Unions, Unsplit;
    PlainUnconditional(d);
    PossibleTruth(w, d, m);
    PossibleTruth(w, d, n);
    HoldsIsTruth(w.pool, d, false, m);
    HoldsIsTruth(w.pool, d, false, n);
  }

  lemma {:induction false} PlainUnconditional(d: Dep)
    requires !Complex(d)
    ensures Unconditional(d)
    decreases d
  {
    match d
    case Or(a, b) =>
      PlainUnconditional(a);
      PlainUnconditional(b);
    case _ =>
  }
}
