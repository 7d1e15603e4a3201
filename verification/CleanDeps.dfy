/** What the cleanup of no longer needed packages looks at: installed packages, their dependencies, and the rules
    by which a package is dragged out or brought back. */
module CleanDeps {
  import opened DepBlocks

  /** `first..past` is the id range of the installed repository and `inst` its packages. `cnf` gives the blocks of a
      complex dependency, none for a constant one. `xsupp` are the supplements of erased namespaces; `lockstep` the
      packages kept together for their architecture. */
  datatype World = World(pool: Pool, first: nat, past: nat, inst: set<int>,
                         reqs: int -> seq<Dep>, recs: int -> seq<Dep>, supplements: int -> seq<Dep>,
                         cnf: Dep -> seq<seq<int>>,
                         splitprovides: Dep -> bool, splitpossible: Dep -> bool, xsupp: seq<Dep>,
                         lockstep: int -> seq<int>)

  ghost predicate Lists(w: World) {
    forall d :: w.pool.whatprovides(d) >= 0
  }

  ghost predicate WfWorld(w: World) {
    && Valid(w.pool)
    && Lists(w)
    && SYSTEMSOLVABLE < w.first <= w.past
    && (forall p :: p in w.inst ==> w.first <= p < w.past)
    && (forall ip, p :: p in w.lockstep(ip) ==> p in w.inst)
    && (forall d, j :: Complex(d) && 0 <= j < |w.cnf(d)| ==> 0 !in w.cnf(d)[j])
  }

  /** The installed packages and the system itself. */
  function Installed(w: World): set<int> {
    w.inst + {SYSTEMSOLVABLE}
  }

  /** The alternatives of a dependency: one provider list, or the blocks of its normal form. */
  function Blocks(w: World, d: Dep): seq<seq<int>>
    requires Lists(w)
  {
    if Complex(d) then w.cnf(d) else [Providers(w.pool, d)]
  }

  // ----- supplements -----

  /** `solver_dep_possible` */
  function Possible(w: World, d: Dep, m: set<int>): bool
    requires Lists(w)
    decreases d
  {
    if d.Cond? || d.Unless? then true
    else if d.And? then Possible(w, d.name, m) && Possible(w, d.evr, m)
    else if d.Or? then Possible(w, d.name, m) || Possible(w, d.evr, m)
    else if w.splitprovides(d) then w.splitpossible(d)
    else exists p :: p in Providers(w.pool, d) && p in m
  }

  lemma {:induction false} PossibleGrows(w: World, d: Dep, m: set<int>, n: set<int>)
    requires Lists(w)
    requires m <= n && Possible(w, d, m)
    ensures Possible(w, d, n)
    decreases d
  {
    hide List;
    if d.And? {
      PossibleGrows(w, d.name, m, n);
      PossibleGrows(w, d.evr, m, n);
    } else if d.Or? {
      if Possible(w, d.name, m) { PossibleGrows(w, d.name, m, n); } else { PossibleGrows(w, d.evr, m, n); }
    } else if !d.Cond? && !d.Unless? && !w.splitprovides(d) {
      var p :| p in Providers(w.pool, d) && p in m;
      assert p in n;
    }
  }

  /** The members of m in l. */
  function Among(l: seq<int>, m: set<int>): (r: seq<int>)
    ensures forall p :: p in r <==> p in l && p in m
  {
    if l == [] then [] else Among(l[..|l| - 1], m) + if l[|l| - 1] in m then [l[|l| - 1]] else []
  }

  /** `dep_pkgcheck`: the packages looked at when a dependency is checked. */
  function PkgCheck(w: World, d: Dep, m: set<int>): (r: seq<int>)
    requires Lists(w)
    ensures forall p :: p in r ==> p in m
    decreases d
  {
    if d.And? then PkgCheck(w, d.name, m) + PkgCheck(w, d.evr, m)
    else if d.Cond? || d.Unless? then PkgCheck(w, d.name, m) + if d.evr.Else? then PkgCheck(w, d.evr.evr, m) else []
    else if w.splitprovides(d) then []
    else Among(Providers(w.pool, d), m)
  }

  /** A supplement that brought its package in once. */
  predicate Was(w: World, d: Dep)
    requires Lists(w)
  {
    Possible(w, d, Installed(w)) || d in w.xsupp
  }

  predicate AnyPossible(w: World, ds: seq<Dep>, m: set<int>)
    requires Lists(w)
  {
    exists i :: 0 <= i < |ds| && Possible(w, ds[i], m)
  }

  predicate AnyWas(w: World, ds: seq<Dep>)
    requires Lists(w)
  {
    exists i :: 0 <= i < |ds| && Was(w, ds[i])
  }

  /** No longer supplemented. */
  predicate Orphan(w: World, ip: int, m: set<int>)
    requires Lists(w)
  {
    !AnyPossible(w, w.supplements(ip), m) && AnyWas(w, w.supplements(ip))
  }

  lemma AnyPossibleGrows(w: World, ds: seq<Dep>, m: set<int>, n: set<int>)
    requires Lists(w)
    requires m <= n && AnyPossible(w, ds, m)
    ensures AnyPossible(w, ds, n)
  {
    hide Possible;
    var i :| 0 <= i < |ds| && Possible(w, ds[i], m);
    PossibleGrows(w, ds[i], m, n);
  }

  // ----- what removing a package drags out -----

  ghost predicate Needed(w: World, ip: int, d: Dep) {
    d in w.reqs(ip) || d in w.recs(ip)
  }

  /** Literal i is p, and every negative literal in front of it is one of a package in m. */
  ghost predicate FrontAt(m: set<int>, l: seq<int>, p: int, i: int) {
    0 <= i < |l| && l[i] == p && p > 0 && forall k :: 0 <= k < i && l[k] < 0 ==> -l[k] in m
  }

  /** p is in the block with no negative literal of any other package than those of m in front. */
  ghost predicate InFront(m: set<int>, l: seq<int>, p: int) {
    exists i :: FrontAt(m, l, p, i)
  }

  /** p is a provider, or in front in some block of a complex dependency. */
  ghost predicate LeadsTo(w: World, m: set<int>, d: Dep, p: int)
    requires Lists(w)
  {
    if Complex(d) then exists j :: 0 <= j < |w.cnf(d)| && InFront(m, w.cnf(d)[j], p) else p in Providers(w.pool, d)
  }

  /** p may have been installed because of ip. */
  ghost predicate DragsOut(w: World, ip: int, p: int)
    requires Lists(w)
  {
    p != SYSTEMSOLVABLE && exists d :: Needed(w, ip, d) && LeadsTo(w, Installed(w), d, p)
  }

  /** In a shorter block. */
  lemma FrontShort(m: set<int>, l: seq<int>, n: nat, p: int, j: int)
    requires n <= |l|
    ensures FrontAt(m, l[..n], p, j) <==> j < n && FrontAt(m, l, p, j)
  {
    var s := l[..n];
    assert forall k :: 0 <= k < n ==> s[k] == l[k];
    if FrontAt(m, s, p, j) {
      forall k | 0 <= k < j && l[k] < 0 ensures -l[k] in m {
        assert s[k] == l[k];
      }
    }
  }

  lemma FrontWithin(m: set<int>, l: seq<int>, n: nat, p: int)
    requires n <= |l|
    ensures InFront(m, l[..n], p) <==> exists j :: j < n && FrontAt(m, l, p, j)
  {
    hide FrontAt;
    if j :| FrontAt(m, l[..n], p, j) { FrontShort(m, l, n, p, j); }
    if j :| j < n && FrontAt(m, l, p, j) { FrontShort(m, l, n, p, j); }
  }

  /** One literal further. */
  lemma FrontStep(m: set<int>, l: seq<int>, i: nat)
    requires i < |l| && forall k :: 0 <= k < i && l[k] < 0 ==> -l[k] in m
    ensures forall p :: InFront(m, l[..i + 1], p) <==> InFront(m, l[..i], p) || (p == l[i] && p > 0)
  {
    hide FrontAt, InFront;
    forall p ensures InFront(m, l[..i + 1], p) <==> InFront(m, l[..i], p) || (p == l[i] && p > 0) {
      FrontWithin(m, l, i, p);
      FrontWithin(m, l, i + 1, p);
      LastInFront(m, l, p, i);
      if j :| j < i + 1 && FrontAt(m, l, p, j) { assert j < i || j == i; }
    }
  }

  lemma LastInFront(m: set<int>, l: seq<int>, p: int, i: nat)
    requires i < |l| && forall k :: 0 <= k < i && l[k] < 0 ==> -l[k] in m
    ensures FrontAt(m, l, p, i) <==> p == l[i] && p > 0
  {
  }

  /** Nothing behind a negative literal of a package that is not in m is in front. */
  lemma FrontEnds(m: set<int>, l: seq<int>, i: nat)
    requires i < |l| && l[i] < 0 && -l[i] !in m
    ensures forall p :: InFront(m, l, p) <==> InFront(m, l[..i], p)
  {
    hide FrontAt;
    forall p ensures InFront(m, l, p) <==> InFront(m, l[..i], p) {
      FrontWithin(m, l, i, p);
      if j :| FrontAt(m, l, p, j) { NotBehind(m, l, p, i, j); }
    }
  }

  lemma NotBehind(m: set<int>, l: seq<int>, p: int, i: nat, j: int)
    requires i < |l| && l[i] < 0 && -l[i] !in m && FrontAt(m, l, p, j)
    ensures j < i
  {
  }

  /** A set of removals that is complete: it has the starting packages, what they drag out and what is left
      unsupplemented, user-installed packages excepted. */
  ghost predicate RemovalClosed(w: World, im: set<int>, user: set<int>, start: seq<int>, y: set<int>)
    requires Lists(w)
  {
    && (forall p :: p in start && p in im && p !in user ==> p in y)
    && (forall r, p :: r in y && DragsOut(w, r, p) && p in im && p !in user ==> p in y)
    && (forall p :: p in w.inst && p in im && p !in user && Orphan(w, p, im - y) ==> p in y)
  }

  // ----- what keeping a package brings back -----

  /** Nothing to do for a block that ip provides itself or that a missing package satisfies. */
  predicate Satisfied(w: World, ip: int, l: seq<int>) {
    ip in l || exists x :: x in l && x < 0 && -x !in Installed(w)
  }

  ghost predicate Gives(w: World, ip: int, gone: set<int>, l: seq<int>, p: int) {
    !Satisfied(w, ip, l) && p in l && p > 0 && p in Installed(w) && p != ip && p !in gone
  }

  ghost predicate DepBrings(w: World, ip: int, gone: set<int>, d: Dep, p: int)
    requires Lists(w)
  {
    if Complex(d) then exists j :: 0 <= j < |w.cnf(d)| && Gives(w, ip, gone, w.cnf(d)[j], p)
    else Gives(w, ip, gone, Providers(w.pool, d), p)
  }

  /** Keeping ip means keeping p. */
  ghost predicate BringsIn(w: World, ip: int, gone: set<int>, p: int)
    requires Lists(w)
  {
    (ip in w.inst && p in w.lockstep(ip)) || exists d :: Needed(w, ip, d) && DepBrings(w, ip, gone, d, p)
  }

  ghost function Brings(w: World, ip: int, gone: set<int>): (r: set<int>)
    requires Lists(w)
    ensures forall p :: p in r <==> BringsIn(w, ip, gone, p)
  {
    (set p | p in w.lockstep(ip) && BringsIn(w, ip, gone, p)) + set p | p in Installed(w) && BringsIn(w, ip, gone, p)
  }

  /** Everything that the kept packages and the jobs need is kept, and so is every package with a possible
      supplement. */
  ghost predicate KeepsClosed(w: World, gone: set<int>, jobs: seq<int>, x: set<int>)
    requires Lists(w)
  {
    && (forall ip :: (ip in x && ip in w.inst) || ip in jobs ==> Brings(w, ip, gone) <= x)
    && (forall p :: p in w.inst && p !in gone && AnyPossible(w, w.supplements(p), x) ==> p in x)
  }

  // ----- what closure means for the dependencies -----

  /** The blocks stand for the dependency, as the normaliser proves of its result; none for a constant. */
  ghost predicate Faithful(w: World, d: Dep)
    requires Valid(w.pool)
  {
    Complex(d) ==>
      if w.cnf(d) == [] then forall a, b :: Holds(w.pool, d, false, a) <==> Holds(w.pool, d, false, b)
      else forall a :: Holds(w.pool, d, false, a) <==> Reads(w.cnf(d), false, a)
  }

  lemma BlockKept(w: World, ip: int, gone: set<int>, l: seq<int>, rest: set<int>)
    requires ip in rest && ip > 0 && rest <= Installed(w) - gone
    requires forall p :: Gives(w, ip, gone, l, p) ==> p in rest
    requires AnyTrue(l, Installed(w) - gone) && 0 !in l
    ensures AnyTrue(l, rest)
  {
    var x :| x in l && LitTrue(x, Installed(w) - gone);
    if x < 0 {
      assert -x !in rest;
      assert LitTrue(x, rest);
    } else if ip in l {
      assert LitTrue(ip, rest);
    } else if y :| y in l && y < 0 && -y !in Installed(w) {
      assert LitTrue(y, rest);
    } else {
      assert Gives(w, ip, gone, l, x);
      assert LitTrue(x, rest);
    }
  }

  lemma NoZero(w: World, d: Dep, j: nat)
    requires WfWorld(w) && j < |Blocks(w, d)|
    ensures 0 !in Blocks(w, d)[j]
  {
    hide List;
    assert ValidList(w.pool, w.pool.whatprovides(d));
  }

  lemma LeafReads(pool: Pool, d: Dep, chosen: set<int>)
    requires Valid(pool) && !Complex(d) && SYSTEMSOLVABLE in chosen
    ensures Holds(pool, d, false, chosen) <==> AnyTrue(Providers(pool, d), chosen)
  {
    hide List;
    var l := Providers(pool, d);
    assert ValidList(pool, pool.whatprovides(d));
    if l != [] && l[0] == SYSTEMSOLVABLE { assert LitTrue(l[0], chosen); }
    if AnyTrue(l, chosen) {
      var x :| x in l && LitTrue(x, chosen);
      assert x in chosen;
    }
    if p :| p in l && p in chosen { assert LitTrue(p, chosen); }
  }

  lemma AlternativesSuffice(w: World, d: Dep, a: set<int>, b: set<int>)
    requires WfWorld(w) && Faithful(w, d) && SYSTEMSOLVABLE in a && SYSTEMSOLVABLE in b
    requires forall j :: 0 <= j < |Blocks(w, d)| && AnyTrue(Blocks(w, d)[j], a) ==> AnyTrue(Blocks(w, d)[j], b)
    requires Holds(w.pool, d, false, a)
    ensures Holds(w.pool, d, false, b)
  {
    hide Holds, List, Valid, AnyTrue;
    if Complex(d) {
      if w.cnf(d) != [] {
        assert Reads(w.cnf(d), false, a);
        forall i | 0 <= i < |w.cnf(d)| ensures AnyTrue(w.cnf(d)[i], b) {
          assert AnyTrue(Blocks(w, d)[i], a);
        }
      }
    } else {
      LeafReads(w.pool, d, a);
      LeafReads(w.pool, d, b);
      assert Blocks(w, d)[0] == Providers(w.pool, d);
    }
  }

  /** The point of adding back: what a kept package, or one that a job asks for, needs and would still have if only the
      packages to erase were gone, it still has in whatever rest holds all that was kept and is not to be erased. */
  lemma NeedSurvives(w: World, gone: set<int>, jobs: seq<int>, kept: set<int>, rest: set<int>, ip: int, d: Dep)
    requires WfWorld(w) && KeepsClosed(w, gone, jobs, kept)
    requires kept - gone <= rest <= Installed(w) - gone && SYSTEMSOLVABLE in rest
    requires ip in rest && ip in w.inst && (ip in kept || ip in jobs)
    requires (d in w.reqs(ip) || d in w.recs(ip)) && Faithful(w, d)
    requires Holds(w.pool, d, false, Installed(w) - gone)
    ensures Holds(w.pool, d, false, rest)
  {
    hide Holds, List, Gives, AnyTrue, Valid, AnyPossible, Faithful, BringsIn;
    assert Brings(w, ip, gone) <= kept;
    forall j | 0 <= j < |Blocks(w, d)| && AnyTrue(Blocks(w, d)[j], Installed(w) - gone)
      ensures AnyTrue(Blocks(w, d)[j], rest)
    {
      var l := Blocks(w, d)[j];
      NoZero(w, d, j);
      forall p | Gives(w, ip, gone, l, p) ensures p in rest {
        GivenBrought(w, ip, gone, d, j, p);
        NotGone(w, ip, gone, l, p);
      }
      BlockKept(w, ip, gone, l, rest);
    }
    AlternativesSuffice(w, d, Installed(w) - gone, rest);
  }

  lemma GivenBrought(w: World, ip: int, gone: set<int>, d: Dep, j: nat, p: int)
    requires Lists(w) && Needed(w, ip, d) && j < |Blocks(w, d)| && Gives(w, ip, gone, Blocks(w, d)[j], p)
    ensures BringsIn(w, ip, gone, p)
  {
    hide Gives, List, Needed;
    assert DepBrings(w, ip, gone, d, p);
  }

  lemma NotGone(w: World, ip: int, gone: set<int>, l: seq<int>, p: int)
    requires Gives(w, ip, gone, l, p)
    ensures p !in gone
  {
  }

  lemma ErasedNotGiven(w: World, ip: int, gone: set<int>)
    requires Lists(w)
    ensures Brings(w, ip, gone) <= (Installed(w) - gone) + set p | p in w.lockstep(ip)
  {
    hide Satisfied, List, Needed;
    forall p | p in Brings(w, ip, gone) && p !in w.lockstep(ip) ensures p in Installed(w) - gone {
      var d :| Needed(w, ip, d) && DepBrings(w, ip, gone, d, p);
    }
  }

  /** Without architectures to keep in step, no package to erase is ever needed: the others are closed. */
  lemma RestClosed(w: World, gone: set<int>, jobs: seq<int>)
    requires WfWorld(w) && forall ip :: w.lockstep(ip) == []
    ensures KeepsClosed(w, gone, jobs, Installed(w) - gone)
  {
    hide AnyPossible, Brings;
    forall ip ensures Brings(w, ip, gone) <= Installed(w) - gone {
      ErasedNotGiven(w, ip, gone);
    }
  }
}
