/** The map of packages to clean up: remove, add back, and what that means for the packages that stay. */
module Cleanup {
  import opened Containers
  import opened DepBlocks
  import opened Normalize
  import opened CleanDeps
  import opened CleanRemove
  import opened CleanAddBack
  import opened Unneeded
  import opened EdgeBuild

  function Members(s: seq<int>): (r: set<int>)
    ensures forall p :: p in r <==> p in s
  {
    set p | p in s
  }

  /** The packages that are not added back: the erased and the updated ones. */
  function Gone(w: World, erases: seq<int>, updates: seq<int>, unneeded: bool): set<int> {
    (Members(erases) + if unneeded then {} else Members(updates)) * w.inst
  }

  /** `left` is what the remove pass leaves, `pins` what it would not remove, and `kept` the result of adding back. */
  method CreateCleandepsMap(w: World, userinstalled: set<int>, candidates: seq<int>, unneeded: bool, erases: seq<int>,
                            updates: seq<int>, jobs: seq<int>, seeds: seq<int>, mistakes: seq<int>)
    returns (cleandepsmap: set<int>, ghost left: set<int>, ghost pins: set<int>, ghost kept: set<int>)
    requires WfWorld(w) && userinstalled <= w.inst
    requires forall p :: p in jobs ==> p > 0
    ensures cleandepsmap
      == w.inst - kept - (if unneeded then {} else Members(seeds)) - Members(mistakes) - Members(candidates)
    ensures KeepsClosed(w, Gone(w, erases, updates, unneeded), jobs, kept)
    ensures forall x ::
      KeepsClosed(w, Gone(w, erases, updates, unneeded), jobs, x) && left - Members(erases) + {SYSTEMSOLVABLE} <= x ==>
        kept <= x
    ensures left - Members(erases) + {SYSTEMSOLVABLE} <= kept <= Installed(w)
    ensures unneeded ==> left == userinstalled + {SYSTEMSOLVABLE}
    ensures !unneeded ==> userinstalled - Members(candidates) - Members(updates) <= left
    ensures !unneeded ==> Removed(w, Installed(w), userinstalled - Members(candidates) - Members(updates),
                                  candidates + updates, left, pins)
    ensures !unneeded ==> forall p :: p in w.inst && p in left && p !in pins ==> !Orphan(w, p, left)
  {
    hide WfWorld, KeepsClosed, Removed, Orphan;
    var user, iq := userinstalled, candidates;
    if unneeded { iq := []; }
    user := user - Members(iq);
    if !unneeded {
      user, iq := user - Members(updates), iq + updates;
    }
    var im := (if unneeded then w.inst * user else w.inst) + {SYSTEMSOLVABLE};
    forall p | p in user ensures p in im {
    }
    ghost var user1 := user;
    var cleaner := new Cleaner(w, im, user, iq);
    cleaner.RemovePass(unneeded);
    left, pins := cleaner.im, cleaner.user;
    forall p | p in user1 ensures p in left {
    }
    im := cleaner.im - Members(erases) + {SYSTEMSOLVABLE};
    var queue := InstalledQueue(w, im, jobs);
    var keeper := new Keeper(w, Gone(w, erases, updates, unneeded), im, queue);
    keeper.AddBackPass(jobs);
    kept := keeper.im;
    im := keeper.im + (if unneeded then {} else Members(seeds)) + Members(mistakes) + Members(candidates);
    cleandepsmap := w.inst - im;
  }

  /** The installed packages of im in ascending order, then the job literals. */
  method InstalledQueue(w: World, im: set<int>, jobs: seq<int>) returns (q: seq<int>)
    requires WfWorld(w)
    ensures forall p :: p in q <==> (p in im && p in w.inst) || p in jobs
  {
    hide Valid;
    q := [];
    var p := w.first;
    while p < w.past
      invariant w.first <= p <= w.past
      invariant forall x :: x in q <==> x in im && x in w.inst && x < p
    {
      if p in im && p in w.inst { q := q + [p]; }
      p := p + 1;
    }
    q := q + jobs;
  }

  /** `solver_get_unneeded`: every installed package that nothing user-installed needs; `filtered`, only those no other
      unneeded package keeps. */
  method GetUnneeded(w: World, unneededq: Queue, userinstalled: set<int>, erases: seq<int>, jobs: seq<int>,
      mistakes: seq<int>, candidates: seq<int>, filtered: bool)
    returns (ghost all: seq<int>, ghost kept: set<int>, ghost edges: seq<int>, ghost nreq: seq<nat>)
    requires WfWorld(w) && userinstalled <= w.inst
    requires forall p :: p in jobs ==> p > 0
    modifies unneededq
    ensures forall p :: p in all <==> p in w.inst && p !in kept && p !in mistakes && p !in candidates
    ensures forall i, j :: 0 <= i < j < |all| ==> all[i] < all[j]
    ensures KeepsClosed(w, Gone(w, erases, [], true), jobs, kept)
    ensures forall x ::
      KeepsClosed(w, Gone(w, erases, [], true), jobs, x) && userinstalled - Members(erases) + {SYSTEMSOLVABLE} <= x ==>
        kept <= x
    ensures userinstalled - Members(erases) <= kept
    ensures !filtered || |all| < 2 ==> unneededq.elements == all
    ensures filtered && |all| >= 2 ==> Drawn(w, all, false, edges, nreq)
    ensures filtered && |all| >= 2 ==> unneededq.elements == Selected(all, KeptBy(edges, nreq, 2))
  {
    hide KeepsClosed, Drawn, KeptBy, Valid;
    edges, nreq := [], [];
    var cleaned;
    ghost var left, pins;
    cleaned, left, pins, kept := CreateCleandepsMap(w, userinstalled, candidates, true, erases, [], jobs, [], mistakes);
    assert left - Members(erases) + {SYSTEMSOLVABLE} == userinstalled - Members(erases) + {SYSTEMSOLVABLE};
    unneededq.elements := [];
    var p := w.first;
    while p < w.past
      invariant w.first <= p <= w.past
      invariant forall x :: x in unneededq.elements <==> x in cleaned && x in w.inst && x < p
      invariant forall i, j :: 0 <= i < j < |unneededq.elements| ==> unneededq.elements[i] < unneededq.elements[j]
    {
      assert forall i :: 0 <= i < |unneededq.elements| ==> unneededq.elements[i] in unneededq.elements;
      if p in cleaned { unneededq.Push(p); }
      p := p + 1;
    }
    all := unneededq.elements;
    if filtered {
      assert forall i :: 0 <= i < |all| ==> all[i] in all;
      edges, nreq := FilterPackages(w, unneededq, false);
    }
  }

  // ----- what it means -----

  /** The normaliser's result is a faithful set of blocks. */
  lemma NormalFaithful(w: World, d: Dep, was: seq<int>, now: seq<int>, r: int, bs: seq<Block>)
    requires WfWorld(w) && Means(w.pool, was, now, r, bs, false, false, Plainly(d))
    requires w.cnf(d) == if r == -1 then Plain(w.pool, bs) else []
    ensures Faithful(w, d)
  {
    hide Holds, Reads, Valid, GoodBlock, DepBlocks.Encode;
    forall a: set<int>
      ensures Holds(w.pool, d, false, a) <==> r == 1 || (r == -1 && Reads(w.cnf(d), false, a))
    {
      assert Eval(w.pool, Plainly(d), false, a) <==> Result(w.pool, r, bs, false, a);
    }
  }

  /** Nothing that is to be erased is kept. */
  lemma ErasedStaysOut(w: World, gone: set<int>, jobs: seq<int>, base: set<int>, kept: set<int>)
    requires WfWorld(w) && forall ip :: w.lockstep(ip) == []
    requires base <= Installed(w) - gone
    requires forall x :: KeepsClosed(w, gone, jobs, x) && base <= x ==> kept <= x
    ensures kept !! gone
  {
    hide KeepsClosed, Valid;
    RestClosed(w, gone, jobs);
  }

  /** What is in the map neither way: seeds of updates, mistakes and candidates. */
  function Exempt(candidates: seq<int>, unneeded: bool, seeds: seq<int>, mistakes: seq<int>): set<int> {
    (if unneeded then {} else Members(seeds)) + Members(mistakes) + Members(candidates)
  }

  /** Erase the packages of `gone` and clean up what they leave behind. What remains is what was kept and what is
      exempt, unless it is to be erased itself; and every need of a remaining package that was kept or that a job asks
      for, if erasing alone would not break it, is not broken by the cleanup either. */
  lemma CleanupIsSafe(w: World, candidates: seq<int>, unneeded: bool, erases: seq<int>, updates: seq<int>,
                      jobs: seq<int>, seeds: seq<int>, mistakes: seq<int>, kept: set<int>, cleaned: set<int>)
    requires WfWorld(w) && forall ip, d :: d in w.reqs(ip) || d in w.recs(ip) ==> Faithful(w, d)
    requires KeepsClosed(w, Gone(w, erases, updates, unneeded), jobs, kept)
    requires {SYSTEMSOLVABLE} <= kept <= Installed(w)
    requires cleaned
      == w.inst - kept - (if unneeded then {} else Members(seeds)) - Members(mistakes) - Members(candidates)
    ensures var gone := Gone(w, erases, updates, unneeded); var rest := Installed(w) - gone - cleaned;
      && rest == kept + Exempt(candidates, unneeded, seeds, mistakes) * w.inst - gone
      && forall ip, d |
           ip in rest && ip in w.inst && (ip in kept || ip in jobs) && (d in w.reqs(ip) || d in w.recs(ip)) ::
           (Holds(w.pool, d, false, Installed(w) - gone) ==> Holds(w.pool, d, false, rest))
  {
    hide KeepsClosed, Holds, Faithful, Valid;
    var gone := Gone(w, erases, updates, unneeded);
    var rest := Installed(w) - gone - cleaned;
    assert SYSTEMSOLVABLE !in w.inst;
    forall ip, d | ip in rest && ip in w.inst && (ip in kept || ip in jobs) && (d in w.reqs(ip) || d in w.recs(ip))
      && Holds(w.pool, d, false, Installed(w) - gone)
      ensures Holds(w.pool, d, false, rest)
    {
      NeedSurvives(w, gone, jobs, kept, rest, ip, d);
    }
  }

  /** Without architectures to keep in step, and if the remove pass leaves no updated package, nothing that is to be
      erased or updated is kept. If nothing else is exempt, exactly the kept packages remain. */
  lemma CleanupKeeps(w: World, candidates: seq<int>, unneeded: bool, erases: seq<int>, updates: seq<int>,
                     jobs: seq<int>, seeds: seq<int>, mistakes: seq<int>, left: set<int>, kept: set<int>)
    requires WfWorld(w) && (forall ip :: w.lockstep(ip) == []) && left <= Installed(w)
    requires unneeded || Members(updates) !! left
    requires forall x ::
      KeepsClosed(w, Gone(w, erases, updates, unneeded), jobs, x) && left - Members(erases) + {SYSTEMSOLVABLE} <= x ==>
        kept <= x
    ensures kept !! Gone(w, erases, updates, unneeded)
    ensures Exempt(candidates, unneeded, seeds, mistakes) * w.inst <= Gone(w, erases, updates, unneeded) ==>
      kept + Exempt(candidates, unneeded, seeds, mistakes) * w.inst - Gone(w, erases, updates, unneeded) == kept
  {
    hide KeepsClosed, Valid;
    var gone := Gone(w, erases, updates, unneeded);
    assert SYSTEMSOLVABLE !in w.inst;
    ErasedStaysOut(w, gone, jobs, left - Members(erases) + {SYSTEMSOLVABLE}, kept);
  }

  /** Adding back brings nothing exactly when what the remove pass leaves, without what is to be erased, is closed. Then
      the map has all that was removed, and with it everything that a removed package drags out, unless it is pinned or
      exempt. */
  lemma CleanupIsComplete(w: World, candidates: seq<int>, erases: seq<int>, updates: seq<int>, jobs: seq<int>,
                          seeds: seq<int>, mistakes: seq<int>, user: set<int>, left: set<int>, pins: set<int>,
                          kept: set<int>, cleaned: set<int>)
    requires WfWorld(w) && Removed(w, Installed(w), user, candidates + updates, left, pins)
    requires KeepsClosed(w, Gone(w, erases, updates, false), jobs, kept)
    requires left - Members(erases) + {SYSTEMSOLVABLE} <= kept
    requires forall x ::
      KeepsClosed(w, Gone(w, erases, updates, false), jobs, x) && left - Members(erases) + {SYSTEMSOLVABLE} <= x ==>
        kept <= x
    requires cleaned == w.inst - kept - Members(seeds) - Members(mistakes) - Members(candidates)
    ensures var base := left - Members(erases) + {SYSTEMSOLVABLE};
      && (kept == base <==> KeepsClosed(w, Gone(w, erases, updates, false), jobs, base))
      && (kept == base ==> cleaned == w.inst - base - Exempt(candidates, false, seeds, mistakes))
      && (kept == base ==> forall r, p :: r in Installed(w) && r !in left && DragsOut(w, r, p) && p in w.inst ==>
           p in pins || p in Exempt(candidates, false, seeds, mistakes) || p in cleaned)
  {
    hide KeepsClosed, Valid, DragsOut, PinsFounded, Reason, RemovalClosed;
    assert SYSTEMSOLVABLE !in w.inst;
  }
}
