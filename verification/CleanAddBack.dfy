/** The add-back pass: the least set of packages that has everything its members need. */
module CleanAddBack {
  import opened DepBlocks
  import opened CleanDeps
  import CleanRemove

  /** Both the set and the queue gained what s has and m did not have. */
  ghost predicate Gained(m: set<int>, q: seq<int>, m': set<int>, q': seq<int>, s: set<int>) {
    && m' == m + s
    && (forall p :: p in q' <==> p in q || p in s - m)
    && (m' == m ==> q' == q)
  }

  lemma GainedTwice(m: set<int>, q: seq<int>, m1: set<int>, q1: seq<int>, m2: set<int>, q2: seq<int>, s: set<int>,
      t: set<int>)
    requires Gained(m, q, m1, q1, s) && Gained(m1, q1, m2, q2, t)
    ensures Gained(m, q, m2, q2, s + t)
  {
    if m2 == m { assert m1 == m; }
  }

  class Keeper {
    const w: World
    const gone: set<int>
    var im: set<int>
    var iq: seq<int>

    constructor (world: World, erased: set<int>, im0: set<int>, iq0: seq<int>)
      ensures w == world && gone == erased && im == im0 && iq == iq0
    {
      w, gone, im, iq := world, erased, im0, iq0;
    }

    method Add(p: int)
      modifies `im, `iq
      ensures Gained(old(im), old(iq), im, iq, {p})
    {
      if p !in im {
        im, iq := im + {p}, iq + [p];
      }
    }

    method IsSatisfied(ip: int, l: seq<int>) returns (r: bool)
      requires ip > 0
      ensures r <==> Satisfied(w, ip, l)
    {
      for i := 0 to |l|
        invariant ip !in l[..i] && forall x :: x in l[..i] && x < 0 ==> -x in Installed(w)
      {
        assert l[..i + 1] == l[..i] + [l[i]];
        assert l[i] in l;
        if l[i] == ip || (l[i] < 0 && -l[i] !in Installed(w)) { return true; }
      }
      assert l[..|l|] == l;
      r := false;
    }

    /** Add what the block gives, which is s. */
    method AddBlock(ip: int, l: seq<int>) returns (ghost s: set<int>)
      requires ip > 0
      modifies `im, `iq
      ensures Gained(old(im), old(iq), im, iq, s) && forall p :: p in s <==> Gives(w, ip, gone, l, p)
    {
      hide Gained, Satisfied;
      NothingGained(im, iq);
      s := {};
      var done := IsSatisfied(ip, l);
      if done { return; }
      for i := 0 to |l|
        invariant Gained(old(im), old(iq), im, iq, s)
        invariant forall p :: p in s <==> p in l[..i] && p > 0 && p in Installed(w) && p != ip && p !in gone
      {
        assert l[..i + 1] == l[..i] + [l[i]];
        if l[i] > 0 && l[i] in Installed(w) && l[i] != ip && l[i] !in gone {
          ghost var m1, q1 := im, iq;
          Add(l[i]);
          GainedTwice(old(im), old(iq), m1, q1, im, iq, s, {l[i]});
          s := s + {l[i]};
        }
      }
      assert l[..|l|] == l;
    }

    method AddDep(ip: int, d: Dep) returns (ghost s: set<int>)
      requires Lists(w) && ip > 0
      modifies `im, `iq
      ensures Gained(old(im), old(iq), im, iq, s) && forall p :: p in s <==> DepBrings(w, ip, gone, d, p)
    {
      hide Gained, Gives, List;
      if !Complex(d) {
        s := AddBlock(ip, Providers(w.pool, d));
        return;
      }
      NothingGained(im, iq);
      s := {};
      var bs := w.cnf(d);
      for j := 0 to |bs|
        invariant Gained(old(im), old(iq), im, iq, s)
        invariant forall p :: p in s <==> exists k :: 0 <= k < j && Gives(w, ip, gone, bs[k], p)
      {
        ghost var m1, q1 := im, iq;
        ghost var t := AddBlock(ip, bs[j]);
        GainedTwice(old(im), old(iq), m1, q1, im, iq, s, t);
        s := s + t;
      }
    }

    method AddDeps(ip: int, ds: seq<Dep>) returns (ghost s: set<int>)
      requires Lists(w) && ip > 0
      modifies `im, `iq
      ensures Gained(old(im), old(iq), im, iq, s)
      ensures forall p :: p in s <==> exists d :: d in ds && DepBrings(w, ip, gone, d, p)
    {
      hide Gained, DepBrings;
      NothingGained(im, iq);
      s := {};
      for i := 0 to |ds|
        invariant Gained(old(im), old(iq), im, iq, s)
        invariant forall p :: p in s <==> exists k :: 0 <= k < i && DepBrings(w, ip, gone, ds[k], p)
      {
        ghost var m1, q1 := im, iq;
        ghost var t := AddDep(ip, ds[i]);
        GainedTwice(old(im), old(iq), m1, q1, im, iq, s, t);
        s := s + t;
      }
    }

    lemma NothingGained(m: set<int>, q: seq<int>)
      ensures Gained(m, q, m, q, {})
    {
    }

    method AddLockstep(ip: int) returns (ghost s: set<int>)
      modifies `im, `iq
      ensures Gained(old(im), old(iq), im, iq, s) && forall p :: p in s <==> ip in w.inst && p in w.lockstep(ip)
    {
      hide Gained;
      NothingGained(im, iq);
      s := {};
      if ip !in w.inst { return; }
      var l := w.lockstep(ip);
      for i := 0 to |l|
        invariant Gained(old(im), old(iq), im, iq, s)
        invariant forall p :: p in s <==> p in l[..i]
      {
        assert l[..i + 1] == l[..i] + [l[i]];
        ghost var m1, q1 := im, iq;
        Add(l[i]);
        GainedTwice(old(im), old(iq), m1, q1, im, iq, s, {l[i]});
        s := s + {l[i]};
      }
      assert l[..|l|] == l;
    }

    /** Add all that comes with ip. */
    method AddNeeds(ip: int)
      requires Lists(w) && ip > 0
      modifies `im, `iq
      ensures Gained(old(im), old(iq), im, iq, Brings(w, ip, gone))
    {
      hide Gained, DepBrings;
      ghost var s := AddLockstep(ip);
      ghost var m1, q1 := im, iq;
      ghost var t := AddDeps(ip, w.reqs(ip));
      GainedTwice(old(im), old(iq), m1, q1, im, iq, s, t);
      m1, q1 := im, iq;
      ghost var u := AddDeps(ip, w.recs(ip));
      GainedTwice(old(im), old(iq), m1, q1, im, iq, s + t, u);
      AllBrought(ip, s, t, u);
    }

    lemma AllBrought(ip: int, s: set<int>, t: set<int>, u: set<int>)
      requires Lists(w) && forall p :: p in s <==> ip in w.inst && p in w.lockstep(ip)
      requires forall p :: p in t <==> exists d :: d in w.reqs(ip) && DepBrings(w, ip, gone, d, p)
      requires forall p :: p in u <==> exists d :: d in w.recs(ip) && DepBrings(w, ip, gone, d, p)
      ensures s + t + u == Brings(w, ip, gone)
    {
      hide DepBrings;
      forall p | p in s + t + u ensures BringsIn(w, ip, gone, p) {
        if d :| (d in w.reqs(ip) || d in w.recs(ip)) && DepBrings(w, ip, gone, d, p) { assert Needed(w, ip, d); }
      }
      forall p | BringsIn(w, ip, gone, p) ensures p in s + t + u {
        if d :| Needed(w, ip, d) && DepBrings(w, ip, gone, d, p) {
          assert (d in w.reqs(ip) || d in w.recs(ip)) && DepBrings(w, ip, gone, d, p);
        }
      }
    }

    // ----- the pass -----

    /** What the kept packages and the jobs need is there, or they are still queued. */
    ghost predicate Served(jobs: seq<int>)
      requires Lists(w)
      reads this
    {
      forall ip :: ((ip in im && ip in w.inst) || ip in jobs) && ip !in iq ==> Brings(w, ip, gone) <= im
    }

    ghost predicate Queued(jobs: seq<int>)
      reads this
    {
      && SYSTEMSOLVABLE in im && im <= Installed(w)
      && forall ip :: ip in iq ==> ip > 0 && ((ip in im && ip in w.inst) || ip in jobs)
    }

    ghost predicate Least(im0: set<int>, jobs: seq<int>)
      requires Lists(w)
      reads this
    {
      forall x :: KeepsClosed(w, gone, jobs, x) && im0 <= x ==> im <= x
    }

    method TakeOne(ghost im0: set<int>, ghost jobs: seq<int>)
      requires WfWorld(w) && iq != [] && Queued(jobs) && Served(jobs) && Least(im0, jobs)
      modifies `im, `iq
      ensures Queued(jobs) && Served(jobs) && Least(im0, jobs)
      ensures old(im) <= im && (im == old(im) ==> |iq| < |old(iq)|)
    {
      hide Brings, AnyPossible, Gained, Valid;
      ghost var q0, m0 := iq, im;
      var ip := iq[0];
      iq := iq[1..];
      assert q0 == [ip] + iq && ip in q0;
      AddNeeds(ip);
      Progress(m0, q0, im0, jobs);
    }

    lemma Progress(m0: set<int>, q0: seq<int>, im0: set<int>, jobs: seq<int>)
      requires WfWorld(w) && q0 != [] && Gained(m0, q0[1..], im, iq, Brings(w, q0[0], gone))
      requires SYSTEMSOLVABLE in m0 && m0 <= Installed(w)
      requires forall ip :: ip in q0 ==> ip > 0 && ((ip in m0 && ip in w.inst) || ip in jobs)
      requires forall ip :: ((ip in m0 && ip in w.inst) || ip in jobs) && ip !in q0 ==> Brings(w, ip, gone) <= m0
      requires forall x :: KeepsClosed(w, gone, jobs, x) && im0 <= x ==> m0 <= x
      ensures Queued(jobs)
      ensures Served(jobs)
      ensures Least(im0, jobs)
      ensures m0 <= im && (im == m0 ==> |iq| < |q0|)
    {
      hide Brings, AnyPossible, Valid;
      var ip := q0[0];
      assert q0 == [ip] + q0[1..];
      ErasedNotGiven(w, ip, gone);
      forall p | p in Brings(w, ip, gone) && p !in m0 ensures p in w.inst && p > 0 {
        if p in w.lockstep(ip) { assert p in w.inst; }
      }
      assert im <= Installed(w);
      forall p | p in iq ensures p > 0 && ((p in im && p in w.inst) || p in jobs) {
        if p in q0[1..] { assert p in q0; }
      }
    }

    /** Bring back what the kept packages supplement. */
    method SupplementsRound(ghost im0: set<int>, ghost jobs: seq<int>)
      requires WfWorld(w) && iq == [] && Queued(jobs) && Least(im0, jobs)
      modifies `im, `iq
      ensures Queued(jobs) && Least(im0, jobs) && old(im) <= im
      ensures forall p :: p in iq <==> p in im - old(im)
      ensures iq == [] ==> im == old(im)
      ensures iq == [] ==> forall p :: p in w.inst && p !in gone && AnyPossible(w, w.supplements(p), im) ==> p in im
    {
      hide AnyPossible, Brings, Valid;
      for ip := w.first to w.past
        invariant Queued(jobs) && Least(im0, jobs) && old(im) <= im
        invariant forall p :: p in iq <==> p in im - old(im)
        invariant iq == [] ==> im == old(im)
        invariant iq == [] ==> forall p ::
          w.first <= p < ip && p in w.inst && p !in gone && AnyPossible(w, w.supplements(p), im) ==> p in im
      {
        if ip in w.inst && ip !in gone && ip !in im && AnyPossible(w, w.supplements(ip), im) {
          Supplemented(im0, jobs, ip);
          im, iq := im + {ip}, iq + [ip];
        }
      }
    }

    lemma Supplemented(im0: set<int>, jobs: seq<int>, ip: int)
      requires Lists(w) && Least(im0, jobs) && ip in w.inst && ip !in gone && AnyPossible(w, w.supplements(ip), im)
      ensures forall x :: KeepsClosed(w, gone, jobs, x) && im0 <= x ==> im + {ip} <= x
    {
      hide AnyPossible, Brings;
      forall x | KeepsClosed(w, gone, jobs, x) && im0 <= x ensures im + {ip} <= x {
        AnyPossibleGrows(w, w.supplements(ip), im, x);
      }
    }

    method AddBackPass(ghost jobs: seq<int>)
      requires WfWorld(w) && SYSTEMSOLVABLE in im && im <= Installed(w)
      requires forall p :: p in iq <==> (p in im && p in w.inst) || p in jobs
      requires forall p :: p in jobs ==> p > 0
      modifies `im, `iq
      ensures KeepsClosed(w, gone, jobs, im)
      ensures forall x :: KeepsClosed(w, gone, jobs, x) && old(im) <= x ==> im <= x
      ensures old(im) <= im <= Installed(w)
    {
      hide Served, Least, WfWorld, Brings, AnyPossible;
      ghost var im0 := im;
      Initially(jobs);
      while true
        invariant Queued(jobs) && Served(jobs) && Least(im0, jobs) && im0 <= im
        decreases |Installed(w) - im|, |iq|
      {
        ghost var m1 := im;
        if iq == [] {
          ghost var was := im;
          AllServed(jobs);
          SupplementsRound(im0, jobs);
          if iq == [] { break; }
          StillServed(was, jobs);
          assert iq[0] in im - m1;
        }
        ghost var m2 := im;
        TakeOne(im0, jobs);
        Shrinks(m1, m2);
      }
      Finally(im0, jobs);
    }

    lemma Shrinks(m1: set<int>, m2: set<int>)
      requires m1 <= m2 <= im <= Installed(w)
      ensures |Installed(w) - im| <= |Installed(w) - m1|
      ensures im != m1 ==> |Installed(w) - im| < |Installed(w) - m1|
    {
      if im - m1 == {} {
        assert forall p :: p in im ==> p !in im - m1;
        assert im == m1;
      } else {
        var x := CleanRemove.Member(im - m1);
        CleanRemove.Fewer(Installed(w) - im, Installed(w) - m1, x);
      }
    }

    lemma AllServed(jobs: seq<int>)
      requires Lists(w) && iq == [] && Served(jobs)
      ensures forall ip :: (ip in im && ip in w.inst) || ip in jobs ==> Brings(w, ip, gone) <= im
    {
      hide Brings;
    }

    lemma StillServed(was: set<int>, jobs: seq<int>)
      requires Lists(w) && was <= im && forall p :: p in iq <==> p in im - was
      requires forall ip :: (ip in was && ip in w.inst) || ip in jobs ==> Brings(w, ip, gone) <= was
      ensures Served(jobs)
    {
      hide Brings;
    }

    lemma Initially(jobs: seq<int>)
      requires WfWorld(w) && SYSTEMSOLVABLE in im && im <= Installed(w)
      requires forall p :: p in iq <==> (p in im && p in w.inst) || p in jobs
      requires forall p :: p in jobs ==> p > 0
      ensures Lists(w) && Queued(jobs) && Served(jobs) && Least(im, jobs)
    {
      hide Brings, AnyPossible, Valid;
    }

    lemma Finally(im0: set<int>, jobs: seq<int>)
      requires Lists(w) && iq == [] && Served(jobs) && Least(im0, jobs)
      requires forall p :: p in w.inst && p !in gone && AnyPossible(w, w.supplements(p), im) ==> p in im
      ensures KeepsClosed(w, gone, jobs, im)
      ensures forall x :: KeepsClosed(w, gone, jobs, x) && im0 <= x ==> im <= x
    {
      hide Brings, AnyPossible;
    }
  }
}
