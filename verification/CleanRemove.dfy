/** The remove pass: packages dragged out from a queue, and rounds that look for supplements that no longer hold. */
module CleanRemove {
  import opened Common
  import opened DepBlocks
  import opened CleanDeps

  // ----- a supplements round -----

  /** Installed packages that the lost supplements look at. */
  function LostPins(w: World, ds: seq<Dep>, im: set<int>): (r: set<int>)
    requires Lists(w)
    ensures r <= w.inst
  {
    if ds == [] then {}
    else
      var d := ds[|ds| - 1];
      LostPins(w, ds[..|ds| - 1], im) + if Was(w, d) then set p | p in PkgCheck(w, d, im) && p in w.inst else {}
  }

  /** An installed package that a lost supplement of ip looks at. */
  ghost predicate LookedAt(w: World, ip: int, im: set<int>, p: int)
    requires Lists(w)
  {
    p in w.inst && exists d :: d in w.supplements(ip) && Was(w, d) && p in PkgCheck(w, d, im)
  }

  lemma {:induction false} LostPinsMember(w: World, ds: seq<Dep>, im: set<int>, p: int)
    requires Lists(w)
    ensures p in LostPins(w, ds, im) <==> p in w.inst && exists d :: d in ds && Was(w, d) && p in PkgCheck(w, d, im)
  {
    hide Was, PkgCheck;
    if ds != [] {
      var k, d := ds[..|ds| - 1], ds[|ds| - 1];
      LostPinsMember(w, k, im, p);
      assert ds == k + [d];
    }
  }

  lemma LostPinsAre(w: World, ip: int, im: set<int>)
    requires Lists(w)
    ensures forall p :: p in LostPins(w, w.supplements(ip), im) <==> LookedAt(w, ip, im, p)
  {
    hide Was, PkgCheck, LostPins;
    forall p ensures p in LostPins(w, w.supplements(ip), im) <==> LookedAt(w, ip, im, p) {
      LostPinsMember(w, w.supplements(ip), im, p);
    }
  }

  function Copies(w: World, ds: seq<Dep>, ip: int): (r: seq<int>)
    requires Lists(w)
    ensures forall p :: p in r ==> p == ip
  {
    if ds == [] then [] else Copies(w, ds[..|ds| - 1], ip) + if Was(w, ds[|ds| - 1]) then [ip] else []
  }

  /** Pins and queue after the packages below `hi`. */
  function Round(w: World, im: set<int>, user: set<int>, hi: nat): (r: (set<int>, seq<int>))
    requires Lists(w)
    decreases hi
  {
    if hi <= w.first then (user, [])
    else
      var (u, q), ip := Round(w, im, user, hi - 1), hi - 1;
      if ip in w.inst && ip in im && ip !in u && !AnyPossible(w, w.supplements(ip), im)
      then (u + LostPins(w, w.supplements(ip), im), q + Copies(w, w.supplements(ip), ip)) else (u, q)
  }

  lemma {:induction false} CopiesEmpty(w: World, ds: seq<Dep>, ip: int)
    requires Lists(w)
    ensures Copies(w, ds, ip) == [] <==> !AnyWas(w, ds)
    ensures Copies(w, ds, ip) == [] ==> forall im :: LostPins(w, ds, im) == {}
  {
    hide Was, PkgCheck;
    if ds != [] {
      var ds' := ds[..|ds| - 1];
      CopiesEmpty(w, ds', ip);
      if AnyWas(w, ds) && !Was(w, ds[|ds| - 1]) {
        var i :| 0 <= i < |ds| && Was(w, ds[i]);
        assert ds'[i] == ds[i];
      }
      if AnyWas(w, ds') {
        var i :| 0 <= i < |ds'| && Was(w, ds'[i]);
        assert ds[i] == ds'[i];
      }
    }
  }

  /** Pins only grow. What is queued is an orphan that was not pinned before the round, and what its lost supplements
      look at is pinned. Every other orphan is pinned, and a round that queues nothing pins nothing. */
  lemma {:induction false} RoundFacts(w: World, im: set<int>, user: set<int>, hi: nat)
    requires Lists(w) && user <= w.inst
    ensures var (u, q) := Round(w, im, user, hi);
      && user <= u <= w.inst
      && (forall p :: p in q ==> p in w.inst && p in im && p !in user && Orphan(w, p, im))
      && (forall p, x :: p in q && LookedAt(w, p, im, x) ==> x in u)
      && (forall p :: w.first <= p < hi && p in w.inst && p in im && p !in u && Orphan(w, p, im) ==> p in q)
      && (q == [] ==> u == user)
    decreases hi
  {
    hide AnyPossible, AnyWas, LostPins, Copies, LookedAt;
    if hi > w.first {
      RoundFacts(w, im, user, hi - 1);
      CopiesEmpty(w, w.supplements(hi - 1), hi - 1);
      LostPinsAre(w, hi - 1, im);
      var q, c := Round(w, im, user, hi - 1).1, Copies(w, w.supplements(hi - 1), hi - 1);
      if c != [] { assert c[0] in c; }
    }
  }

  // ----- why a package is pinned -----

  /** p is looked at by a lost supplement of ip, which nothing in im supplements any more. */
  ghost predicate PinnedFor(w: World, im0: set<int>, user0: set<int>, im: set<int>, ip: int, p: int)
    requires Lists(w)
  {
    ip in w.inst && ip in im0 && ip !in user0 && Orphan(w, ip, im) && LookedAt(w, ip, im0, p)
  }

  /** Every pin that was not there before has such a reason. */
  ghost predicate PinsFounded(w: World, im0: set<int>, user0: set<int>, im: set<int>, user: set<int>)
    requires Lists(w)
  {
    forall p :: p in user && p !in user0 ==> exists ip :: PinnedFor(w, im0, user0, im, ip, p)
  }

  lemma {:induction false} PkgCheckGrows(w: World, d: Dep, m: set<int>, n: set<int>)
    requires Lists(w) && m <= n
    ensures forall p :: p in PkgCheck(w, d, m) ==> p in PkgCheck(w, d, n)
    decreases d
  {
    hide List;
    if d.And? {
      PkgCheckGrows(w, d.name, m, n);
      PkgCheckGrows(w, d.evr, m, n);
    } else if d.Cond? || d.Unless? {
      PkgCheckGrows(w, d.name, m, n);
      if d.evr.Else? { PkgCheckGrows(w, d.evr.evr, m, n); }
    }
  }

  lemma LookedAtGrows(w: World, ip: int, m: set<int>, n: set<int>, p: int)
    requires Lists(w) && m <= n && LookedAt(w, ip, m, p)
    ensures LookedAt(w, ip, n, p)
  {
    hide PkgCheck, Was;
    var d :| d in w.supplements(ip) && Was(w, d) && p in PkgCheck(w, d, m);
    PkgCheckGrows(w, d, m, n);
  }

  /** A reason does not go away when more is removed. */
  lemma FoundedStays(w: World, im0: set<int>, user0: set<int>, im: set<int>, user: set<int>, im': set<int>)
    requires Lists(w) && PinsFounded(w, im0, user0, im, user) && im' <= im
    ensures PinsFounded(w, im0, user0, im', user)
  {
    hide AnyPossible, AnyWas, LookedAt;
    forall p | p in user && p !in user0 ensures exists ip :: PinnedFor(w, im0, user0, im', ip, p) {
      var ip :| PinnedFor(w, im0, user0, im, ip, p);
      if AnyPossible(w, w.supplements(ip), im') { AnyPossibleGrows(w, w.supplements(ip), im', im); }
      assert PinnedFor(w, im0, user0, im', ip, p);
    }
  }

  lemma {:induction false} RoundPins(w: World, im: set<int>, user: set<int>, hi: nat)
    requires Lists(w) && user <= w.inst
    ensures PinsFounded(w, im, user, im, Round(w, im, user, hi).0)
    decreases hi
  {
    hide AnyPossible, AnyWas, LostPins, Copies, LookedAt;
    if hi > w.first {
      RoundPins(w, im, user, hi - 1);
      RoundFacts(w, im, user, hi - 1);
      LostPinsAre(w, hi - 1, im);
      CopiesEmpty(w, w.supplements(hi - 1), hi - 1);
      var u, u', ip := Round(w, im, user, hi - 1).0, Round(w, im, user, hi).0, hi - 1;
      forall p | p in u' && p !in user ensures exists x :: PinnedFor(w, im, user, im, x, p) {
        if p !in u { assert PinnedFor(w, im, user, im, ip, p); }
      }
    }
  }

  /** Pins of a later round have reasons from the start. */
  lemma FoundedJoin(w: World, im0: set<int>, user0: set<int>, im: set<int>, u: set<int>, user: set<int>)
    requires Lists(w) && im <= im0 && user0 <= u
    requires PinsFounded(w, im0, user0, im, u) && PinsFounded(w, im, u, im, user)
    ensures PinsFounded(w, im0, user0, im, user)
  {
    hide Orphan, LookedAt;
    forall p | p in user && p !in user0 ensures exists ip :: PinnedFor(w, im0, user0, im, ip, p) {
      if p !in u {
        var ip :| PinnedFor(w, im, u, im, ip, p);
        LookedAtGrows(w, ip, im, im0, p);
        assert PinnedFor(w, im0, user0, im, ip, p);
      }
    }
  }

  // ----- why a package is removed -----

  /** Nothing in m supplemented ip any more, and all that its lost supplements looked at in m is pinned and stays. */
  ghost predicate LostAt(w: World, im: set<int>, user: set<int>, m: set<int>, ip: int)
    requires Lists(w)
  {
    im <= m && ip in m && ip in w.inst && Orphan(w, ip, m) && forall p :: LookedAt(w, ip, m, p) ==> p in user && p in im
  }

  /** It was there from the start, a removed package drags it out, or it lost its supplements on the way from im0 to
      im. */
  ghost predicate Reason(w: World, im0: set<int>, start: seq<int>, im: set<int>, user: set<int>, ip: int)
    requires Lists(w)
  {
    || ip in start
    || (exists r :: r in im0 && r !in im && DragsOut(w, r, ip))
    || exists m :: m <= im0 && LostAt(w, im, user, m, ip)
  }

  lemma ReasonStays(w: World, im0: set<int>, start: seq<int>, im: set<int>, user: set<int>, im': set<int>,
                    user': set<int>, ip: int)
    requires Lists(w) && Reason(w, im0, start, im, user, ip)
    requires im' <= im && user <= user' && forall p :: p in im && p in user ==> p in im'
    ensures Reason(w, im0, start, im', user', ip)
  {
    hide Orphan, LookedAt, DragsOut;
    if r :| r in im0 && r !in im && DragsOut(w, r, ip) {
    } else if ip !in start {
      var m :| m <= im0 && LostAt(w, im, user, m, ip);
      assert LostAt(w, im', user', m, ip);
    }
  }

  /** What the remove pass achieves, from im0 and its pins user0 to im and user: what is still there of the start,
      and of what the removed packages drag out, is pinned; pins have reasons; and so have removals: nothing went
      without need. */
  ghost predicate Removed(w: World, im0: set<int>, user0: set<int>, start: seq<int>, im: set<int>, user: set<int>)
    requires Lists(w)
  {
    && (forall p :: p in start && p in im ==> p in user)
    && (forall r, p :: r in im0 && r !in im && DragsOut(w, r, p) && p in im ==> p in user)
    && PinsFounded(w, im0, user0, im, user)
    && (forall p :: p in im0 && p !in im ==> Reason(w, im0, start, im, user, p))
    && (forall y :: RemovalClosed(w, im0, user0, start, y) ==> im0 - im <= y)
  }

  class Cleaner {
    const w: World
    var im: set<int>
    var user: set<int>
    var iq: seq<int>

    constructor (world: World, im0: set<int>, user0: set<int>, iq0: seq<int>)
      ensures w == world && im == im0 && user == user0 && iq == iq0
    {
      w, im, user, iq := world, im0, user0, iq0;
    }

    method DepPkgCheck(d: Dep)
      requires Lists(w)
      modifies `iq
      ensures iq == old(iq) + PkgCheck(w, d, im)
      decreases d
    {
      hide Among, Lists;
      if d.And? {
        DepPkgCheck(d.name);
        DepPkgCheck(d.evr);
        Appended(old(iq), PkgCheck(w, d.name, im), PkgCheck(w, d.evr, im));
      } else if d.Cond? || d.Unless? {
        DepPkgCheck(d.name);
        if d.evr.Else? { DepPkgCheck(d.evr.evr); }
        Appended(old(iq), PkgCheck(w, d.name, im), if d.evr.Else? then PkgCheck(w, d.evr.evr, im) else []);
      } else if !w.splitprovides(d) {
        PushProviders(d);
      }
    }

    lemma Appended(a: seq<int>, b: seq<int>, c: seq<int>)
      ensures (a + b) + c == a + (b + c) && a + b + [] == a + b
    {
    }

    method PushProviders(d: Dep)
      requires Lists(w)
      modifies `iq
      ensures iq == old(iq) + Among(Providers(w.pool, d), im)
    {
      PushAmong(Providers(w.pool, d));
    }

    method PushAmong(l: seq<int>)
      modifies `iq
      ensures iq == old(iq) + Among(l, im)
    {
      ghost var q0 := iq;
      for i := 0 to |l|
        invariant iq == q0 + Among(l[..i], im)
      {
        assert l[..i + 1][..i] == l[..i];
        if l[i] in im { iq := iq + [l[i]]; }
      }
      assert l[..|l|] == l;
    }

    /** Pin what a supplement looks at, with the end of the queue as scratch space. */
    method Pin(d: Dep)
      requires Lists(w)
      modifies `iq, `user
      ensures user == old(user) + set p | p in PkgCheck(w, d, im) && p in w.inst
      ensures iq == old(iq)
    {
      hide PkgCheck;
      var count := |iq|;
      ghost var q1, u1 := iq, user;
      DepPkgCheck(d);
      for k := count to |iq|
        invariant iq == q1 + PkgCheck(w, d, im)
        invariant forall p :: p in user <==> p in u1 || (p in iq[count..k] && p in w.inst)
      {
        OneFurther(iq, count, k);
        if iq[k] in w.inst { user := user + {iq[k]}; }
      }
      TailOf(q1, PkgCheck(w, d, im));
      assert iq[count..|iq|] == PkgCheck(w, d, im);
      ghost var pins := set p | p in PkgCheck(w, d, im) && p in w.inst;
      assert forall p :: p in user <==> p in u1 || p in pins;
      iq := iq[..count];
    }

    lemma OneFurther(q: seq<int>, i: nat, k: nat)
      requires i <= k < |q|
      ensures forall p :: p in q[i..k + 1] <==> p in q[i..k] || p == q[k]
    {
      assert q[i..k + 1] == q[i..k] + [q[k]];
    }

    lemma TailOf(q: seq<int>, l: seq<int>)
      ensures (q + l)[|q|..|q + l|] == l && (q + l)[..|q|] == q
    {
    }

    /** Pin what the lost supplements of ip look at, and queue ip. */
    method Orphaned(ip: int)
      requires Lists(w)
      modifies `iq, `user
      ensures user == old(user) + LostPins(w, w.supplements(ip), im)
      ensures iq == old(iq) + Copies(w, w.supplements(ip), ip)
    {
      hide Was, PkgCheck;
      var ds := w.supplements(ip);
      ghost var u0, q0 := user, iq;
      for i := 0 to |ds|
        invariant user == u0 + LostPins(w, ds[..i], im) && iq == q0 + Copies(w, ds[..i], ip)
      {
        assert ds[..i + 1][..i] == ds[..i];
        if Was(w, ds[i]) {
          Pin(ds[i]);
          iq := iq + [ip];
        }
      }
      assert ds[..|ds|] == ds;
    }

    method SupplementsRound()
      requires Lists(w) && w.first <= w.past && iq == []
      modifies `iq, `user
      ensures (user, iq) == Round(w, im, old(user), w.past)
    {
      hide LostPins, Copies, AnyPossible;
      for ip := w.first to w.past
        invariant (user, iq) == Round(w, im, old(user), ip)
      {
        if ip in w.inst && ip in im && ip !in user && !AnyPossible(w, w.supplements(ip), im) {
          Orphaned(ip);
        }
      }
    }

    // ----- what a removed package drags out -----

    /** Queue the packages of a block up to its first negative literal of a missing package. */
    method PushFront(l: seq<int>)
      modifies `iq
      ensures forall p ::
        p in iq <==> p in old(iq) || (p in im && p != SYSTEMSOLVABLE && InFront(Installed(w), l, p))
    {
      hide InFront, Installed;
      var i := 0;
      assert l[..|l|] == l;
      NothingInFront(Installed(w));
      while i < |l|
        invariant 0 <= i <= |l| && forall k :: 0 <= k < i && l[k] < 0 ==> -l[k] in Installed(w)
        invariant forall p ::
          p in iq <==> p in old(iq) || (p in im && p != SYSTEMSOLVABLE && InFront(Installed(w), l[..i], p))
      {
        var p := l[i];
        if p < 0 && -p !in Installed(w) {
          FrontEnds(Installed(w), l, i);
          break;
        }
        FrontStep(Installed(w), l, i);
        if p > 0 && p != SYSTEMSOLVABLE && p in im { iq := iq + [p]; }
        i := i + 1;
      }
    }

    lemma NothingInFront(m: set<int>)
      ensures forall p :: !InFront(m, [], p)
    {
    }

    method PushPlain(l: seq<int>)
      modifies `iq
      ensures forall p :: p in iq <==> p in old(iq) || (p in im && p != SYSTEMSOLVABLE && p in l)
    {
      for i := 0 to |l|
        invariant forall p :: p in iq <==> p in old(iq) || (p in im && p != SYSTEMSOLVABLE && p in l[..i])
      {
        assert l[..i + 1] == l[..i] + [l[i]];
        if l[i] != SYSTEMSOLVABLE && l[i] in im { iq := iq + [l[i]]; }
      }
      assert l[..|l|] == l;
    }

    /** Queue what a dependency leads to. */
    method PushDep(d: Dep)
      requires Lists(w)
      modifies `iq
      ensures forall p ::
        p in iq <==> p in old(iq) || (p in im && p != SYSTEMSOLVABLE && LeadsTo(w, Installed(w), d, p))
    {
      hide InFront, Installed, List;
      if !Complex(d) {
        PushPlain(Providers(w.pool, d));
        return;
      }
      var bs := w.cnf(d);
      for j := 0 to |bs|
        invariant forall p :: p in iq <==>
          p in old(iq) || (p in im && p != SYSTEMSOLVABLE && exists k :: 0 <= k < j && InFront(Installed(w), bs[k], p))
      {
        PushFront(bs[j]);
      }
    }

    method PushDeps(ds: seq<Dep>)
      requires Lists(w)
      modifies `iq
      ensures forall p :: p in iq <==>
        p in old(iq) || (p in im && p != SYSTEMSOLVABLE && exists d :: d in ds && LeadsTo(w, Installed(w), d, p))
    {
      hide LeadsTo, Installed;
      for i := 0 to |ds|
        invariant forall p :: p in iq <==>
          p in old(iq) ||
          (p in im && p != SYSTEMSOLVABLE && exists k :: 0 <= k < i && LeadsTo(w, Installed(w), ds[k], p))
      {
        PushDep(ds[i]);
      }
    }

    /** Queue what the removed package drags out. */
    method PushDrags(ip: int)
      requires Lists(w)
      modifies `iq
      ensures forall p :: p in iq <==> p in old(iq) || (p in im && DragsOut(w, ip, p))
    {
      hide LeadsTo, Installed;
      PushDeps(w.reqs(ip));
      PushDeps(w.recs(ip));
    }

    // ----- the pass -----

    /** What was removed is settled: whatever it drags out is removed, pinned or still queued. */
    ghost predicate Settled(im0: set<int>, start: seq<int>)
      requires Lists(w)
      reads this
    {
      && (forall p :: p in start && p in im ==> p in iq || p in user)
      && (forall r, p :: r in im0 && r !in im && DragsOut(w, r, p) && p in im ==> p in iq || p in user)
    }

    /** Nothing but what must go is removed or queued. */
    ghost predicate Justified(im0: set<int>, user0: set<int>, start: seq<int>)
      requires Lists(w)
      reads this
    {
      forall y :: RemovalClosed(w, im0, user0, start, y) ==>
        im0 - im <= y && forall p :: p in iq && p in im0 && p !in user0 ==> p in y
    }

    /** Whatever is removed or queued has a reason. */
    ghost predicate Reasoned(im0: set<int>, start: seq<int>)
      requires Lists(w)
      reads this
    {
      forall p :: p in iq || (p in im0 && p !in im) ==> Reason(w, im0, start, im, user, p)
    }

    /** More pins, and a queue of orphans instead of an empty one. */
    lemma RoundReasoned(im0: set<int>, start: seq<int>, u: set<int>)
      requires Lists(w) && im <= im0 && u <= user
      requires forall p :: p in im0 && p !in im ==> Reason(w, im0, start, im, u, p)
      requires forall p :: p in iq ==> p in w.inst && p in im && Orphan(w, p, im)
      requires forall p, x :: p in iq && LookedAt(w, p, im, x) ==> x in user
      ensures Reasoned(im0, start)
    {
      hide Orphan, DragsOut, Reason, PkgCheck, Was;
      forall p | p in im0 && p !in im ensures Reason(w, im0, start, im, user, p) {
        ReasonStays(w, im0, start, im, u, im, user, p);
      }
      forall p | p in iq ensures Reason(w, im0, start, im, user, p) {
        assert LostAt(w, im, user, im, p);
        LostHere(im0, start, p);
      }
    }

    lemma LostHere(im0: set<int>, start: seq<int>, p: int)
      requires Lists(w) && im <= im0 && LostAt(w, im, user, im, p)
      ensures Reason(w, im0, start, im, user, p)
    {
      hide LostAt, DragsOut;
    }

    /** One package less, and what it drags out is queued. */
    lemma TakenReasoned(im0: set<int>, start: seq<int>, m: set<int>, q: seq<int>, ip: int)
      requires Lists(w) && im == m - {ip} && ip in m && m <= im0 && ip !in user
      requires forall p :: p in q || (p in im0 && p !in m) ==> Reason(w, im0, start, m, user, p)
      requires ip in q && forall p :: p in iq ==> p in q || DragsOut(w, ip, p)
      ensures Reasoned(im0, start)
    {
      hide DragsOut, Reason;
      forall p | p in q || (p in im0 && p !in im) ensures Reason(w, im0, start, im, user, p) {
        ReasonStays(w, im0, start, m, user, im, user, p);
      }
      forall p | DragsOut(w, ip, p) ensures Reason(w, im0, start, im, user, p) {
        Dragged(im0, start, ip, p);
      }
    }

    lemma Dragged(im0: set<int>, start: seq<int>, r: int, p: int)
      requires Lists(w) && r in im0 && r !in im && DragsOut(w, r, p)
      ensures Reason(w, im0, start, im, user, p)
    {
      hide DragsOut, LostAt;
    }

    lemma RoundJustified(im0: set<int>, user0: set<int>, start: seq<int>, q: seq<int>)
      requires Lists(w) && im <= im0 && forall y :: RemovalClosed(w, im0, user0, start, y) ==> im0 - im <= y
      requires forall p :: p in q ==> p in w.inst && p in im && Orphan(w, p, im)
      ensures forall y, p :: RemovalClosed(w, im0, user0, start, y) && p in q && p !in user0 ==> p in y
    {
      hide AnyPossible, DragsOut, AnyWas;
      forall y, p | RemovalClosed(w, im0, user0, start, y) && p in q && p !in user0 ensures p in y {
        assert im0 - y <= im;
        if AnyPossible(w, w.supplements(p), im0 - y) { AnyPossibleGrows(w, w.supplements(p), im0 - y, im); }
      }
    }

    /** A supplements round in the middle of the pass. */
    method Refill(ghost im0: set<int>, ghost user0: set<int>, ghost start: seq<int>)
      requires WfWorld(w) && iq == [] && im <= im0 && user0 <= user <= w.inst
      requires Settled(im0, start) && Justified(im0, user0, start) && Reasoned(im0, start)
      requires PinsFounded(w, im0, user0, im, user)
      modifies `iq, `user
      ensures old(user) <= user <= w.inst
      ensures Settled(im0, start) && Justified(im0, user0, start) && Reasoned(im0, start)
      ensures PinsFounded(w, im0, user0, im, user)
      ensures iq == [] ==> user == old(user) && forall p :: p in w.inst && p in im && p !in user ==> !Orphan(w, p, im)
      ensures forall p :: p in iq ==> p in w.inst && p in im && p !in old(user)
    {
      hide Orphan, DragsOut, Valid, RemovalClosed, PinsFounded, Reason, LookedAt;
      SupplementsRound();
      RoundFacts(w, im, old(user), w.past);
      RoundPins(w, im, old(user), w.past);
      FoundedJoin(w, im0, user0, im, old(user), user);
      RoundJustified(im0, user0, start, iq);
      RoundReasoned(im0, start, old(user));
    }

    /** Remove the next package of the queue, unless it is gone or pinned. */
    method TakeOne(ghost im0: set<int>, ghost user0: set<int>, ghost start: seq<int>)
      requires Lists(w) && iq != [] && im <= im0 <= Installed(w) && user0 <= user <= w.inst
      requires Settled(im0, start) && Justified(im0, user0, start) && Reasoned(im0, start)
      modifies `iq, `im
      ensures Settled(im0, start) && Justified(im0, user0, start) && Reasoned(im0, start)
      ensures if old(iq)[0] in old(im) && old(iq)[0] !in user then im == old(im) - {old(iq)[0]}
        else im == old(im) && |iq| < |old(iq)|
    {
      hide Orphan, DragsOut, RemovalClosed, Reason;
      var ip := iq[0];
      ghost var q0 := iq;
      iq := iq[1..];
      assert q0 == [ip] + iq;
      if ip !in im || ip !in Installed(w) || (ip in w.inst && ip in user) { return; }
      TakenJustified(im0, user0, start, ip);
      im := im - {ip};
      PushDrags(ip);
      TakenReasoned(im0, start, old(im), q0, ip);
    }

    lemma TakenJustified(im0: set<int>, user0: set<int>, start: seq<int>, ip: int)
      requires Lists(w) && user0 <= w.inst && ip in im0 && ip !in user0
      ensures forall y :: RemovalClosed(w, im0, user0, start, y) && ip in y ==>
        forall p :: DragsOut(w, ip, p) && p in im0 && p !in user0 ==> p in y
    {
      hide Orphan, DragsOut;
    }

    method RemovePass(unneeded: bool)
      requires WfWorld(w) && im <= Installed(w) && user <= w.inst
      modifies this
      ensures im <= old(im) && old(user) <= user <= w.inst && iq == []
      ensures unneeded && old(iq) == [] ==> im == old(im) && user == old(user)
      ensures forall p :: p in old(user) && p in old(im) ==> p in im
      ensures Removed(w, old(im), old(user), old(iq), im, user)
      ensures !unneeded ==> forall p :: p in w.inst && p in im && p !in user ==> !Orphan(w, p, im)
    {
      hide Settled, Justified, Reasoned, Orphan, WfWorld, PinsFounded, Removed;
      ghost var im0, user0, start := im, user, iq;
      Initially(unneeded);
      while true
        invariant im <= im0 && user0 <= user <= w.inst
        invariant unneeded && start == [] ==> im == im0 && user == user0 && iq == []
        invariant forall p :: p in user0 && p in im0 ==> p in im
        invariant Settled(im0, start) && Justified(im0, user0, start) && Reasoned(im0, start)
        invariant PinsFounded(w, im0, user0, im, user)
        decreases |im| + |w.inst - user|, |iq|
      {
        ghost var u1 := user;
        if iq == [] {
          if unneeded { break; }
          Refill(im0, user0, start);
          if iq == [] { break; }
          FewerLeft(w.inst, u1, user);
          if iq[0] in user { Fewer(w.inst - user, w.inst - u1, iq[0]); }
        }
        ghost var ip, was := iq[0], im;
        TakeOne(im0, user0, start);
        FoundedStays(w, im0, user0, was, user, im);
        if im != was { Fewer(im, was, ip); }
      }
      Finally(im0, user0, start);
    }

    lemma Initially(unneeded: bool)
      requires WfWorld(w)
      ensures Lists(w) && Settled(im, iq) && Justified(im, user, iq) && Reasoned(im, iq)
      ensures PinsFounded(w, im, user, im, user)
    {
      hide Orphan, DragsOut, Valid;
    }

    lemma Finally(im0: set<int>, user0: set<int>, start: seq<int>)
      requires Lists(w) && iq == [] && Settled(im0, start) && Justified(im0, user0, start) && Reasoned(im0, start)
      requires PinsFounded(w, im0, user0, im, user)
      ensures Removed(w, im0, user0, start, im, user)
    {
      hide PinsFounded, RemovalClosed, DragsOut, Reason;
    }
  }

  lemma Member<T>(s: set<T>) returns (x: T)
    requires s != {}
    ensures x in s
  {
    x :| x in s;
  }

  lemma Fewer(a: set<int>, b: set<int>, x: int)
    requires a <= b && x in b && x !in a
    ensures |a| < |b|
  {
    SubsetSize(a, b - {x});
  }

  lemma FewerLeft(all: set<int>, a: set<int>, b: set<int>)
    requires a <= b
    ensures all - b <= all - a && |all - b| <= |all - a|
  {
    SubsetSize(all - b, all - a);
  }
}
