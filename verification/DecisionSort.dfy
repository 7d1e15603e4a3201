/** Reordering a block of unit-rule decisions into alternating conflict and install phases. */
module DecisionSort {

  /** One eight-slot decision record. */
  datatype Entry = Entry(lit: int, reason: int, rid: nat, bits: int, typ: int, from: int, to: int, dep: int)

  /** The literals of every rule. */
  type Rules = nat -> seq<int>

  class DecisionQueue {
    var entries: seq<Entry>

    /** `move_decision`: move the entry at `from` to the smaller position `to`. */
    method MoveDecision(to: nat, from: nat)
      requires to <= from < |entries|
      modifies this
      ensures entries == old(entries)[..to] + [old(entries)[from]] + old(entries)[to..from] + old(entries)[from + 1..]
    {
      entries := entries[..to] + [entries[from]] + entries[to..];
      entries := entries[..from + 1] + entries[from + 2..];
    }
  }

  function Abs(p: int): nat {
    if p >= 0 then p else -p
  }

  ghost function Lits(es: seq<Entry>): set<int> {
    set i | 0 <= i < |es| :: es[i].lit
  }

  ghost function Vars(es: seq<Entry>): set<int> {
    set i | 0 <= i < |es| :: Abs(es[i].lit)
  }

  ghost function VarsOf(lits: set<int>): set<int> {
    set p | p in lits :: Abs(p)
  }

  // ----- a valid unit-propagation order -----

  /** The rule of `e` is unit: it holds the literal `e` decides, and all its other literals are false. */
  ghost predicate UnitUnder(rules: Rules, e: Entry, true_: set<int>) {
    e.lit in rules(e.rid) && forall p :: p in rules(e.rid) && p != e.lit ==> -p in true_
  }

  /** Every decision is forced by its rule under the decisions before it. */
  ghost predicate ValidOrder(rules: Rules, start: set<int>, es: seq<Entry>) {
    forall t :: 0 <= t < |es| ==> UnitUnder(rules, es[t], start + Lits(es[..t]))
  }

  /** No variable is decided twice. */
  ghost predicate Decided(start: set<int>, es: seq<Entry>) {
    && (forall s, t :: 0 <= s < t < |es| ==> Abs(es[s].lit) != Abs(es[t].lit))
    && (forall t :: 0 <= t < |es| ==> es[t].lit != 0 && Abs(es[t].lit) !in VarsOf(start))
  }

  // ----- the same on the variables alone, which is what the map m records -----

  predicate UnitVars(rules: Rules, e: Entry, m: set<int>) {
    forall i :: 0 <= i < |rules(e.rid)| ==> rules(e.rid)[i] == e.lit || Abs(rules(e.rid)[i]) in m
  }

  ghost predicate VarOrder(rules: Rules, m: set<int>, es: seq<Entry>)
    decreases |es|
  {
    es == [] || (UnitVars(rules, es[0], m) && VarOrder(rules, m + {Abs(es[0].lit)}, es[1..]))
  }

  /** Phases alternate between conflicts and installs. */
  predicate SignOk(doing: bool, e: Entry) {
    if doing then e.lit < 0 else e.lit >= 0
  }

  /** A phase takes the entries of its sign whose rule is unit already. */
  predicate Takes(rules: Rules, doing: bool, m: set<int>, e: Entry) {
    SignOk(doing, e) && UnitVars(rules, e, m)
  }

  ghost function Taken(rules: Rules, doing: bool, m: set<int>, es: seq<Entry>): seq<Entry> {
    if es == [] then [] else (if Takes(rules, doing, m, es[0]) then [es[0]] else []) + Taken(rules, doing, m, es[1..])
  }

  ghost function Left(rules: Rules, doing: bool, m: set<int>, es: seq<Entry>): seq<Entry> {
    if es == [] then [] else (if Takes(rules, doing, m, es[0]) then [] else [es[0]]) + Left(rules, doing, m, es[1..])
  }

  // ----- what the phases leave behind -----

  /** s in the order of es, with some records of es left out. */
  ghost predicate InOrder(s: seq<Entry>, es: seq<Entry>)
    decreases |es|
  {
    s == [] || (es != [] && ((s[0] == es[0] && InOrder(s[1..], es[1..])) || InOrder(s, es[1..])))
  }

  /** A run of records of one sign, all unit under m, in front of `rest`, which has no other such record. If there are
      several, they stand as `order` returned them for their order in es. */
  ghost predicate Run(rules: Rules, m: set<int>, conflicts: bool, run: seq<Entry>, rest: seq<Entry>, es: seq<Entry>,
                      order: seq<Entry> -> seq<Entry>)
  {
    && (forall e :: e in run ==> (e.lit < 0 <==> conflicts) && UnitVars(rules, e, m))
    && (forall e :: e in rest && (e.lit < 0 <==> conflicts) ==> !UnitVars(rules, e, m))
    && exists s :: InOrder(s, es) && run == if |s| > 1 then order(s) else s
  }

  /** The run between two cut points comes after the variables of the records in front of it. */
  ghost predicate RunAt(rules: Rules, m0: set<int>, es: seq<Entry>, now: seq<Entry>, cuts: seq<nat>, k: nat,
                        order: seq<Entry> -> seq<Entry>)
    requires k + 1 < |cuts|
  {
    && cuts[k] <= cuts[k + 1] <= |now|
    && Run(rules, m0 + Vars(now[..cuts[k]]), k % 2 == 0, now[cuts[k]..cuts[k + 1]], now[cuts[k + 1]..], es, order)
  }

  /** Runs of alternating signs, conflicts first. */
  ghost predicate Alternates(rules: Rules, m0: set<int>, es: seq<Entry>, now: seq<Entry>, cuts: seq<nat>,
                             order: seq<Entry> -> seq<Entry>)
  {
    |cuts| > 0 && cuts[0] == 0 && forall k :: 0 <= k < |cuts| - 1 ==> RunAt(rules, m0, es, now, cuts, k, order)
  }

  lemma {:induction false} InOrderSelf(es: seq<Entry>)
    ensures InOrder(es, es)
    decreases |es|
  {
    if es != [] { InOrderSelf(es[1..]); }
  }

  lemma {:induction false} InOrderTwice(a: seq<Entry>, b: seq<Entry>, c: seq<Entry>)
    requires InOrder(a, b) && InOrder(b, c)
    ensures InOrder(a, c)
    decreases |c|
  {
    if a != [] {
      if InOrder(b, c[1..]) {
        InOrderTwice(a, b, c[1..]);
      } else if a[0] == b[0] && InOrder(a[1..], b[1..]) {
        InOrderTwice(a[1..], b[1..], c[1..]);
      } else {
        InOrderTwice(a, b[1..], c[1..]);
      }
    }
  }

  /** A phase takes everything it can, and keeps the order on both sides. */
  lemma {:induction false} PhaseParts(rules: Rules, doing: bool, m: set<int>, es: seq<Entry>)
    ensures InOrder(Taken(rules, doing, m, es), es) && InOrder(Left(rules, doing, m, es), es)
    ensures forall e :: e in Taken(rules, doing, m, es) ==> Takes(rules, doing, m, e)
    ensures forall e :: e in Left(rules, doing, m, es) ==> !Takes(rules, doing, m, e)
    decreases |es|
  {
    hide Takes;
    if es != [] {
      PhaseParts(rules, doing, m, es[1..]);
      var t, l := Taken(rules, doing, m, es[1..]), Left(rules, doing, m, es[1..]);
      assert [] + t == t && [] + l == l;
      assert ([es[0]] + t)[1..] == t && ([es[0]] + l)[1..] == l;
    }
  }

  /** The order of the records behind a run does not matter, nor does what `es` leaves out. */
  lemma RunKeeps(rules: Rules, m: set<int>, conflicts: bool, run: seq<Entry>, rest: seq<Entry>, es: seq<Entry>,
                 order: seq<Entry> -> seq<Entry>, rest': seq<Entry>, es': seq<Entry>)
    requires Run(rules, m, conflicts, run, rest, es, order)
    requires multiset(rest') == multiset(rest) && InOrder(es, es')
    ensures Run(rules, m, conflicts, run, rest', es', order)
  {
    hide UnitVars, InOrder;
    forall e | e in rest' ensures e in rest {
      assert e in multiset(rest');
    }
    var s :| InOrder(s, es) && run == if |s| > 1 then order(s) else s;
    InOrderTwice(s, es, es');
  }

  lemma PhaseIsRun(rules: Rules, doing: bool, m: set<int>, es: seq<Entry>, run: seq<Entry>,
                   order: seq<Entry> -> seq<Entry>)
    requires forall s :: multiset(order(s)) == multiset(s)
    requires run
      == if |Taken(rules, doing, m, es)| > 1 then order(Taken(rules, doing, m, es)) else Taken(rules, doing, m, es)
    ensures Run(rules, m, doing, run, Left(rules, doing, m, es), es, order)
    ensures InOrder(Left(rules, doing, m, es), es)
  {
    hide UnitVars, Taken, Left, InOrder;
    var taken := Taken(rules, doing, m, es);
    PhaseParts(rules, doing, m, es);
    assert multiset(run) == multiset(taken);
    forall e | e in run ensures e in taken {
      assert e in multiset(run);
    }
  }

  /** One more run behind the last cut point. */
  lemma AlternatesStep(rules: Rules, m0: set<int>, es: seq<Entry>, was: seq<Entry>, now: seq<Entry>, cuts: seq<nat>,
                       order: seq<Entry> -> seq<Entry>, i: nat, k: nat)
    requires Alternates(rules, m0, es, was, cuts, order) && cuts[|cuts| - 1] == i <= k <= |was| == |now|
    requires now[..i] == was[..i] && multiset(now[i..]) == multiset(was[i..])
    requires InOrder(was[i..], es)
    requires Run(rules, m0 + Vars(was[..i]), |cuts| % 2 == 1, now[i..k], now[k..], was[i..], order)
    ensures Alternates(rules, m0, es, now, cuts + [k], order)
  {
    hide Run, InOrder, Vars, RunAt;
    var c := cuts + [k];
    forall j | 0 <= j < |c| - 1 ensures RunAt(rules, m0, es, now, c, j, order) {
      if j == |cuts| - 1 {
        LastRun(rules, m0, es, was, now, c, order, i, k);
      } else {
        CutsBelow(rules, m0, es, was, cuts, order, j + 1);
        EarlierRun(rules, m0, es, was, now, cuts, order, i, k, j);
      }
    }
  }

  lemma LastRun(rules: Rules, m0: set<int>, es: seq<Entry>, was: seq<Entry>, now: seq<Entry>, c: seq<nat>,
                order: seq<Entry> -> seq<Entry>, i: nat, k: nat)
    requires |c| > 1 && c[|c| - 2] == i <= k == c[|c| - 1] && k <= |was| == |now|
    requires now[..i] == was[..i] && InOrder(was[i..], es)
    requires Run(rules, m0 + Vars(was[..i]), |c| % 2 == 0, now[i..k], now[k..], was[i..], order)
    ensures RunAt(rules, m0, es, now, c, |c| - 2, order)
  {
    hide Run, InOrder, Vars;
    RunKeeps(rules, m0 + Vars(was[..i]), |c| % 2 == 0, now[i..k], now[k..], was[i..], order, now[k..], es);
  }

  lemma EarlierRun(rules: Rules, m0: set<int>, es: seq<Entry>, was: seq<Entry>, now: seq<Entry>, cuts: seq<nat>,
                   order: seq<Entry> -> seq<Entry>, i: nat, k: nat, j: nat)
    requires j + 1 < |cuts| && cuts[j + 1] <= i <= |was| == |now| && RunAt(rules, m0, es, was, cuts, j, order)
    requires now[..i] == was[..i] && multiset(now[i..]) == multiset(was[i..])
    ensures RunAt(rules, m0, es, now, cuts + [k], j, order)
  {
    hide Run, InOrder, Vars;
    var a, b := cuts[j], cuts[j + 1];
    InOrderSelf(es);
    SamePieces(was, now, i, a, b);
    RunKeeps(rules, m0 + Vars(was[..a]), j % 2 == 0, was[a..b], was[b..], es, order, now[b..], es);
  }

  lemma {:induction false} CutsBelow(rules: Rules, m0: set<int>, es: seq<Entry>, now: seq<Entry>, cuts: seq<nat>,
                                     order: seq<Entry> -> seq<Entry>, j: nat)
    requires Alternates(rules, m0, es, now, cuts, order) && j < |cuts|
    ensures cuts[j] <= cuts[|cuts| - 1]
    decreases |cuts| - j
  {
    hide Run, Vars;
    if j < |cuts| - 1 {
      assert RunAt(rules, m0, es, now, cuts, j, order);
      CutsBelow(rules, m0, es, now, cuts, order, j + 1);
    }
  }

  lemma SamePieces(was: seq<Entry>, now: seq<Entry>, i: nat, a: nat, b: nat)
    requires a <= b <= i <= |was| == |now|
    requires now[..i] == was[..i] && multiset(now[i..]) == multiset(was[i..])
    ensures now[..a] == was[..a] && now[a..b] == was[a..b] && multiset(now[b..]) == multiset(was[b..])
  {
    Pieces(now, i, a, b);
    Pieces(was, i, a, b);
  }

  lemma Pieces(es: seq<Entry>, i: nat, a: nat, b: nat)
    requires a <= b <= i <= |es|
    ensures es[..a] == es[..i][..a] && es[a..b] == es[..i][a..b] && es[b..] == es[..i][b..] + es[i..]
  {
    Slice(es, 0, i, 0, a);
    Slice(es, 0, i, a, b);
    Slice(es, 0, i, b, i);
    assert es[b..] == es[b..i] + es[i..];
  }

  lemma Slice(es: seq<Entry>, a: nat, b: nat, x: nat, y: nat)
    requires x <= y && a + y <= b <= |es|
    ensures es[a..b][x..y] == es[a + x..a + y]
  {
    var c := es[a..b];
    forall t | 0 <= t < y - x ensures c[x..y][t] == es[a + x..a + y][t] {
      assert c[x + t] == es[a + x + t];
    }
    assert |c[x..y]| == |es[a + x..a + y]|;
  }

  lemma VarsAppend(a: seq<Entry>, b: seq<Entry>)
    ensures Vars(a + b) == Vars(a) + Vars(b)
    ensures Lits(a + b) == Lits(a) + Lits(b)
  {
    var c := a + b;
    forall v | v in Vars(a) + Vars(b) ensures v in Vars(c) {
      if v in Vars(a) { var i :| 0 <= i < |a| && Abs(a[i].lit) == v; assert c[i] == a[i]; }
      else { var i :| 0 <= i < |b| && Abs(b[i].lit) == v; assert c[|a| + i] == b[i]; }
    }
    forall v | v in Lits(a) + Lits(b) ensures v in Lits(c) {
      if v in Lits(a) { var i :| 0 <= i < |a| && a[i].lit == v; assert c[i] == a[i]; }
      else { var i :| 0 <= i < |b| && b[i].lit == v; assert c[|a| + i] == b[i]; }
    }
  }

  lemma VarsOne(e: Entry)
    ensures Vars([e]) == {Abs(e.lit)} && Lits([e]) == {e.lit}
    ensures Vars([]) == {} && Lits([]) == {}
  {
    assert [e][0] == e;
  }

  /** The entries a phase leaves stay in a valid order once the taken ones are placed:
      they keep their relative order, so nothing they rest on gets behind them. */
  lemma {:induction false} LeftOrder(rules: Rules, doing: bool, m: set<int>, cur: set<int>, all: set<int>,
                                     es: seq<Entry>)
    requires VarOrder(rules, cur, es)
    requires cur <= all && Vars(Taken(rules, doing, m, es)) <= all
    ensures VarOrder(rules, all, Left(rules, doing, m, es))
    decreases |es|
  {
    if es != [] {
      var v, rest := Abs(es[0].lit), es[1..];
      var tail := Taken(rules, doing, m, rest);
      if Takes(rules, doing, m, es[0]) {
        VarsAppend([es[0]], tail);
        VarsOne(es[0]);
        LeftOrder(rules, doing, m, cur + {v}, all, rest);
        assert [] + Left(rules, doing, m, rest) == Left(rules, doing, m, rest);
      } else {
        assert [] + tail == tail;
        LeftOrder(rules, doing, m, cur + {v}, all + {v}, rest);
        var l := [es[0]] + Left(rules, doing, m, rest);
        assert l[1..] == Left(rules, doing, m, rest);
      }
    }
  }

  lemma {:induction false} TakenLeftMultiset(rules: Rules, doing: bool, m: set<int>, es: seq<Entry>)
    ensures multiset(Taken(rules, doing, m, es) + Left(rules, doing, m, es)) == multiset(es)
    decreases |es|
  {
    hide Takes;
    if es != [] {
      TakenLeftMultiset(rules, doing, m, es[1..]);
      assert es == [es[0]] + es[1..];
    }
  }

  lemma {:induction false} TakenAll(rules: Rules, doing: bool, m: set<int>, es: seq<Entry>)
    ensures forall e :: e in Taken(rules, doing, m, es) ==> Takes(rules, doing, m, e)
    ensures Left(rules, doing, m, es) != [] && VarOrder(rules, m, es) && Taken(rules, doing, m, es) == [] ==>
      !Takes(rules, doing, m, es[0])
    decreases |es|
  {
    if es != [] {
      TakenAll(rules, doing, m, es[1..]);
    }
  }

  /** A run of entries that are each unit under m is in order, however it is permuted. */
  lemma {:induction false} UnitRun(rules: Rules, m: set<int>, n: set<int>, es: seq<Entry>)
    requires m <= n && forall e :: e in es ==> UnitVars(rules, e, m)
    ensures VarOrder(rules, n, es)
    decreases |es|
  {
    if es != [] {
      assert es[0] in es;
      UnitRun(rules, m, n + {Abs(es[0].lit)}, es[1..]);
    }
  }

  lemma {:induction false} VarOrderAppend(rules: Rules, m: set<int>, a: seq<Entry>, b: seq<Entry>)
    requires VarOrder(rules, m, a) && VarOrder(rules, m + Vars(a), b)
    ensures VarOrder(rules, m, a + b)
    decreases |a|
  {
    hide Vars, UnitVars;
    if a == [] {
      NoVars();
      assert a + b == b && m + Vars(a) == m;
    } else {
      VarsHead(m, a);
      VarOrderAppend(rules, m + {Abs(a[0].lit)}, a[1..], b);
      assert (a + b)[1..] == a[1..] + b;
    }
  }

  lemma NoVars()
    ensures Vars([]) == {}
  {
  }

  lemma VarsHead(m: set<int>, a: seq<Entry>)
    requires a != []
    ensures m + {Abs(a[0].lit)} + Vars(a[1..]) == m + Vars(a)
  {
    VarsOne(a[0]);
    VarsAppend([a[0]], a[1..]);
    assert [a[0]] + a[1..] == a;
  }

  lemma MultisetVars(a: seq<Entry>, b: seq<Entry>)
    requires multiset(a) == multiset(b)
    ensures Vars(a) == Vars(b) && Lits(a) == Lits(b) && |a| == |b|
    ensures forall e :: e in a <==> e in b
  {
    assert forall e :: e in a <==> e in multiset(a);
    assert forall e :: e in b <==> e in multiset(b);
    forall v | v in Vars(a) ensures v in Vars(b) { var i :| 0 <= i < |a| && Abs(a[i].lit) == v; assert a[i] in b; }
    forall v | v in Vars(b) ensures v in Vars(a) { var i :| 0 <= i < |b| && Abs(b[i].lit) == v; assert b[i] in a; }
    forall v | v in Lits(a) ensures v in Lits(b) { var i :| 0 <= i < |a| && a[i].lit == v; assert a[i] in b; }
    forall v | v in Lits(b) ensures v in Lits(a) { var i :| 0 <= i < |b| && b[i].lit == v; assert b[i] in a; }
    assert |a| == |multiset(a)| && |b| == |multiset(b)|;
  }

  /** The unit test of the source: every literal but the decided one has its variable in m. */
  method IsUnit(rules: Rules, e: Entry, m: set<int>) returns (r: bool)
    ensures r <==> UnitVars(rules, e, m)
  {
    var lits := rules(e.rid);
    for i := 0 to |lits|
      invariant forall k :: 0 <= k < i ==> lits[k] == e.lit || Abs(lits[k]) in m
    {
      if lits[i] != e.lit && Abs(lits[i]) !in m {
        return false;
      }
    }
    return true;
  }

  /** One scan of the block from i: the takeable entries move to the front, in order. */
  method Scan(rules: Rules, q: DecisionQueue, i: nat, end: nat, doing: bool, m: set<int>) returns (k: nat)
    requires i <= end <= |q.entries|
    modifies q
    ensures var es := old(q.entries[i..end]);
      && q.entries == old(q.entries[..i]) + Taken(rules, doing, m, es) + Left(rules, doing, m, es)
                      + old(q.entries[end..])
      && k == i + |Taken(rules, doing, m, es)| && |q.entries| == |old(q.entries)|
  {
    hide Taken, Left, Takes;
    ghost var was, es := q.entries, q.entries[i..end];
    ghost var taken: seq<Entry>, left: seq<Entry>, rest := [], [], es;
    var j := i;
    k := i;
    assert was == was[..i] + [] + [] + was[i..];
    while j < end
      invariant i <= k <= j <= end && |q.entries| == |was|
      invariant |taken| == k - i && |left| == j - k && rest == was[j..end]
      invariant q.entries == was[..i] + taken + left + was[j..]
      invariant taken + Taken(rules, doing, m, rest) == Taken(rules, doing, m, es)
      invariant left + Left(rules, doing, m, rest) == Left(rules, doing, m, es)
    {
      ghost var e0 := was[j];
      assert was[j..] == [e0] + was[j + 1..] && rest[0] == e0 && rest[1..] == was[j + 1..end];
      ScanStep(rules, doing, m, rest, taken, left);
      var unit := ScanOne(rules, q, k, j, doing, m, was[..i], taken, left, e0, was[j + 1..]);
      if unit {
        taken := taken + [e0];
        k := k + 1;
      } else {
        left := left + [e0];
      }
      j := j + 1;
      rest := rest[1..];
    }
    ScanDone(rules, doing, m);
    assert rest == [] && taken + [] == taken && left + [] == left;
  }

  lemma ScanDone(rules: Rules, doing: bool, m: set<int>)
    ensures Taken(rules, doing, m, []) == [] && Left(rules, doing, m, []) == []
  {
  }

  /** The body of the scan: take entry j to position k, or leave it. */
  method ScanOne(rules: Rules, q: DecisionQueue, k: nat, j: nat, doing: bool, m: set<int>,
                 ghost pre: seq<Entry>, ghost taken: seq<Entry>, ghost left: seq<Entry>, ghost e0: Entry,
                 ghost post: seq<Entry>) returns (unit: bool)
    requires q.entries == pre + taken + left + ([e0] + post)
    requires k == |pre| + |taken| && j == k + |left|
    modifies q
    ensures unit <==> Takes(rules, doing, m, e0)
    ensures q.entries == if unit then pre + (taken + [e0]) + left + post else pre + taken + (left + [e0]) + post
  {
    var e := q.entries[j];
    assert e == e0;
    unit := false;
    if SignOk(doing, e) {
      unit := IsUnit(rules, e, m);
    }
    MoveSeq(pre, taken, left, e0, post, q.entries, k, j);
    if unit {
      if j > k {
        q.MoveDecision(k, j);
      } else {
        assert left == [];
      }
    }
  }

  lemma ScanStep(rules: Rules, doing: bool, m: set<int>, rest: seq<Entry>, taken: seq<Entry>, left: seq<Entry>)
    requires rest != []
    ensures Takes(rules, doing, m, rest[0]) ==>
      taken + [rest[0]] + Taken(rules, doing, m, rest[1..]) == taken + Taken(rules, doing, m, rest)
      && left + Left(rules, doing, m, rest[1..]) == left + Left(rules, doing, m, rest)
    ensures !Takes(rules, doing, m, rest[0]) ==>
      taken + Taken(rules, doing, m, rest[1..]) == taken + Taken(rules, doing, m, rest)
      && left + [rest[0]] + Left(rules, doing, m, rest[1..]) == left + Left(rules, doing, m, rest)
  {
    hide Takes;
    var ts, ls := Taken(rules, doing, m, rest[1..]), Left(rules, doing, m, rest[1..]);
    if Takes(rules, doing, m, rest[0]) {
      assert taken + [rest[0]] + ts == taken + ([rest[0]] + ts);
      assert [] + ls == ls;
    } else {
      assert left + [rest[0]] + ls == left + ([rest[0]] + ls);
      assert [] + ts == ts;
    }
  }

  lemma MoveSeq(pre: seq<Entry>, taken: seq<Entry>, left: seq<Entry>, e: Entry, post: seq<Entry>, es: seq<Entry>,
      k: nat, j: nat)
    requires es == pre + taken + left + ([e] + post)
    requires k == |pre| + |taken| && j == k + |left|
    ensures j < |es| && es[j] == e
    ensures es[..k] + [es[j]] + es[k..j] + es[j + 1..] == pre + (taken + [e]) + left + post
  {
    assert es[..k] == pre + taken && es[k..j] == left && es[j + 1..] == post;
  }

  lemma EmptyOrder(rules: Rules, m: set<int>)
    ensures VarOrder(rules, m, []) && Vars([]) == {}
  {
    VarsOne(Entry(0, 0, 0, 0, 0, 0, 0, 0));
  }

  /** What one phase does to the unplaced part of the block: the placed run stays in order after any
      permutation, the rest stays in order behind it, and the first entry is taken if its sign fits. */
  lemma PhaseOrder(rules: Rules, doing: bool, m: set<int>, es: seq<Entry>, run: seq<Entry>)
    requires VarOrder(rules, m, es) && multiset(run) == multiset(Taken(rules, doing, m, es))
    ensures VarOrder(rules, m, run) && VarOrder(rules, m + Vars(run), Left(rules, doing, m, es))
    ensures multiset(run + Left(rules, doing, m, es)) == multiset(es)
    ensures es != [] && SignOk(doing, es[0]) ==> Taken(rules, doing, m, es) != []
    ensures Taken(rules, doing, m, es) == [] ==> Left(rules, doing, m, es) == es
  {
    var taken := Taken(rules, doing, m, es);
    MultisetVars(run, taken);
    TakenAll(rules, doing, m, es);
    UnitRun(rules, m, m, run);
    LeftOrder(rules, doing, m, m, m + Vars(run), es);
    TakenLeftMultiset(rules, doing, m, es);
    if taken == [] { NothingTaken(rules, doing, m, es); }
  }

  lemma {:induction false} NothingTaken(rules: Rules, doing: bool, m: set<int>, es: seq<Entry>)
    requires Taken(rules, doing, m, es) == []
    ensures Left(rules, doing, m, es) == es
    decreases |es|
  {
    if es != [] {
      assert !Takes(rules, doing, m, es[0]);
      assert [] + Taken(rules, doing, m, es[1..]) == Taken(rules, doing, m, es[1..]);
      NothingTaken(rules, doing, m, es[1..]);
    }
  }

  /** One phase: scan, sort the run it found, and mark its variables. */
  method Phase(rules: Rules, q: DecisionQueue, i: nat, end: nat, doing: bool, m: set<int>,
               order: seq<Entry> -> seq<Entry>)
    returns (m': set<int>, k: nat)
    requires i < end <= |q.entries|
    requires VarOrder(rules, m, q.entries[i..end])
    requires forall s :: multiset(order(s)) == multiset(s)
    modifies q
    ensures |q.entries| == |old(q.entries)| && i <= k <= end
    ensures q.entries[..i] == old(q.entries[..i]) && q.entries[end..] == old(q.entries[end..])
    ensures multiset(q.entries[i..end]) == multiset(old(q.entries[i..end]))
    ensures VarOrder(rules, m, q.entries[i..k]) && m' == m + Vars(q.entries[i..k])
    ensures VarOrder(rules, m', q.entries[k..end])
    ensures SignOk(doing, old(q.entries[i])) ==> k > i
    ensures k == i ==> q.entries == old(q.entries)
    ensures Run(rules, m, doing, q.entries[i..k], q.entries[k..end], old(q.entries[i..end]), order)
    ensures InOrder(q.entries[k..end], old(q.entries[i..end]))
  {
    hide VarOrder, Vars, Taken, Left, SignOk, Run, InOrder;
    ghost var was, es := q.entries, q.entries[i..end];
    ghost var pre, post := was[..i], was[end..];
    assert es[0] == was[i] && was == pre + es + post;
    k := Scan(rules, q, i, end, doing, m);
    if k == i {
      NothingPlaced(rules, doing, m, es, pre, post, order);
      assert q.entries == was;
      assert was[i..i] == [];
      m' := m;
      assert m + Vars([]) == m;
    } else {
      m' := SortPhase(rules, q, i, k, end, doing, m, order, es, pre, post);
    }
  }

  lemma NothingPlaced(rules: Rules, doing: bool, m: set<int>, es: seq<Entry>, pre: seq<Entry>, post: seq<Entry>,
      order: seq<Entry> -> seq<Entry>)
    requires VarOrder(rules, m, es) && es != [] && |Taken(rules, doing, m, es)| == 0
    requires forall s :: multiset(order(s)) == multiset(s)
    ensures pre + Taken(rules, doing, m, es) + Left(rules, doing, m, es) + post == pre + es + post
    ensures !SignOk(doing, es[0]) && VarOrder(rules, m, []) && Vars([]) == {}
    ensures Run(rules, m, doing, [], es, es, order) && InOrder(es, es)
  {
    hide Taken, Left, SignOk, Run, InOrder, VarOrder;
    PhaseIsRun(rules, doing, m, es, [], order);
    PhaseOrder(rules, doing, m, es, []);
    EmptyOrder(rules, m);
    assert Taken(rules, doing, m, es) == [];
    assert pre + [] == pre;
  }

  method SortPhase(rules: Rules, q: DecisionQueue, i: nat, k: nat, end: nat, doing: bool, m: set<int>,
      order: seq<Entry> -> seq<Entry>,
                   ghost es: seq<Entry>, ghost pre: seq<Entry>, ghost post: seq<Entry>) returns (m': set<int>)
    requires VarOrder(rules, m, es) && |pre| == i && i < k <= end && end == i + |es|
    requires q.entries == pre + Taken(rules, doing, m, es) + Left(rules, doing, m, es) + post
    requires k == i + |Taken(rules, doing, m, es)| && |q.entries| == i + |es| + |post|
    requires forall s :: multiset(order(s)) == multiset(s)
    modifies q
    ensures |q.entries| == |old(q.entries)|
    ensures q.entries[..i] == pre && q.entries[end..] == post
    ensures multiset(q.entries[i..end]) == multiset(es)
    ensures VarOrder(rules, m, q.entries[i..k]) && m' == m + Vars(q.entries[i..k])
    ensures VarOrder(rules, m', q.entries[k..end])
    ensures Run(rules, m, doing, q.entries[i..k], q.entries[k..end], es, order) && InOrder(q.entries[k..end], es)
  {
    hide VarOrder, Vars, Taken, Left, SignOk, Run, InOrder;
    ghost var taken, left := Taken(rules, doing, m, es), Left(rules, doing, m, es);
    assert q.entries == pre + taken + (left + post);
    ghost var run := SortRun(q, i, k, order, pre, taken, left + post);
    PhaseSorted(rules, doing, m, es, pre, run, post, i, k, end, q.entries, order);
    m' := MarkRun(q, i, k, m);
  }

  lemma PhaseSorted(rules: Rules, doing: bool, m: set<int>, es: seq<Entry>, pre: seq<Entry>, run: seq<Entry>,
                    post: seq<Entry>, i: nat, k: nat, end: nat, now: seq<Entry>, order: seq<Entry> -> seq<Entry>)
    requires VarOrder(rules, m, es) && |pre| == i && k == i + |Taken(rules, doing, m, es)| && end == i + |es|
    requires forall s :: multiset(order(s)) == multiset(s)
    requires run
      == if |Taken(rules, doing, m, es)| > 1 then order(Taken(rules, doing, m, es)) else Taken(rules, doing, m, es)
    requires now == pre + run + (Left(rules, doing, m, es) + post)
    ensures k <= end <= |now| && now[..i] == pre && now[end..] == post
    ensures multiset(now[i..end]) == multiset(es)
    ensures VarOrder(rules, m, now[i..k]) && VarOrder(rules, m + Vars(now[i..k]), now[k..end])
    ensures Run(rules, m, doing, now[i..k], now[k..end], es, order) && InOrder(now[k..end], es)
  {
    hide VarOrder, Vars, Taken, Left, SignOk, Run, InOrder;
    var taken, left := Taken(rules, doing, m, es), Left(rules, doing, m, es);
    SameSize(run, taken);
    PhaseOrder(rules, doing, m, es, run);
    SameSize(run + left, es);
    PhaseIsRun(rules, doing, m, es, run, order);
    assert now == pre + run + left + post;
    PhaseSlices(pre, run, left, post, i, k, end, |now|);
  }

  lemma SameSize(a: seq<Entry>, b: seq<Entry>)
    requires multiset(a) == multiset(b)
    ensures |a| == |b|
  {
    assert |multiset(a)| == |a| && |multiset(b)| == |b|;
  }

  lemma PhaseSlices(pre: seq<Entry>, run: seq<Entry>, left: seq<Entry>, post: seq<Entry>, i: nat, k: nat, end: nat,
                    n: nat)
    requires |pre| == i && k == i + |run| && |pre + run + left + post| == n && end == n - |post|
    ensures var s := pre + run + left + post;
      s[..i] == pre && s[i..k] == run && s[k..end] == left && s[end..] == post && s[i..end] == run + left
  {
  }

  /** `solv_sort` on the entries from i to k, when there is more than one. */
  method SortRun(q: DecisionQueue, i: nat, k: nat, order: seq<Entry> -> seq<Entry>, ghost pre: seq<Entry>,
      ghost mid: seq<Entry>, ghost post: seq<Entry>)
    returns (ghost run: seq<Entry>)
    requires q.entries == pre + mid + post && |pre| == i < k == i + |mid|
    requires forall s :: multiset(order(s)) == multiset(s)
    modifies q
    ensures multiset(run) == multiset(mid) && |run| == |mid| && run == if |mid| > 1 then order(mid) else mid
    ensures q.entries == pre + run + post
  {
    run := mid;
    if i + 1 < k {
      assert q.entries[i..k] == mid && q.entries[..i] == pre && q.entries[k..] == post;
      var r := order(q.entries[i..k]);
      assert |r| == |multiset(r)| == |multiset(mid)| == |mid|;
      q.entries := q.entries[..i] + r + q.entries[k..];
      run := r;
    }
  }

  /** Set the map bits of the entries from i to k. */
  method MarkRun(q: DecisionQueue, i: nat, k: nat, m: set<int>) returns (m': set<int>)
    requires i <= k <= |q.entries|
    ensures m' == m + Vars(q.entries[i..k])
  {
    m' := m;
    assert q.entries[i..i] == [];
    for j := i to k
      invariant m' == m + Vars(q.entries[i..j])
    {
      m' := m' + {Abs(q.entries[j].lit)};
      VarsAppend(q.entries[i..j], [q.entries[j]]);
      VarsOne(q.entries[j]);
      assert q.entries[i..j + 1] == q.entries[i..j] + [q.entries[j]];
    }
  }

  /** A block of one record, which is not moved. */
  lemma SingleRun(rules: Rules, m: set<int>, e: Entry, order: seq<Entry> -> seq<Entry>)
    requires VarOrder(rules, m, [e])
    ensures Alternates(rules, m, [e], [e], if e.lit < 0 then [0, 1] else [0, 0, 1], order)
  {
    hide Vars, UnitVars;
    var es := [e];
    EmptyOrder(rules, m);
    InOrderSelf(es);
    assert InOrder([], es);
    assert es[..0] == [] && es[0..] == es && es[0..1] == es && es[1..] == [] && es[0..0] == [];
    assert m + {} == m;
    assert Run(rules, m, e.lit < 0, es, [], es, order);
    if e.lit >= 0 { assert Run(rules, m, true, [], es, es, order); }
  }

  /** `sort_unit_decisions` on the entries from `start` to `end`; `order` is whatever the phase sort does. */
  method SortUnitDecisions(rules: Rules, q: DecisionQueue, start: nat, end: nat, m0: set<int>,
      order: seq<Entry> -> seq<Entry>)
    returns (m: set<int>, ghost cuts: seq<nat>)
    requires start <= end <= |q.entries|
    requires VarOrder(rules, m0, q.entries[start..end])
    requires forall s :: multiset(order(s)) == multiset(s)
    modifies q
    ensures |q.entries| == |old(q.entries)|
    ensures q.entries[..start] == old(q.entries[..start]) && q.entries[end..] == old(q.entries[end..])
    ensures multiset(q.entries[start..end]) == multiset(old(q.entries[start..end]))
    ensures VarOrder(rules, m0, q.entries[start..end])
    ensures m == m0 + Vars(q.entries[start..end])
    ensures Alternates(rules, m0, old(q.entries[start..end]), q.entries[start..end], cuts, order)
    ensures |cuts| > 0 && cuts[|cuts| - 1] == end - start
  {
    hide VarOrder, Vars, Taken, Left, Alternates, Run, InOrder;
    m := m0;
    if start + 1 == end {
      m := MarkRun(q, start, end, m);
      assert q.entries[start..end] == [q.entries[start]];
      SingleRun(rules, m0, q.entries[start], order);
      cuts := if q.entries[start].lit < 0 then [0, 1] else [0, 0, 1];
      return;
    }
    ghost var was := q.entries;
    var doing := true;
    var i := start;
    EmptyOrder(rules, m0);
    assert q.entries[start..start] == [];
    cuts := [0];
    NoRuns(rules, m0, q.entries[start..end], order);
    while i < end
      invariant start <= i <= end && |q.entries| == |was|
      invariant q.entries[..start] == was[..start] && q.entries[end..] == was[end..]
      invariant multiset(q.entries[start..end]) == multiset(was[start..end])
      invariant VarOrder(rules, m0, q.entries[start..i]) && m == m0 + Vars(q.entries[start..i])
      invariant VarOrder(rules, m, q.entries[i..end])
      invariant |cuts| > 0 && cuts[|cuts| - 1] == i - start && (doing <==> |cuts| % 2 == 1)
      invariant Alternates(rules, m0, was[start..end], q.entries[start..end], cuts, order)
      invariant InOrder(q.entries[i..end], was[start..end])
      decreases end - i, if i < end && SignOk(doing, q.entries[i]) then 0 else 1
    {
      ghost var es, i0, m1 := q.entries, i, m;
      m, i := Phase(rules, q, i, end, doing, m, order);
      PhasePlaced(rules, m0, m1, was[start..end], es, q.entries, cuts, order, start, i0, i, end);
      cuts := cuts + [i - start];
      doing := !doing;
    }
    assert q.entries[start..i] == q.entries[start..end];
  }

  /** What a phase from i0 to i means for the whole block. */
  lemma PhasePlaced(rules: Rules, m0: set<int>, m: set<int>, block: seq<Entry>, es: seq<Entry>, now: seq<Entry>,
                    cuts: seq<nat>, order: seq<Entry> -> seq<Entry>, start: nat, i0: nat, i: nat, end: nat)
    requires start <= i0 <= i <= end <= |es| == |now|
    requires now[..i0] == es[..i0] && multiset(now[i0..end]) == multiset(es[i0..end])
    requires VarOrder(rules, m0, es[start..i0]) && m == m0 + Vars(es[start..i0]) && VarOrder(rules, m, now[i0..i])
    requires Alternates(rules, m0, block, es[start..end], cuts, order) && cuts[|cuts| - 1] == i0 - start
    requires InOrder(es[i0..end], block) && InOrder(now[i..end], es[i0..end])
    requires Run(rules, m, |cuts| % 2 == 1, now[i0..i], now[i..end], es[i0..end], order)
    ensures now[..start] == es[..start] && multiset(now[start..end]) == multiset(es[start..end])
    ensures VarOrder(rules, m0, now[start..i]) && m0 + Vars(now[start..i]) == m + Vars(now[i0..i])
    ensures Alternates(rules, m0, block, now[start..end], cuts + [i - start], order) && InOrder(now[i..end], block)
  {
    hide VarOrder, Vars, Alternates, Run, InOrder;
    PhaseGlue(es, now, start, i0, i, end);
    PhaseCut(rules, m0, m, block, es, now, cuts, order, start, i0, i, end);
    VarOrderAppend(rules, m0, now[start..i0], now[i0..i]);
    VarsAppend(now[start..i0], now[i0..i]);
  }

  lemma NoRuns(rules: Rules, m0: set<int>, es: seq<Entry>, order: seq<Entry> -> seq<Entry>)
    ensures Alternates(rules, m0, es, es, [0], order) && InOrder(es, es)
  {
    InOrderSelf(es);
  }

  lemma PhaseCut(rules: Rules, m0: set<int>, m: set<int>, block: seq<Entry>, es: seq<Entry>, now: seq<Entry>,
                 cuts: seq<nat>, order: seq<Entry> -> seq<Entry>, start: nat, i0: nat, i: nat, end: nat)
    requires start <= i0 <= i <= end <= |es| == |now|
    requires now[..i0] == es[..i0] && multiset(now[i0..end]) == multiset(es[i0..end])
    requires Alternates(rules, m0, block, es[start..end], cuts, order) && cuts[|cuts| - 1] == i0 - start
    requires m == m0 + Vars(es[start..i0]) && InOrder(es[i0..end], block) && InOrder(now[i..end], es[i0..end])
    requires Run(rules, m, |cuts| % 2 == 1, now[i0..i], now[i..end], es[i0..end], order)
    ensures Alternates(rules, m0, block, now[start..end], cuts + [i - start], order) && InOrder(now[i..end], block)
  {
    hide Alternates, Run, InOrder, Vars;
    InOrderTwice(now[i..end], es[i0..end], block);
    var a, b, j, k := es[start..end], now[start..end], i0 - start, i - start;
    BlockPieces(es, start, i0, i0, end);
    BlockPieces(now, start, i0, i, end);
    assert now[..i0][start..] == es[..i0][start..];
    CutCount(rules, m0, block, a, cuts, order);
    AlternatesStep(rules, m0, block, a, b, cuts, order, j, k);
  }

  lemma BlockPieces(es: seq<Entry>, start: nat, i: nat, k: nat, end: nat)
    requires start <= i <= k <= end <= |es|
    ensures var b := es[start..end];
      && b[..i - start] == es[start..i] == es[..i][start..] && b[i - start..] == es[i..end]
      && b[i - start..k - start] == es[i..k] && b[k - start..] == es[k..end]
  {
    Slice(es, start, end, 0, i - start);
    Slice(es, start, end, i - start, end - start);
    Slice(es, start, end, i - start, k - start);
    Slice(es, start, end, k - start, end - start);
    Slice(es, 0, i, start, i);
  }

  lemma CutCount(rules: Rules, m0: set<int>, es: seq<Entry>, now: seq<Entry>, cuts: seq<nat>,
                 order: seq<Entry> -> seq<Entry>)
    requires Alternates(rules, m0, es, now, cuts, order)
    ensures |cuts| > 0
  {
  }

  lemma PhaseGlue(es: seq<Entry>, now: seq<Entry>, start: nat, i0: nat, i: nat, end: nat)
    requires start <= i0 <= i <= end <= |es| == |now|
    requires now[..i0] == es[..i0] && multiset(now[i0..end]) == multiset(es[i0..end])
    ensures now[start..i0] == es[start..i0] && now[..start] == es[..start]
    ensures now[start..i] == now[start..i0] + now[i0..i]
    ensures multiset(now[start..end]) == multiset(es[start..end])
  {
    assert now[start..i0] == now[..i0][start..] == es[..i0][start..] == es[start..i0];
    assert now[..start] == now[..i0][..start] == es[..i0][..start];
    assert es[start..end] == es[start..i0] + es[i0..end];
    assert now[start..end] == now[start..i0] + now[i0..end];
  }

  // ----- from the variable order back to real unit propagation -----

  /** A valid order is in particular a valid order of variables. */
  lemma {:induction false} ValidIsVarOrder(rules: Rules, start: set<int>, es: seq<Entry>)
    requires ValidOrder(rules, start, es)
    ensures VarOrder(rules, VarsOf(start), es)
    decreases |es|
  {
    if es != [] {
      var rest := es[1..];
      VarsOne(es[0]);
      assert es[..0] == [];
      forall i | 0 <= i < |rules(es[0].rid)|
        ensures rules(es[0].rid)[i] == es[0].lit || Abs(rules(es[0].rid)[i]) in VarsOf(start)
      {
        var p := rules(es[0].rid)[i];
        assert p in rules(es[0].rid);
        if p != es[0].lit { assert -p in start; assert Abs(-p) == Abs(p); }
      }
      forall t | 0 <= t < |rest| ensures UnitUnder(rules, rest[t], start + {es[0].lit} + Lits(rest[..t])) {
        assert UnitUnder(rules, es[t + 1], start + Lits(es[..t + 1]));
        VarsAppend([es[0]], rest[..t]);
        assert [es[0]] + rest[..t] == es[..t + 1];
        assert start + {es[0].lit} + Lits(rest[..t]) == start + Lits(es[..t + 1]);
      }
      ValidIsVarOrder(rules, start + {es[0].lit}, rest);
      assert VarsOf(start + {es[0].lit}) == VarsOf(start) + {Abs(es[0].lit)};
    }
  }

  lemma {:induction false} VarOrderAt(rules: Rules, m: set<int>, es: seq<Entry>, t: nat)
    requires VarOrder(rules, m, es) && t < |es|
    ensures UnitVars(rules, es[t], m + Vars(es[..t]))
    decreases t
  {
    if t == 0 {
      VarsOne(es[0]);
      assert es[..0] == [] && m + {} == m;
    } else {
      VarOrderAt(rules, m + {Abs(es[0].lit)}, es[1..], t - 1);
      VarsOne(es[0]);
      VarsAppend([es[0]], es[1..][..t - 1]);
      assert es[..t] == [es[0]] + es[1..][..t - 1];
      assert m + {Abs(es[0].lit)} + Vars(es[1..][..t - 1]) == m + Vars(es[..t]);
    }
  }

  /** The main result: a permutation of a valid refutation order that is in order as far as variables go
      is a valid unit-propagation order again, literal by literal. */
  lemma SortedStaysValid(rules: Rules, start: set<int>, es: seq<Entry>, sorted: seq<Entry>)
    requires ValidOrder(rules, start, es) && Decided(start, es)
    requires multiset(sorted) == multiset(es) && VarOrder(rules, VarsOf(start), sorted)
    requires 0 !in start
    ensures ValidOrder(rules, start, sorted)
  {
    hide VarOrder, UnitUnder, Decided, Lits;
    MultisetVars(sorted, es);
    forall t | 0 <= t < |sorted| ensures UnitUnder(rules, sorted[t], start + Lits(sorted[..t])) {
      SortedUnit(rules, start, es, sorted, t);
    }
  }

  lemma SortedUnit(rules: Rules, start: set<int>, es: seq<Entry>, sorted: seq<Entry>, t: nat)
    requires ValidOrder(rules, start, es) && Decided(start, es) && t < |sorted|
    requires multiset(sorted) == multiset(es) && VarOrder(rules, VarsOf(start), sorted)
    ensures UnitUnder(rules, sorted[t], start + Lits(sorted[..t]))
  {
    hide VarOrder, Decided, Lits, UnitVars;
    var e := sorted[t];
    VarOrderAt(rules, VarsOf(start), sorted, t);
    var u := PlaceIn(es, sorted, t);
    assert UnitUnder(rules, es[u], start + Lits(es[..u]));
    forall p | p in rules(e.rid) && p != e.lit ensures -p in start + Lits(sorted[..t]) {
      LiteralPlaced(rules, start, es, sorted, t, u, p);
    }
  }

  lemma PlaceIn(es: seq<Entry>, sorted: seq<Entry>, t: nat) returns (u: nat)
    requires multiset(sorted) == multiset(es) && t < |sorted|
    ensures u < |es| && es[u] == sorted[t]
  {
    assert sorted[t] in multiset(sorted);
    assert sorted[t] in es;
    u :| 0 <= u < |es| && es[u] == sorted[t];
  }

  lemma LiteralPlaced(rules: Rules, start: set<int>, es: seq<Entry>, sorted: seq<Entry>, t: nat, u: nat, p: int)
    requires Decided(start, es) && multiset(sorted) == multiset(es)
    requires t < |sorted| && u < |es| && sorted[t] == es[u]
    requires p in rules(es[u].rid) && p != es[u].lit
    requires -p in start + Lits(es[..u])
    requires UnitVars(rules, sorted[t], VarsOf(start) + Vars(sorted[..t]))
    ensures -p in start + Lits(sorted[..t])
  {
    if -p !in start {
      var w :| 0 <= w < |es[..u]| && es[..u][w].lit == -p;
      assert es[w].lit == -p;
      assert Abs(p) == Abs(-p) && Abs(p) !in VarsOf(start);
      assert Abs(p) in Vars(sorted[..t]);
      var v :| 0 <= v < |sorted[..t]| && Abs(sorted[..t][v].lit) == Abs(p);
      MultisetVars(sorted, es);
      assert sorted[v] in es;
      var x :| 0 <= x < |es| && es[x] == sorted[v];
      assert x == w;
      assert sorted[..t][v].lit == -p;
    }
  }
}
