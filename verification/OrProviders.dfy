/** The provider list of an OR that is no complex dependency, and why it may stand for the OR. */
module OrProviders {
  import opened Containers
  import opened DepBlocks
  import opened DepMerge
  import opened CplxDeps
  import opened Normalize

  // ----- building the list -----

  /** The rest of the list at offset i, up to its zero. */
  method PushTail(pool: Pool, plist: Queue, i0: nat) returns (i: nat)
    requires Valid(pool) && i0 < |pool.data|
    modifies plist
    ensures plist.elements == old(plist.elements) + List(pool.data, i0)
    ensures i == i0 + |List(pool.data, i0)|
  {
    hide Valid;
    LastIsZero(pool);
    i := i0;
    while pool.data[i] != 0
      invariant i0 <= i < |pool.data|
      invariant plist.elements + List(pool.data, i) == old(plist.elements) + List(pool.data, i0)
      invariant i + |List(pool.data, i)| == i0 + |List(pool.data, i0)|
      decreases |pool.data| - i
    {
      TailStep(plist.elements, pool.data, i);
      plist.Push(pool.data[i]);
      i := i + 1;
    }
  }

  lemma LastIsZero(pool: Pool)
    requires Valid(pool)
    ensures |pool.data| > 0 && pool.data[|pool.data| - 1] == 0
  {
  }

  lemma Head(data: seq<int>, i: nat)
    requires i < |data|
    ensures data[i] == 0 ==> List(data, i) == []
    ensures data[i] != 0 ==>
      List(data, i) != [] && List(data, i)[0] == data[i] && List(data, i)[1..] == List(data, i + 1)
  {
  }

  lemma TailStep(done: seq<int>, data: seq<int>, i: nat)
    requires i < |data| && data[i] != 0
    ensures done + List(data, i) == (done + [data[i]]) + List(data, i + 1) && |List(data, i)| == 1 + |List(data, i + 1)|
  {
  }

  /** The sorted merge of the lists at two offsets. The first cursor ends at the zero of its list. */
  method MergeProviders(pool: Pool, plist: Queue, wp: nat, wp2: nat) returns (i: nat)
    requires Valid(pool) && wp < |pool.data| && wp2 < |pool.data| && plist.elements == []
    modifies plist
    ensures plist.elements == Merge(List(pool.data, wp), List(pool.data, wp2))
    ensures i == wp + |List(pool.data, wp)|
  {
    hide Valid, Merge, List;
    LastIsZero(pool);
    var j;
    i, j := wp, wp2;
    ghost var all := Merge(List(pool.data, wp), List(pool.data, wp2));
    while pool.data[i] != 0 && pool.data[j] != 0
      invariant wp <= i < |pool.data| && wp2 <= j < |pool.data|
      invariant plist.elements + Merge(List(pool.data, i), List(pool.data, j)) == all
      invariant i + |List(pool.data, i)| == wp + |List(pool.data, wp)|
      decreases |pool.data| - i + |pool.data| - j
    {
      ghost var x, y := List(pool.data, i), List(pool.data, j);
      Head(pool.data, i);
      Head(pool.data, j);
      MergeHead(x, y);
      FirstOut(plist.elements, Merge(x, y));
      if pool.data[i] < pool.data[j] {
        plist.Push(pool.data[i]);
        i := i + 1;
      } else {
        if pool.data[i] == pool.data[j] {
          i := i + 1;
        }
        plist.Push(pool.data[j]);
        j := j + 1;
      }
    }
    ghost var was, x, y := plist.elements, List(pool.data, i), List(pool.data, j);
    Head(pool.data, i);
    Head(pool.data, j);
    MergeEnd(x, y);
    assert was + (y + x) == was + (x + y);
    i := PushTail(pool, plist, i);
    j := PushTail(pool, plist, j);
  }

  lemma FirstOut(done: seq<int>, m: seq<int>)
    requires m != []
    ensures done + m == (done + [m[0]]) + m[1..]
  {
  }

  /** A merge is never shorter than its first list, and as long only if it is that list. */
  lemma {:induction false} MergeLength(x: seq<int>, y: seq<int>)
    ensures |Merge(x, y)| >= |x| && (|Merge(x, y)| == |x| ==> Merge(x, y) == x)
    decreases |x| + |y|
  {
    if x != [] && y != [] {
      if x[0] < y[0] {
        MergeLength(x[1..], y);
      } else if x[0] == y[0] {
        MergeLength(x[1..], y[1..]);
      } else {
        MergeLength(x, y[1..]);
      }
    }
  }

  /** The OR case of `pool_addrelproviders`: the offset of a list that can be reused, or 0 and the new list in plist.
      Either way it is the union of the lists of both sides. */
  method AddOrProviders(pool: Pool, name: Dep, evr: Dep, plist: Queue) returns (wp: nat)
    requires Valid(pool) && plist.elements == []
    modifies plist
    ensures (if wp != 0 then List(pool.data, wp) else plist.elements)
      == Merge(Providers(pool, name), Providers(pool, evr))
  {
    hide Valid, Merge;
    Offsets(pool, name, evr);
    wp := pool.whatprovides(name);
    var wp2 := pool.whatprovides(evr);
    if pool.data[wp] == 0 {
      MergeEnd(Providers(pool, name), Providers(pool, evr));
      wp := wp2;
    } else {
      var i := MergeProviders(pool, plist, wp, wp2);
      MergeLength(Providers(pool, name), Providers(pool, evr));
      if i - wp != |plist.elements| {
        wp := 0;
      }
    }
  }

  lemma Offsets(pool: Pool, a: Dep, b: Dep)
    requires Valid(pool)
    ensures 0 <= pool.whatprovides(a) < |pool.data| && 0 <= pool.whatprovides(b) < |pool.data|
    ensures List(pool.data, 0) == []
  {
    assert ValidList(pool, pool.whatprovides(a)) && ValidList(pool, pool.whatprovides(b));
  }

  // ----- what it stands for -----

  /** The truth of a dependency read off the tree alone: an OR holds iff a side holds. */
  ghost predicate Truth(pool: Pool, d: Dep, named: bool, chosen: set<int>)
    requires Valid(pool)
    decreases d
  {
    match d
    case And(a, b) => Truth(pool, a, named, chosen) && Truth(pool, b, named, chosen)
    case Or(a, b) => Truth(pool, a, named, chosen) || Truth(pool, b, named, chosen)
    case Cond(a, Else(b, c)) =>
      if Truth(pool, b, named, chosen) then Truth(pool, a, named, chosen) else Truth(pool, c, named, chosen)
    case Cond(a, b) => Truth(pool, b, named, chosen) ==> Truth(pool, a, named, chosen)
    case Unless(a, Else(b, c)) =>
      if Truth(pool, b, named, chosen) then Truth(pool, c, named, chosen) else Truth(pool, a, named, chosen)
    case Unless(a, b) => Truth(pool, a, named, chosen) && !Truth(pool, b, named, chosen)
    case _ => LeafHolds(pool, d, named, chosen)
  }

  /** The OR is provided by what its sides are provided by; if names are to match, that goes for the matching ones
      too. */
  ghost predicate Union(pool: Pool, a: Dep, b: Dep, named: bool)
    requires Valid(pool)
  {
    var l, x, y := Providers(pool, Or(a, b)), Providers(pool, a), Providers(pool, b);
    && l == Merge(x, y)
    && (named ==> forall p ::
         p in l ==> (pool.matches(p, Or(a, b)) <==> (p in x && pool.matches(p, a)) || (p in y && pool.matches(p, b))))
  }

  /** Every OR in the tree that is no complex dependency has the providers of its sides. */
  ghost predicate Unions(pool: Pool, d: Dep, named: bool)
    requires Valid(pool)
    decreases d
  {
    match d
    case Or(a, b) => (!Complex(d) ==> Union(pool, a, b, named)) && Unions(pool, a, named) && Unions(pool, b, named)
    case And(a, b) => Unions(pool, a, named) && Unions(pool, b, named)
    case Cond(a, Else(b, c)) => Unions(pool, a, named) && Unions(pool, b, named) && Unions(pool, c, named)
    case Cond(a, b) => Unions(pool, a, named) && Unions(pool, b, named)
    case Unless(a, Else(b, c)) => Unions(pool, a, named) && Unions(pool, b, named) && Unions(pool, c, named)
    case Unless(a, b) => Unions(pool, a, named) && Unions(pool, b, named)
    case _ => true
  }

  /** With such provider lists the shortcut for ORs that are no complex dependencies changes nothing, at any depth. */
  lemma {:induction false} HoldsIsTruth(pool: Pool, d: Dep, named: bool, chosen: set<int>)
    requires Valid(pool) && Unions(pool, d, named)
    ensures Holds(pool, d, named, chosen) <==> Truth(pool, d, named, chosen)
    decreases d
  {
    hide Valid, LeafHolds, Union;
    match d
    case Or(a, b) =>
      HoldsIsTruth(pool, a, named, chosen);
      HoldsIsTruth(pool, b, named, chosen);
      if !Complex(d) { OrLeaf(pool, a, b, named, chosen); }
    case And(a, b) =>
      HoldsIsTruth(pool, a, named, chosen);
      HoldsIsTruth(pool, b, named, chosen);
    case Cond(a, Else(b, c)) =>
      HoldsIsTruth(pool, a, named, chosen);
      HoldsIsTruth(pool, b, named, chosen);
      HoldsIsTruth(pool, c, named, chosen);
    case Cond(a, b) =>
      HoldsIsTruth(pool, a, named, chosen);
      HoldsIsTruth(pool, b, named, chosen);
    case Unless(a, Else(b, c)) =>
      HoldsIsTruth(pool, a, named, chosen);
      HoldsIsTruth(pool, b, named, chosen);
      HoldsIsTruth(pool, c, named, chosen);
    case Unless(a, b) =>
      HoldsIsTruth(pool, a, named, chosen);
      HoldsIsTruth(pool, b, named, chosen);
    case _ =>
  }

  lemma OrLeaf(pool: Pool, a: Dep, b: Dep, named: bool, chosen: set<int>)
    requires Valid(pool) && Union(pool, a, b, named)
    ensures LeafHolds(pool, Or(a, b), named, chosen) <==>
      LeafHolds(pool, a, named, chosen) || LeafHolds(pool, b, named, chosen)
  {
    hide List, Merge;
    var l, x, y := Providers(pool, Or(a, b)), Providers(pool, a), Providers(pool, b);
    MergeMembers(x, y);
    SystemFirst(pool, Or(a, b));
    SystemFirst(pool, a);
    SystemFirst(pool, b);
    if p :| p in l && p in chosen && (named ==> pool.matches(p, Or(a, b))) {
      assert p in x || p in y;
    }
    if p :| p in x && p in chosen && (named ==> pool.matches(p, a)) { assert p in l; }
    if p :| p in y && p in chosen && (named ==> pool.matches(p, b)) { assert p in l; }
  }

  /** The system package comes first in a list. */
  lemma SystemFirst(pool: Pool, d: Dep)
    requires Valid(pool)
    ensures SYSTEMSOLVABLE in Providers(pool, d) <==>
      Providers(pool, d) != [] && Providers(pool, d)[0] == SYSTEMSOLVABLE
  {
    hide List;
    var l := Providers(pool, d);
    assert ValidList(pool, pool.whatprovides(d));
    if SYSTEMSOLVABLE in l {
      var i :| 0 <= i < |l| && l[i] == SYSTEMSOLVABLE;
      assert l[0] in l;
    }
  }

  /** The normaliser's result, read off the tree alone. */
  lemma NormalTruth(pool: Pool, d: Dep, was: seq<int>, now: seq<int>, r: int, bs: seq<Block>, dnf: bool, named: bool,
                    chosen: set<int>)
    requires Valid(pool) && Unions(pool, d, named) && Means(pool, was, now, r, bs, dnf, named, Plainly(d))
    ensures Truth(pool, d, named, chosen) <==> Result(pool, r, bs, dnf, chosen)
  {
    hide Valid, Holds, Truth, Result;
    HoldsIsTruth(pool, d, named, chosen);
    assert Eval(pool, Plainly(d), named, chosen) <==> Holds(pool, d, named, chosen);
  }
}
