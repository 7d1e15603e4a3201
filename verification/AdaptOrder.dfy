/** Applying a sort order to the packages in place, by swaps along the chains of earlier moves. */
module AdaptOrder {

  ghost predicate Permutation(p: seq<nat>) {
    (forall i :: 0 <= i < |p| ==> p[i] < |p|) && forall i, j :: 0 <= i < j < |p| ==> p[i] != p[j]
  }

  /** Follow the moves recorded for the first k slots; what was in slot x is there now. */
  ghost function Follow(p: seq<nat>, k: nat, x: nat): nat
    requires k <= |p|
    decreases k - x
  {
    if x >= k || p[x] <= x then x else Follow(p, k, p[x])
  }

  /** Slot m now holds what was in slot s[m]; order is the one wanted, p the table being rewritten. */
  ghost predicate Sorting(order: seq<nat>, p: seq<nat>, s: seq<nat>, k: nat) {
    && k <= |order| == |p| == |s| && Permutation(order)
    && (forall m :: 0 <= m < k ==> s[m] == order[m])
    && (forall m :: k <= m < |p| ==> p[m] == order[m])
    && forall x: nat :: Tracked(order, p, s, k, x)
  }

  /** A package not placed yet is where the moves took it. */
  ghost predicate Tracked(order: seq<nat>, p: seq<nat>, s: seq<nat>, k: nat, x: nat)
    requires k <= |order| == |p| == |s|
  {
    x < |p| && x !in order[..k] ==> k <= Follow(p, k, x) < |p| && s[Follow(p, k, x)] == x
  }

  /** One more slot recorded: chains that ended there go on. */
  lemma {:induction false} FollowNext(p: seq<nat>, k: nat, j: nat, x: nat)
    requires k < |p| && j >= k && Follow(p, k, x) >= k
    ensures Follow(p[k := j], k + 1, x) == if Follow(p, k, x) == k then j else Follow(p, k, x)
    decreases k - x
  {
    if x < k {
      FollowNext(p, k, j, p[x]);
    }
  }

  lemma FollowStep(p: seq<nat>, k: nat, x: nat)
    requires k <= |p| && x < k && Follow(p, k, x) >= k
    ensures p[x] > x && Follow(p, k, p[x]) == Follow(p, k, x)
  {
  }

  lemma SortingStart(order: seq<nat>, s: seq<nat>)
    requires Permutation(order) && |s| == |order| && forall m :: 0 <= m < |s| ==> s[m] == m
    ensures Sorting(order, order, s, 0)
  {
  }

  /** Where the package for slot k is. */
  lemma Wanted(order: seq<nat>, p: seq<nat>, s: seq<nat>, k: nat)
    requires Sorting(order, p, s, k) && k < |order|
    ensures order[k] < |p| && k <= Follow(p, k, order[k]) < |p| && s[Follow(p, k, order[k])] == order[k]
    ensures p[k] == order[k]
  {
    assert order[k] !in order[..k];
    assert Tracked(order, p, s, k, order[k]);
  }

  ghost function Swapped<T>(s: seq<T>, a: nat, b: nat): seq<T>
    requires a < |s| && b < |s|
  {
    s[a := s[b]][b := s[a]]
  }

  lemma SortingNext(order: seq<nat>, p: seq<nat>, s: seq<nat>, k: nat, p': seq<nat>, j: nat)
    requires Sorting(order, p, s, k) && k < |order| && j == Follow(p, k, order[k]) && j < |s| && p' == p[k := j]
    ensures Sorting(order, p', Swapped(s, k, j), k + 1)
  {
    hide Follow, Tracked;
    Wanted(order, p, s, k);
    var s' := Swapped(s, k, j);
    assert s'[k] == order[k];
    var k' := k + 1;
    forall x: nat ensures Tracked(order, p', s', k', x) { TrackedNext(order, p, s, k, p', j, x); }
    forall m | 0 <= m < k + 1 ensures s'[m] == order[m] { assert m < k ==> s'[m] == s[m]; }
  }

  lemma TrackedNext(order: seq<nat>, p: seq<nat>, s: seq<nat>, k: nat, p': seq<nat>, j: nat, x: nat)
    requires k < |order| == |p| == |s| && Tracked(order, p, s, k, x) && order[k] < |p| && Follow(p, k, order[k]) == j
    requires k <= j < |s| && s[j] == order[k]
    requires p' == p[k := j]
    ensures Tracked(order, p', Swapped(s, k, j), k + 1, x)
  {
    hide Follow;
    if x < |p| && x !in order[..k + 1] {
      assert order[..k + 1] == order[..k] + [order[k]];
      assert x !in order[..k] && x != order[k];
      FollowNext(p, k, j, x);
    }
  }

  /** The three tables that move together: packages, database ids, attributes. */
  class Tables<S, A> {
    var solvables: array<S>
    var rpmdbid: array<int>
    var attrs: array<A>

    ghost predicate Valid()
      reads this
    {
      solvables.Length == rpmdbid.Length == attrs.Length
    }

    constructor (s: array<S>, r: array<int>, a: array<A>)
      requires s.Length == r.Length == a.Length
      ensures Valid() && solvables == s && rpmdbid == r && attrs == a
    {
      solvables, rpmdbid, attrs := s, r, a;
    }

    method Swap(pa: nat, pb: nat)
      requires Valid() && pa < solvables.Length && pb < solvables.Length
      requires solvables as object != rpmdbid as object && rpmdbid as object != attrs as object
      requires solvables as object != attrs as object
      modifies solvables, rpmdbid, attrs
      ensures solvables[..] == Swapped(old(solvables[..]), pa, pb)
      ensures rpmdbid[..] == Swapped(old(rpmdbid[..]), pa, pb)
      ensures attrs[..] == Swapped(old(attrs[..]), pa, pb)
    {
      solvables[pa], solvables[pb] := solvables[pb], solvables[pa];
      rpmdbid[pa], rpmdbid[pb] := rpmdbid[pb], rpmdbid[pa];
      attrs[pa], attrs[pb] := attrs[pb], attrs[pa];
    }

    /** Bring the packages into the order given by pkgids: slot i gets what was in slot pkgids[i]. pkgids is used up. */
    method AdaptOrder(pkgids: array<nat>)
      requires Valid() && pkgids.Length == solvables.Length && Permutation(pkgids[..])
      requires solvables as object != rpmdbid as object && rpmdbid as object != attrs as object
      requires solvables as object != attrs as object
      requires pkgids as object !in {solvables as object, rpmdbid as object, attrs as object}
      modifies pkgids, solvables, rpmdbid, attrs
      ensures forall i :: 0 <= i < solvables.Length ==>
        var o := old(pkgids[i]);
        0 <= o < solvables.Length && solvables[i] == old(solvables[..])[o] && rpmdbid[i] == old(rpmdbid[..])[o]
          && attrs[i] == old(attrs[..])[o]
    {
      hide Follow, Permutation, Swapped, Sorting, AllAt;
      var n := pkgids.Length;
      ghost var order, s := pkgids[..], Identity(n);
      ghost var sol, ids, att := solvables[..], rpmdbid[..], attrs[..];
      SortingStart(order, s);
      AllStart(sol, s);
      AllStart(ids, s);
      AllStart(att, s);
      for i := 0 to n
        invariant Sorting(order, pkgids[..], s, i) && |s| == n
        invariant AllAt(sol, solvables[..], s) && AllAt(ids, rpmdbid[..], s) && AllAt(att, attrs[..], s)
      {
        ghost var p := pkgids[..];
        var j := Chase(pkgids, i, order, s);
        SortingNext(order, p, s, i, pkgids[..], j);
        SwapAll(sol, solvables[..], s, i, j);
        SwapAll(ids, rpmdbid[..], s, i, j);
        SwapAll(att, attrs[..], s, i, j);
        if j != i {
          Swap(i, j);
        }
        s := Swapped(s, i, j);
      }
      AllDone(sol, solvables[..], s, order, pkgids[..]);
      AllDone(ids, rpmdbid[..], s, order, pkgids[..]);
      AllDone(att, attrs[..], s, order, pkgids[..]);
    }

    /** Find where the package wanted in slot i has been moved to, and record it. */
    static method Chase(pkgids: array<nat>, i: nat, ghost order: seq<nat>, ghost s: seq<nat>) returns (j: nat)
      requires i < pkgids.Length == |order| == |s| && Sorting(order, pkgids[..], s, i)
      modifies pkgids
      ensures j < pkgids.Length && j == Follow(old(pkgids[..]), i, order[i]) && pkgids[..] == old(pkgids[..])[i := j]
    {
      hide Follow, Sorting;
      ghost var p := pkgids[..];
      Wanted(order, p, s, i);
      j := pkgids[i];
      while j < i
        invariant j < pkgids.Length && pkgids[i] == j && Follow(p, i, j) == Follow(p, i, order[i])
        invariant forall m :: 0 <= m < pkgids.Length && m != i ==> pkgids[m] == p[m]
        decreases i - j
      {
        FollowStep(p, i, j);
        FollowRange(order, p, s, i, j);
        pkgids[i] := pkgids[j];
        j := pkgids[i];
      }
      FollowEnd(p, i, j);
      assert pkgids[..] == p[i := j];
    }
  }

  ghost function Identity(n: nat): (r: seq<nat>)
    ensures |r| == n && forall m :: 0 <= m < n ==> r[m] == m
  {
    if n == 0 then [] else Identity(n - 1) + [n - 1]
  }

  lemma AllStart<T>(s: seq<T>, id: seq<nat>)
    requires |id| == |s| && forall m :: 0 <= m < |id| ==> id[m] == m
    ensures AllAt(s, s, id)
  {
  }

  lemma AllDone<T>(before: seq<T>, now: seq<T>, s: seq<nat>, order: seq<nat>, p: seq<nat>)
    requires AllAt(before, now, s) && Sorting(order, p, s, |s|)
    ensures |before| == |now| == |order|
    ensures forall i :: 0 <= i < |now| ==> order[i] < |before| && now[i] == before[order[i]]
  {
    hide Follow;
  }

  /** The table's entries are slots. */
  lemma FollowRange(order: seq<nat>, p: seq<nat>, s: seq<nat>, k: nat, x: nat)
    requires Sorting(order, p, s, k) && x < k < |p| && k <= Follow(p, k, x) < |p|
    ensures p[x] < |p|
  {
    FollowUp(p, k, p[x]);
  }

  lemma {:induction false} FollowUp(p: seq<nat>, k: nat, x: nat)
    requires k <= |p|
    ensures x <= Follow(p, k, x)
    decreases k - x
  {
    if x < k && p[x] > x { FollowUp(p, k, p[x]); }
  }

  lemma FollowEnd(p: seq<nat>, k: nat, x: nat)
    requires k <= |p| && x >= k
    ensures Follow(p, k, x) == x
  {
  }

  /** Slot m holds what was in slot s[m]. */
  ghost predicate AllAt<T>(before: seq<T>, now: seq<T>, s: seq<nat>) {
    |before| == |now| == |s| && forall m :: 0 <= m < |s| ==> s[m] < |s| && now[m] == before[s[m]]
  }

  lemma SwapAll<T>(before: seq<T>, now: seq<T>, s: seq<nat>, a: nat, b: nat)
    requires AllAt(before, now, s) && a < |s| && b < |s|
    ensures AllAt(before, Swapped(now, a, b), Swapped(s, a, b)) && (a == b ==> Swapped(now, a, b) == now)
  {
  }
}
