/** The queue of conflict candidates: its two sort orders, and the pruning between the passes. */
module Candidates {

  /** A path hash, a package position, and later the offset of the file's record. */
  datatype Cand = Cand(hx: nat, idx: nat, off: nat)

  predicate HxLe(a: Cand, b: Cand) {
    a.hx < b.hx || (a.hx == b.hx && (a.idx < b.idx || (a.idx == b.idx && a.off <= b.off)))
  }

  predicate IdxLe(a: Cand, b: Cand) {
    a.idx < b.idx || (a.idx == b.idx && (a.hx < b.hx || (a.hx == b.hx && a.off <= b.off)))
  }

  ghost predicate TotalOrder(le: (Cand, Cand) -> bool) {
    && (forall a, b :: le(a, b) || le(b, a))
    && (forall a, b, c :: le(a, b) && le(b, c) ==> le(a, c))
  }

  ghost predicate SortedBy(le: (Cand, Cand) -> bool, s: seq<Cand>) {
    forall i, j :: 0 <= i < j < |s| ==> le(s[i], s[j])
  }

  function Insert(le: (Cand, Cand) -> bool, c: Cand, s: seq<Cand>): seq<Cand> {
    if s == [] || le(c, s[0]) then [c] + s else [s[0]] + Insert(le, c, s[1..])
  }

  /** Stands for the library sort: the same entries, in order. */
  function Sort(le: (Cand, Cand) -> bool, s: seq<Cand>): seq<Cand> {
    if s == [] then [] else Insert(le, s[0], Sort(le, s[1..]))
  }

  lemma {:induction false} InsertEntries(le: (Cand, Cand) -> bool, c: Cand, s: seq<Cand>)
    ensures multiset(Insert(le, c, s)) == multiset(s) + multiset{c}
  {
    if s != [] && !le(c, s[0]) {
      InsertEntries(le, c, s[1..]);
      assert s == [s[0]] + s[1..];
    }
  }

  lemma {:induction false} InsertSorted(le: (Cand, Cand) -> bool, c: Cand, s: seq<Cand>)
    requires TotalOrder(le) && SortedBy(le, s)
    ensures SortedBy(le, Insert(le, c, s))
  {
    if s != [] && !le(c, s[0]) {
      var t := Insert(le, c, s[1..]);
      InsertSorted(le, c, s[1..]);
      InsertEntries(le, c, s[1..]);
      forall x | x in t ensures le(s[0], x) {
        assert x in multiset(t);
        assert x == c || x in s[1..];
      }
    } else if s != [] {
      forall k | 0 <= k < |s| ensures le(c, s[k]) { assert k == 0 || le(s[0], s[k]); }
    }
  }

  lemma {:induction false} SortEntries(le: (Cand, Cand) -> bool, s: seq<Cand>)
    ensures multiset(Sort(le, s)) == multiset(s)
  {
    if s != [] {
      SortEntries(le, s[1..]);
      InsertEntries(le, s[0], Sort(le, s[1..]));
      assert s == [s[0]] + s[1..];
    }
  }

  lemma {:induction false} SortOrders(le: (Cand, Cand) -> bool, s: seq<Cand>)
    requires TotalOrder(le)
    ensures SortedBy(le, Sort(le, s))
  {
    if s != [] {
      SortOrders(le, s[1..]);
      InsertSorted(le, s[0], Sort(le, s[1..]));
    }
  }

  lemma SortOk(le: (Cand, Cand) -> bool, s: seq<Cand>)
    requires TotalOrder(le)
    ensures SortedBy(le, Sort(le, s)) && multiset(Sort(le, s)) == multiset(s)
    ensures |Sort(le, s)| == |s| && forall c :: c in Sort(le, s) <==> c in s
  {
    hide SortedBy, TotalOrder, Sort;
    SortEntries(le, s);
    SortOrders(le, s);
    var r := Sort(le, s);
    assert |multiset(r)| == |r| && |multiset(s)| == |s|;
    assert forall c :: c in r <==> c in multiset(r);
    assert forall c :: c in s <==> c in multiset(s);
  }

  // ----- pruning -----

  /** Slots b..i hold a candidate of package x. */
  ghost predicate IdxIn(s: seq<Cand>, b: int, i: int, x: nat) {
    exists k :: 0 <= b <= k < i <= |s| && s[k].idx == x
  }

  /** The package is one of several with this hash, and one of them is new. */
  ghost predicate KeepIdx(s: seq<Cand>, b: int, i: int, cutoff: nat, x: nat) {
    IdxIn(s, b, i, x) && (exists y: nat :: y != x && IdxIn(s, b, i, y)) && exists z: nat ::
      z < cutoff && IdxIn(s, b, i, z)
  }

  /** Strictly ascending package positions, all with hash hx. */
  ghost predicate IdxRun(r: seq<Cand>, hx: nat) {
    (forall k :: 0 <= k < |r| ==> r[k].hx == hx && r[k].off == 0) && forall j, k ::
      0 <= j < k < |r| ==> r[j].idx < r[k].idx
  }

  /** What one block of equal hashes leaves behind. */
  ghost predicate BlockResult(s: seq<Cand>, b: int, i: int, cutoff: nat, r: seq<Cand>) {
    && 0 <= b < i <= |s| && IdxRun(r, s[b].hx)
    && forall x: nat :: Cand(s[b].hx, x, 0) in r <==> KeepIdx(s, b, i, cutoff, x)
  }

  /** The entries of the block so far: none while all are of one package, then each package once. */
  ghost predicate BlockSoFar(s: seq<Cand>, b: int, i: int, first: bool, r: seq<Cand>) {
    && 0 <= b < i <= |s| && IdxRun(r, s[b].hx)
    && (first ==> r == [] && forall k :: b <= k < i ==> s[k].idx == s[i - 1].idx)
    && (!first ==> 2 <= |r| <= i - b && r[|r| - 1].idx == s[i - 1].idx && forall x: nat ::
         Cand(s[b].hx, x, 0) in r <==> IdxIn(s, b, i, x))
  }

  /** A package of the block is new. */
  ghost predicate AnyNew(s: seq<Cand>, b: int, i: int, cutoff: nat) {
    exists z: nat :: z < cutoff && IdxIn(s, b, i, z)
  }

  lemma IdxInNext(s: seq<Cand>, b: int, i: int)
    requires 0 <= b < i < |s|
    ensures forall x: nat :: IdxIn(s, b, i + 1, x) <==> IdxIn(s, b, i, x) || x == s[i].idx
    ensures IdxIn(s, b, i, s[i - 1].idx) && IdxIn(s, b, i + 1, s[i].idx)
  {
    assert IdxIn(s, b, i + 1, s[i].idx);
  }

  lemma BlockStart(s: seq<Cand>, b: int)
    requires 0 <= b < |s|
    ensures BlockSoFar(s, b, b + 1, true, [])
  {
  }

  /** A repeated package adds nothing. */
  lemma BlockRepeat(s: seq<Cand>, b: int, i: int, cutoff: nat, first: bool, r: seq<Cand>)
    requires BlockSoFar(s, b, i, first, r) && i < |s| && s[i].hx == s[b].hx && s[i].idx == s[i - 1].idx
    ensures BlockSoFar(s, b, i + 1, first, r)
    ensures AnyNew(s, b, i + 1, cutoff) <==> AnyNew(s, b, i, cutoff)
  {
    IdxInNext(s, b, i);
    forall x: nat ensures IdxIn(s, b, i + 1, x) <==> IdxIn(s, b, i, x) { }
  }

  /** What a change of package enters: the first one too, if that is still missing. */
  function Entered(hx: nat, first: bool, idx: nat, next: nat): (r: seq<Cand>)
    ensures |r| == if first then 2 else 1
  {
    (if first then [Cand(hx, idx, 0)] else []) + [Cand(hx, next, 0)]
  }

  lemma BlockAdd(s: seq<Cand>, b: int, i: int, first: bool, r: seq<Cand>)
    requires BlockSoFar(s, b, i, first, r) && SortedBy(HxLe, s) && i < |s| && s[i].hx == s[b].hx
    requires s[i].idx != s[i - 1].idx
    ensures BlockSoFar(s, b, i + 1, false, r + Entered(s[b].hx, first, s[i - 1].idx, s[i].idx))
  {
    IdxInNext(s, b, i);
    forall x: nat ensures IdxIn(s, b, i + 1, x) <==> IdxIn(s, b, i, x) || x == s[i].idx { }
    assert HxLe(s[i - 1], s[i]);
    assert b == i - 1 || HxLe(s[b], s[i - 1]);
    if first { OnlyOne(s, b, i); }
  }

  lemma NewAdd(s: seq<Cand>, b: int, i: int, cutoff: nat, first: bool, r: seq<Cand>)
    requires BlockSoFar(s, b, i, first, r) && i < |s|
    ensures AnyNew(s, b, i + 1, cutoff) <==> AnyNew(s, b, i, cutoff) || s[i].idx < cutoff
    ensures first ==> (AnyNew(s, b, i, cutoff) <==> s[i - 1].idx < cutoff)
  {
    IdxInNext(s, b, i);
    forall x: nat ensures IdxIn(s, b, i + 1, x) <==> IdxIn(s, b, i, x) || x == s[i].idx { }
    if AnyNew(s, b, i, cutoff) {
      var z: nat :| z < cutoff && IdxIn(s, b, i, z);
      assert IdxIn(s, b, i + 1, z);
    }
    if AnyNew(s, b, i + 1, cutoff) {
      var z: nat :| z < cutoff && IdxIn(s, b, i + 1, z);
      assert IdxIn(s, b, i, z) || z == s[i].idx;
    }
    if s[i].idx < cutoff { assert IdxIn(s, b, i + 1, s[i].idx); }
    if first {
      OnlyOne(s, b, i);
      assert IdxIn(s, b, i, s[i - 1].idx);
    }
  }

  lemma OnlyOne(s: seq<Cand>, b: int, i: int)
    requires 0 <= b < i <= |s| && forall k :: b <= k < i ==> s[k].idx == s[i - 1].idx
    ensures forall x: nat :: IdxIn(s, b, i, x) <==> x == s[i - 1].idx
  {
    assert s[i - 1].idx == s[i - 1].idx;
  }

  /** At the end of the block: dropped if nothing was entered or no package is new. */
  lemma BlockEnd(s: seq<Cand>, b: int, i: int, cutoff: nat, first: bool, r: seq<Cand>)
    requires BlockSoFar(s, b, i, first, r)
    ensures BlockResult(s, b, i, cutoff, if first || !AnyNew(s, b, i, cutoff) then [] else r)
  {
    hide IdxIn;
    if first {
      OnlyOne(s, b, i);
    } else if AnyNew(s, b, i, cutoff) {
      assert Cand(s[b].hx, r[0].idx, 0) == r[0] && Cand(s[b].hx, r[1].idx, 0) == r[1];
      assert r[0].idx < r[1].idx;
    }
  }

  /** Enter one or two candidates into the part of the queue already read. */
  method Enter(a: array<Cand>, i: nat, j0: nat, hx: nat, first: bool, idx: nat, next: nat) returns (j: nat)
    requires j0 + (if first then 1 else 0) <= i < a.Length
    modifies a
    ensures j == j0 + |Entered(hx, first, idx, next)|
    ensures a[..j] == old(a[..j0]) + Entered(hx, first, idx, next)
    ensures forall k :: i < k < a.Length ==> a[k] == old(a[k])
  {
    j := j0;
    if first {
      a[j] := Cand(hx, idx, 0);
      j := j + 1;
    }
    a[j] := Cand(hx, next, 0);
    j := j + 1;
  }

  /** Prune one block in place: a holds the remaining input from b on, and the output so far below j0. */
  method PruneBlock(a: array<Cand>, ghost s: seq<Cand>, b: nat, j0: nat, cutoff: nat)
    returns (i: nat, j: nat, ghost r: seq<Cand>)
    requires SortedBy(HxLe, s) && a.Length == |s| && j0 <= b < |s| && forall k :: b <= k < |s| ==> a[k] == s[k]
    modifies a
    ensures b < i <= |s| && j <= i && (forall k :: i <= k < |s| ==> a[k] == s[k])
    ensures (forall k :: b <= k < i ==> s[k].hx == s[b].hx) && (i < |s| ==> s[i].hx != s[b].hx)
    ensures a[..j] == old(a[..j0]) + r && BlockResult(s, b, i, cutoff, r)
  {
    hide SortedBy, BlockSoFar, AnyNew, BlockResult, IdxIn, Entered;
    ghost var o := a[..j0];
    var hx, idx := a[b].hx, a[b].idx;
    var first, jstart: int := true, j0;
    i, j, r := b + 1, j0, [];
    BlockStart(s, b);
    while i < a.Length && a[i].hx == hx
      invariant b < i <= |s| && j0 <= j && j - j0 == |r| <= i - b && (first ==> r == []) && hx == s[b].hx
      invariant idx == s[i - 1].idx
      invariant (forall k :: i <= k < |s| ==> a[k] == s[k]) && a[..j] == o + r
      invariant forall k :: b <= k < i ==> s[k].hx == hx
      invariant BlockSoFar(s, b, i, first, r) && jstart == if !first && AnyNew(s, b, i, cutoff) then -1 else j0
    {
      if a[i].idx == idx {
        BlockRepeat(s, b, i, cutoff, first, r);
        i := i + 1;
        continue;
      }
      BlockAdd(s, b, i, first, r);
      NewAdd(s, b, i, cutoff, first, r);
      var next := a[i].idx;
      ghost var more := Entered(hx, first, idx, next);
      assert o + (r + more) == (o + r) + more;
      r := r + more;
      j := Enter(a, i, j, hx, first, idx, next);
      if jstart >= 0 && ((first && idx < cutoff) || next < cutoff) {
        jstart := -1;
      }
      first, idx, i := false, next, i + 1;
    }
    BlockEnd(s, b, i, cutoff, first, r);
    if jstart >= 0 {
      j := jstart;
      r := [];
    }
  }

  // ----- the whole queue -----

  ghost predicate HasCand(s: seq<Cand>, hx: nat, idx: nat) {
    exists k :: 0 <= k < |s| && s[k].hx == hx && s[k].idx == idx
  }

  /** A candidate survives iff another package has the hash too and one of the packages with it is new. */
  ghost predicate Keep(s: seq<Cand>, cutoff: nat, hx: nat, idx: nat) {
    HasCand(s, hx, idx) && (exists y: nat :: y != idx && HasCand(s, hx, y)) && exists z: nat ::
      z < cutoff && HasCand(s, hx, z)
  }

  ghost predicate StrictHx(r: seq<Cand>) {
    forall j, k :: 0 <= j < k < |r| ==> r[j].hx < r[k].hx || (r[j].hx == r[k].hx && r[j].idx < r[k].idx)
  }

  /** The output so far is what the blocks below slot i leave. */
  ghost predicate PrunedTo(s: seq<Cand>, cutoff: nat, i: int, r: seq<Cand>) {
    && 0 <= i <= |s| && StrictHx(r) && (0 < i < |s| ==> s[i - 1].hx != s[i].hx)
    && (forall k :: 0 <= k < |r| ==> r[k].off == 0 && exists m :: 0 <= m < i && s[m].hx == r[k].hx)
    && forall m, x: nat :: 0 <= m < i ==> (Cand(s[m].hx, x, 0) in r <==> Keep(s, cutoff, s[m].hx, x))
  }

  lemma HxMono(s: seq<Cand>)
    requires SortedBy(HxLe, s)
    ensures forall j, k :: 0 <= j <= k < |s| ==> s[j].hx <= s[k].hx
  {
    forall j, k | 0 <= j <= k < |s| ensures s[j].hx <= s[k].hx { assert j == k || HxLe(s[j], s[k]); }
  }

  /** A block of the sorted queue holds all candidates with its hash. */
  lemma BlockIsAll(s: seq<Cand>, b: int, i: int, hx: nat)
    requires SortedBy(HxLe, s) && 0 <= b < i <= |s| && (b > 0 ==> s[b - 1].hx != s[b].hx)
    requires i < |s| ==> s[i].hx != s[b].hx
    requires hx == s[b].hx && forall k :: b <= k < i ==> s[k].hx == hx
    ensures forall k :: 0 <= k < |s| && s[k].hx == hx ==> b <= k < i
    ensures forall x: nat :: HasCand(s, hx, x) <==> IdxIn(s, b, i, x)
  {
    HxMono(s);
    forall k | 0 <= k < |s| && s[k].hx == hx ensures b <= k < i {
      assert b > 0 ==> s[b - 1].hx < s[b].hx;
      assert i < |s| ==> s[i - 1].hx < s[i].hx;
    }
    forall x: nat | HasCand(s, hx, x) ensures IdxIn(s, b, i, x) {
      var k :| 0 <= k < |s| && s[k].hx == hx && s[k].idx == x;
    }
  }

  lemma KeepIsKeepIdx(s: seq<Cand>, b: int, i: int, cutoff: nat, hx: nat, x: nat)
    requires forall y: nat :: HasCand(s, hx, y) <==> IdxIn(s, b, i, y)
    ensures Keep(s, cutoff, hx, x) <==> KeepIdx(s, b, i, cutoff, x)
  {
    hide HasCand, IdxIn;
  }

  lemma PrunedNext(s: seq<Cand>, cutoff: nat, b: int, i: int, o: seq<Cand>, r: seq<Cand>)
    requires SortedBy(HxLe, s) && PrunedTo(s, cutoff, b, o) && b < |s| && BlockResult(s, b, i, cutoff, r)
    requires (forall k :: b <= k < i ==> s[k].hx == s[b].hx) && (i < |s| ==> s[i].hx != s[b].hx)
    ensures PrunedTo(s, cutoff, i, o + r)
  {
    hide HasCand, IdxIn, Keep, KeepIdx;
    var hx, t := s[b].hx, o + r;
    BlockIsAll(s, b, i, hx);
    forall x: nat
      ensures Keep(s, cutoff, hx, x) <==> KeepIdx(s, b, i, cutoff, x)
    {
      KeepIsKeepIdx(s, b, i, cutoff, hx, x);
    }
    forall m | 0 <= m < b ensures s[m].hx < hx { assert HxLe(s[m], s[b]); }
    forall m, x: nat | 0 <= m < i ensures Cand(s[m].hx, x, 0) in t <==> Keep(s, cutoff, s[m].hx, x) {
      PrunedMember(s, cutoff, b, i, o, r, m, x);
    }
    PrunedOrder(s, cutoff, b, i, o, r);
  }

  lemma PrunedMember(s: seq<Cand>, cutoff: nat, b: int, i: int, o: seq<Cand>, r: seq<Cand>, m: int, x: nat)
    requires PrunedTo(s, cutoff, b, o) && 0 <= b < i <= |s| && BlockResult(s, b, i, cutoff, r) && 0 <= m < i
    requires (forall k :: b <= k < i ==> s[k].hx == s[b].hx) && forall k :: 0 <= k < b ==> s[k].hx < s[b].hx
    requires forall y: nat :: Keep(s, cutoff, s[b].hx, y) <==> KeepIdx(s, b, i, cutoff, y)
    ensures Cand(s[m].hx, x, 0) in o + r <==> Keep(s, cutoff, s[m].hx, x)
  {
    hide HasCand, IdxIn, Keep, KeepIdx;
    assert forall c :: c in r ==> c.hx == s[b].hx;
    assert forall c :: c in o ==> c.hx < s[b].hx;
    assert m >= b ==> s[m].hx == s[b].hx;
  }

  lemma PrunedOrder(s: seq<Cand>, cutoff: nat, b: int, i: int, o: seq<Cand>, r: seq<Cand>)
    requires PrunedTo(s, cutoff, b, o) && 0 <= b < i <= |s| && BlockResult(s, b, i, cutoff, r)
    requires forall k :: 0 <= k < b ==> s[k].hx < s[b].hx
    ensures StrictHx(o + r)
    ensures forall k :: 0 <= k < |o + r| ==> (o + r)[k].off == 0 && exists m :: 0 <= m < i && s[m].hx == (o + r)[k].hx
  {
    hide HasCand, IdxIn, Keep, KeepIdx;
    var t := o + r;
    forall k | 0 <= k < |t| ensures t[k].off == 0 && exists m :: 0 <= m < i && s[m].hx == t[k].hx {
      if k < |o| {
        assert t[k] == o[k];
        var m :| 0 <= m < b && s[m].hx == o[k].hx;
        assert m < i && s[m].hx == t[k].hx;
      } else {
        assert t[k] == r[k - |o|] && s[b].hx == t[k].hx;
      }
    }
  }

  /** Prune the sorted queue in place; the first n entries remain. */
  method Prune(a: array<Cand>, cutoff: nat) returns (n: nat)
    requires SortedBy(HxLe, a[..])
    modifies a
    ensures n <= a.Length && StrictHx(a[..n])
    ensures forall c :: c in a[..n] <==> c.off == 0 && Keep(old(a[..]), cutoff, c.hx, c.idx)
  {
    hide SortedBy, PrunedTo, BlockResult, Keep, StrictHx;
    ghost var s := a[..];
    PrunedNone(s, cutoff);
    var i := 0;
    n := 0;
    while i < a.Length
      invariant i <= a.Length && n <= i && (forall k :: i <= k < |s| ==> a[k] == s[k]) && PrunedTo(s, cutoff, i, a[..n])
    {
      ghost var b, o := i, a[..n];
      ghost var r;
      i, n, r := PruneBlock(a, s, i, n, cutoff);
      PrunedNext(s, cutoff, b, i, o, r);
    }
    PrunedDone(s, cutoff, a[..n]);
  }

  lemma PrunedNone(s: seq<Cand>, cutoff: nat)
    ensures PrunedTo(s, cutoff, 0, [])
  {
  }

  lemma PrunedDone(s: seq<Cand>, cutoff: nat, r: seq<Cand>)
    requires PrunedTo(s, cutoff, |s|, r)
    ensures StrictHx(r) && forall c :: c in r <==> c.off == 0 && Keep(s, cutoff, c.hx, c.idx)
  {
    forall c ensures c in r <==> c.off == 0 && Keep(s, cutoff, c.hx, c.idx) {
      if c in r {
        var k :| 0 <= k < |r| && r[k] == c;
        var m :| 0 <= m < |s| && s[m].hx == r[k].hx;
        assert c == Cand(s[m].hx, c.idx, 0);
      } else if c.off == 0 && HasCand(s, c.hx, c.idx) {
        var m :| 0 <= m < |s| && s[m].hx == c.hx && s[m].idx == c.idx;
        assert c == Cand(s[m].hx, c.idx, 0);
      }
    }
  }
}
