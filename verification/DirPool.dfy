/** The directory pool: blocks of entries, the chain of blocks per parent, and the children they enumerate. */
module DirPool {

  // ----- the blocks -----

  /** The block head before slot i. */
  function Head(dirs: seq<int>, i: nat): (h: nat)
    requires 0 < i <= |dirs| && dirs[0] <= 0
    ensures h < i && dirs[h] <= 0 && forall k :: h < k < i ==> dirs[k] > 0
  {
    if dirs[i - 1] <= 0 then i - 1 else Head(dirs, i - 1)
  }

  /** `dirpool_parent` */
  function Parent(dirs: seq<int>, i: nat): nat
    requires 0 < i <= |dirs| && dirs[0] <= 0
  {
    -dirs[Head(dirs, i)]
  }

  /** A directory id. */
  predicate IsDir(dirs: seq<int>, i: int) {
    0 < i < |dirs| && dirs[i] > 0
  }

  /** A directory or the root of all. */
  predicate IsParent(dirs: seq<int>, p: int) {
    p == 0 || IsDir(dirs, p)
  }

  /** Entry `comp` of directory `parent`. */
  predicate Names(dirs: seq<int>, i: int, parent: int, comp: int)
    requires |dirs| > 0 ==> dirs[0] <= 0
  {
    IsDir(dirs, i) && dirs[i] == comp && Parent(dirs, i) == parent
  }

  ghost predicate ValidDirs(dirs: seq<int>) {
    && |dirs| >= 2 && dirs[0] == 0 && dirs[1] == 1 && dirs[|dirs| - 1] > 0
    && (forall h :: 0 <= h < |dirs| && dirs[h] <= 0 ==> h + 1 < |dirs| && dirs[h + 1] > 0)
    && (forall h :: 0 < h < |dirs| && dirs[h] <= 0 ==> -dirs[h] < h && IsParent(dirs, -dirs[h]))
    && forall i, j, p, c :: Names(dirs, i, p, c) && Names(dirs, j, p, c) ==> i == j
  }

  lemma {:induction false} HeadPrefix(dirs: seq<int>, more: seq<int>, i: nat)
    requires 0 < i <= |dirs| && dirs[0] <= 0
    ensures (dirs + more)[0] <= 0 && Head(dirs + more, i) == Head(dirs, i) && Parent(dirs + more, i) == Parent(dirs, i)
  {
    if dirs[i - 1] > 0 {
      HeadPrefix(dirs, more, i - 1);
    }
  }

  lemma NamesPrefix(dirs: seq<int>, more: seq<int>, i: int, p: int, c: int)
    requires |dirs| > 0 && dirs[0] <= 0 && i < |dirs|
    ensures Names(dirs + more, i, p, c) <==> Names(dirs, i, p, c)
  {
    if 0 < i { HeadPrefix(dirs, more, i); }
  }

  /** Ids are searched one after the other. */
  function Scan(dirs: seq<int>, n: nat, parent: int, comp: int): (r: nat)
    requires n <= |dirs| && (|dirs| > 0 ==> dirs[0] <= 0)
    ensures r != 0 ==> r < n && Names(dirs, r, parent, comp)
    ensures r == 0 ==> forall i :: i < n ==> !Names(dirs, i, parent, comp)
  {
    if n == 0 then 0 else if Names(dirs, n - 1, parent, comp) then n - 1 else Scan(dirs, n - 1, parent, comp)
  }

  // ----- the chain of blocks -----

  /** The first entry of the last block of parent p below slot n, or 0. */
  function Last(dirs: seq<int>, p: int, n: nat): (l: nat)
    requires n <= |dirs|
    ensures l <= n
    ensures l > 0 ==> dirs[l - 1] == -p && p >= 0 && forall h :: l <= h < n && dirs[h] <= 0 ==> dirs[h] != -p
    ensures l == 0 ==> forall h :: 0 <= h < n && dirs[h] <= 0 ==> dirs[h] != -p
  {
    if n == 0 then 0 else if dirs[n - 1] <= 0 && dirs[n - 1] == -p then n else Last(dirs, p, n - 1)
  }

  /** `dirtraverse` after the first n slots: parents point to their last block, block heads to the one before. */
  function Traverse(dirs: seq<int>, n: nat): (t: seq<int>)
    requires n <= |dirs|
    ensures |t| == n
  {
    if n == 0 then []
    else
      var t, i := Traverse(dirs, n - 1), n - 1;
      if dirs[i] > 0 then t + [0]
      else if -dirs[i] < i then (t + [t[-dirs[i]]])[-dirs[i] := i + 1]
      else t + [i + 1]
  }

  lemma TraverseStep(dirs: seq<int>, n: nat)
    requires ValidDirs(dirs) && 1 < n <= |dirs|
    ensures var t, q := Traverse(dirs, n - 1), -dirs[n - 1];
      if q < 0 then Traverse(dirs, n) == t + [0] else q < n - 1 && Traverse(dirs, n) == (t + [t[q]])[q := n]
  {
  }

  lemma TraverseFirst(dirs: seq<int>)
    requires ValidDirs(dirs)
    ensures Traverse(dirs, 1) == [1] && Last(dirs, 0, 1) == 1
  {
    assert Traverse(dirs, 0) == [];
  }

  /** A parent points to the first entry of its last block. */
  lemma {:induction false} TraverseParent(dirs: seq<int>, n: nat, p: nat)
    requires ValidDirs(dirs) && p < n <= |dirs| && IsParent(dirs, p)
    ensures Traverse(dirs, n)[p] == Last(dirs, p, n)
  {
    hide Traverse;
    if n == 1 {
      TraverseFirst(dirs);
    } else {
      TraverseStep(dirs, n);
      if p < n - 1 { TraverseParent(dirs, n - 1, p); } else { NoBlockYet(dirs, p); }
    }
  }

  /** A block points to the first entry of its parent's block before. */
  lemma {:induction false} TraverseLink(dirs: seq<int>, n: nat, h: nat)
    requires ValidDirs(dirs) && 0 < h < n <= |dirs| && dirs[h] <= 0
    ensures Traverse(dirs, n)[h] == Last(dirs, -dirs[h], h)
  {
    hide Traverse;
    TraverseStep(dirs, n);
    if h < n - 1 { TraverseLink(dirs, n - 1, h); } else { TraverseParent(dirs, n - 1, -dirs[h]); }
  }

  /** A directory has no block before it exists. */
  lemma NoBlockYet(dirs: seq<int>, p: nat)
    requires ValidDirs(dirs) && 0 < p < |dirs|
    ensures Last(dirs, p, p) == 0 && Last(dirs, p, p + 1) == 0
  {
  }

  // ----- adding an entry -----

  /** The slots a new entry takes: a new block is started when the last entry has another parent. */
  function Added(dirs: seq<int>, parent: int, comp: int): seq<int>
    requires |dirs| > 1 && dirs[0] <= 0
  {
    if Parent(dirs, |dirs| - 1) == parent then [comp] else [-parent, comp]
  }

  /** The new last entry is the directory wanted, and nothing else changes. */
  lemma AddedNames(dirs: seq<int>, parent: int, comp: int)
    requires ValidDirs(dirs) && IsParent(dirs, parent) && comp > 0
    ensures (dirs + Added(dirs, parent, comp))[0] <= 0
    ensures forall i, p, c :: Names(dirs + Added(dirs, parent, comp), i, p, c) <==>
      (i < |dirs| && Names(dirs, i, p, c)) || (i == |dirs + Added(dirs, parent, comp)| - 1 && p == parent && c == comp)
  {
    var d := dirs + Added(dirs, parent, comp);
    HeadStep(dirs, |dirs| - 1);
    HeadPrefix(dirs, Added(dirs, parent, comp), |dirs|);
    forall i, p, c
      ensures Names(d, i, p, c) <==> (i < |dirs| && Names(dirs, i, p, c)) || (i == |d| - 1 && p == parent && c == comp)
    {
      if i < |dirs| { NamesPrefix(dirs, Added(dirs, parent, comp), i, p, c); }
    }
  }

  lemma AddedValid(dirs: seq<int>, parent: int, comp: int)
    requires ValidDirs(dirs) && IsParent(dirs, parent) && comp > 0
    requires forall i :: 0 <= i < |dirs| ==> !Names(dirs, i, parent, comp)
    ensures ValidDirs(dirs + Added(dirs, parent, comp))
  {
    hide Parent, Head;
    var d := dirs + Added(dirs, parent, comp);
    AddedNames(dirs, parent, comp);
    assert forall h :: 0 <= h < |dirs| ==> d[h] == dirs[h];
  }

  lemma HeadStep(dirs: seq<int>, c: nat)
    requires |dirs| > 0 && dirs[0] <= 0 && 0 < c < |dirs| && dirs[c] > 0
    ensures Head(dirs, c + 1) == Head(dirs, c)
  {
  }

  lemma HeadIs(dirs: seq<int>, h: nat, i: nat)
    requires |dirs| > 0 && dirs[0] <= 0 && h < i <= |dirs| && dirs[h] <= 0 && forall k :: h < k < i ==> dirs[k] > 0
    ensures Head(dirs, i) == h
  {
  }

  lemma {:induction false} TraversePrefix(dirs: seq<int>, more: seq<int>, n: nat)
    requires n <= |dirs|
    ensures Traverse(dirs + more, n) == Traverse(dirs, n)
  {
    if n > 0 { TraversePrefix(dirs, more, n - 1); }
  }

  /** The ids of a longer pool are scanned in the same order. */
  lemma {:induction false} ScanUnique(dirs: seq<int>, n: nat, i: nat, parent: int, comp: int)
    requires ValidDirs(dirs) && n <= |dirs| && Names(dirs, i, parent, comp) && i < n
    ensures Scan(dirs, n, parent, comp) == i
  {
    if !Names(dirs, n - 1, parent, comp) { ScanUnique(dirs, n - 1, i, parent, comp); }
  }

  // ----- the children of a directory -----

  /** Entry c and those after it in its block, then the blocks before with the same parent. */
  ghost function Rest(dirs: seq<int>, c: nat): seq<nat>
    requires ValidDirs(dirs) && IsDir(dirs, c)
    decreases Head(dirs, c), 1, |dirs| - c
  {
    if c + 1 < |dirs| && dirs[c + 1] > 0 then [c] + Rest(dirs, c + 1)
    else [c] + Children(dirs, Parent(dirs, c), Head(dirs, c))
  }

  /** The children of p below slot n, a block head or the end: last block first. */
  ghost function Children(dirs: seq<int>, p: nat, n: nat): seq<nat>
    requires ValidDirs(dirs) && n <= |dirs|
    decreases n, 0, 0
  {
    var l := Last(dirs, p, n);
    if l == 0 || l >= |dirs| then [] else Rest(dirs, l)
  }

  ghost predicate Boundary(dirs: seq<int>, n: nat) {
    n == |dirs| || (n < |dirs| && dirs[n] <= 0)
  }

  /** `x` is a child of p in the block of c from c on, or in an earlier block. */
  ghost predicate InRest(dirs: seq<int>, c: nat, x: nat)
    requires ValidDirs(dirs) && IsDir(dirs, c)
  {
    IsDir(dirs, x) && Parent(dirs, x) == Parent(dirs, c)
      && (x < Head(dirs, c) || (Head(dirs, x) == Head(dirs, c) && x >= c))
  }

  lemma InRestStep(dirs: seq<int>, c: nat, x: nat)
    requires ValidDirs(dirs) && IsDir(dirs, c) && IsDir(dirs, c + 1)
    ensures InRest(dirs, c, x) <==> x == c || InRest(dirs, c + 1, x)
    ensures Head(dirs, c + 1) == Head(dirs, c) && !InRest(dirs, c + 1, c)
  {
    HeadStep(dirs, c);
  }

  lemma InRestEnd(dirs: seq<int>, c: nat, x: nat)
    requires ValidDirs(dirs) && IsDir(dirs, c) && !IsDir(dirs, c + 1)
    ensures InRest(dirs, c, x) <==>
      x == c || (IsDir(dirs, x) && x < Head(dirs, c) && Parent(dirs, x) == Parent(dirs, c))
  {
    assert c + 1 < |dirs| ==> dirs[c + 1] <= 0;
  }

  lemma {:induction false} RestMembers(dirs: seq<int>, c: nat)
    requires ValidDirs(dirs) && IsDir(dirs, c)
    ensures forall x :: x in Rest(dirs, c) <==> InRest(dirs, c, x)
    ensures forall i, j :: 0 <= i < j < |Rest(dirs, c)| ==> Rest(dirs, c)[i] != Rest(dirs, c)[j]
    decreases Head(dirs, c), 1, |dirs| - c
  {
    hide InRest, ValidDirs, Head, Parent, Last;
    ZeroHead(dirs);
    var h, p := Head(dirs, c), Parent(dirs, c);
    if c + 1 < |dirs| && dirs[c + 1] > 0 {
      InRestStep(dirs, c, c);
      RestMembers(dirs, c + 1);
      forall x: nat ensures InRest(dirs, c, x) <==> x == c || InRest(dirs, c + 1, x) { InRestStep(dirs, c, x); }
      Cons(c, Rest(dirs, c + 1));
    } else {
      ChildrenMembers(dirs, p, h);
      forall x: nat
        ensures InRest(dirs, c, x) <==> x == c || (IsDir(dirs, x) && x < h && Parent(dirs, x) == p)
      {
        InRestEnd(dirs, c, x);
      }
      Cons(c, Children(dirs, p, h));
    }
  }

  lemma ZeroHead(dirs: seq<int>)
    requires ValidDirs(dirs)
    ensures |dirs| >= 2 && dirs[0] == 0
  {
  }

  lemma Cons(c: nat, s: seq<nat>)
    requires c !in s && forall i, j :: 0 <= i < j < |s| ==> s[i] != s[j]
    ensures forall i, j :: 0 <= i < j < |[c] + s| ==> ([c] + s)[i] != ([c] + s)[j]
    ensures forall x :: x in [c] + s <==> x == c || x in s
  {
  }

  /** All children of p below the boundary, each once. */
  lemma {:induction false} ChildrenMembers(dirs: seq<int>, p: nat, n: nat)
    requires ValidDirs(dirs) && n <= |dirs| && Boundary(dirs, n)
    ensures forall x :: x in Children(dirs, p, n) <==> IsDir(dirs, x) && x < n && Parent(dirs, x) == p
    ensures forall i, j :: 0 <= i < j < |Children(dirs, p, n)| ==> Children(dirs, p, n)[i] != Children(dirs, p, n)[j]
    decreases n, 0, 0
  {
    hide InRest, ValidDirs, Head, Parent, Last, Rest;
    ZeroHead(dirs);
    var l := Last(dirs, p, n);
    if l > 0 {
      LastEntry(dirs, p, n);
      RestMembers(dirs, l);
      forall x: nat
        ensures InRest(dirs, l, x) <==> IsDir(dirs, x) && x < n && Parent(dirs, x) == p
      {
        LastCovers(dirs, p, n, x);
      }
    } else {
      forall x: nat ensures !(IsDir(dirs, x) && x < n && Parent(dirs, x) == p) { LastNone(dirs, p, n, x); }
    }
  }

  lemma LastEntry(dirs: seq<int>, p: nat, n: nat)
    requires ValidDirs(dirs) && n <= |dirs| && Last(dirs, p, n) > 0
    ensures IsDir(dirs, Last(dirs, p, n))
    ensures Head(dirs, Last(dirs, p, n)) == Last(dirs, p, n) - 1 && Parent(dirs, Last(dirs, p, n)) == p
  {
  }

  lemma LastCovers(dirs: seq<int>, p: nat, n: nat, x: nat)
    requires ValidDirs(dirs) && n <= |dirs| && Boundary(dirs, n) && Last(dirs, p, n) > 0
    requires IsDir(dirs, Last(dirs, p, n))
    ensures InRest(dirs, Last(dirs, p, n), x) <==> IsDir(dirs, x) && x < n && Parent(dirs, x) == p
  {
    LastEntry(dirs, p, n);
    if IsDir(dirs, x) && Parent(dirs, x) == p {
      assert x < n ==> Head(dirs, x) < Last(dirs, p, n);
    }
  }

  lemma LastNone(dirs: seq<int>, p: nat, n: nat, x: nat)
    requires ValidDirs(dirs) && n <= |dirs| && Last(dirs, p, n) == 0
    ensures !(IsDir(dirs, x) && x < n && Parent(dirs, x) == p)
  {
  }
}
