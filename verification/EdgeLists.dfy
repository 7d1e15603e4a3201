/** Successor lists of all nodes in one queue: a header of offsets, then the zero-terminated lists. */
module EdgeLists {
  import opened Containers
  import opened SccGraph

  function Body(adj: seq<seq<int>>): seq<int> {
    if adj == [] then [] else Body(adj[..|adj| - 1]) + (adj[|adj| - 1] + [0])
  }

  /** Where the list of node i + 1 starts. */
  function Offset(n: nat, adj: seq<seq<int>>, i: nat): nat
    requires i <= |adj|
  {
    n + 2 + |Body(adj[..i])|
  }

  /** A zero, the offsets, zeros for nodes not yet reached, and one more zero. */
  function Header(n: nat, adj: seq<seq<int>>): (r: seq<int>)
    requires |adj| <= n
    ensures |r| == n + 2
  {
    seq(n + 2, k requires 0 <= k < n + 2 => if 1 <= k <= |adj| then Offset(n, adj, k - 1) else 0)
  }

  function Flat(n: nat, adj: seq<seq<int>>): seq<int>
    requires |adj| <= n
  {
    Header(n, adj) + Body(adj)
  }

  lemma {:induction false} BodyAppend(a: seq<seq<int>>, b: seq<seq<int>>)
    ensures Body(a + b) == Body(a) + Body(b)
  {
    if b == [] {
      assert a + b == a;
    } else {
      assert (a + b)[..|a + b| - 1] == a + b[..|b| - 1];
      BodyAppend(a, b[..|b| - 1]);
    }
  }

  lemma BodyOne(l: seq<int>)
    ensures Body([l]) == l + [0]
  {
    assert [l][..0] == [];
  }

  /** The body around the list of node j + 1. */
  lemma BodySplit(adj: seq<seq<int>>, j: nat, l: seq<int>)
    requires j < |adj|
    ensures Body(adj[j := l]) == Body(adj[..j]) + (l + [0]) + Body(adj[j + 1..])
  {
    hide Body;
    assert adj[j := l] == adj[..j] + [l] + adj[j + 1..];
    BodyAppend(adj[..j] + [l], adj[j + 1..]);
    BodyAppend(adj[..j], [l]);
    BodyOne(l);
  }

  lemma {:induction false} OutOf(pre: seq<int>, l: seq<int>, post: seq<int>)
    requires 0 !in l
    ensures OutFrom(pre + (l + [0]) + post, |pre|) == l
    decreases |l|
  {
    var s := pre + (l + [0]) + post;
    if l == [] {
      assert s[|pre|] == 0;
    } else {
      assert s[|pre|] == l[0] && l[0] in l;
      assert s == (pre + [l[0]]) + (l[1..] + [0]) + post;
      OutOf(pre + [l[0]], l[1..], post);
      assert l == [l[0]] + l[1..];
    }
  }

  /** The list of node i + 1 is found at its offset. */
  lemma OutFlat(n: nat, adj: seq<seq<int>>, i: nat)
    requires i < |adj| <= n && 0 !in adj[i]
    ensures var e := Flat(n, adj);
      e[i + 1] == Offset(n, adj, i) && n < e[i + 1] < |e| && OutFrom(e, e[i + 1]) == adj[i]
  {
    hide Body, OutFrom;
    BodySplit(adj, i, adj[i]);
    assert adj[i := adj[i]] == adj;
    var h, a, b := Header(n, adj), Body(adj[..i]), Body(adj[i + 1..]);
    assert Flat(n, adj) == (h + a) + (adj[i] + [0]) + b;
    OutOf(h + a, adj[i], b);
    assert Flat(n, adj)[i + 1] == h[i + 1];
  }

  // ----- filling the queue -----

  /** The last list is still open: no zero after it. */
  function Open(n: nat, adj: seq<seq<int>>, acc: seq<int>): seq<int>
    requires |adj| < n
  {
    Header(n, adj + [acc]) + Body(adj) + acc
  }

  lemma SameHeader(n: nat, adj: seq<seq<int>>, a: seq<int>, b: seq<int>)
    requires |adj| < n
    ensures Header(n, adj + [a]) == Header(n, adj + [b])
  {
    hide Body;
    var x, y := adj + [a], adj + [b];
    forall m | 0 <= m <= |adj| ensures x[..m] == y[..m] {
    }
  }

  lemma Opened(n: nat, adj: seq<seq<int>>)
    requires |adj| < n
    ensures var e := Flat(n, adj); e[|adj| + 1 := |e|] == Open(n, adj, [])
  {
    hide Body;
    var e, h := Flat(n, adj), Header(n, adj + [[]]);
    forall k | 0 <= k < n + 2 ensures h[k] == if k == |adj| + 1 then |e| else Header(n, adj)[k] {
      if 1 <= k <= |adj| + 1 { assert (adj + [[]])[..k - 1] == adj[..k - 1]; }
      if k == |adj| + 1 { assert adj[..k - 1] == adj; }
    }
    assert e[|adj| + 1 := |e|] == h + Body(adj) + [];
  }

  lemma Finished(n: nat, adj: seq<seq<int>>, acc: seq<int>)
    requires |adj| < n
    ensures Open(n, adj, acc) + [0] == Flat(n, adj + [acc])
  {
    assert (adj + [acc])[..|adj|] == adj;
  }

  lemma FlatEnds(n: nat, adj: seq<seq<int>>)
    requires |adj| <= n
    ensures var e := Flat(n, adj); |e| >= n + 2 && e[|e| - 1] == if adj == [] then Header(n, adj)[n + 1] else 0
    ensures Header(n, adj)[n + 1] == 0
  {
  }

  /** Append a node unless it is the last one already. */
  function Put(acc: seq<int>, x: int): seq<int> {
    if acc != [] && acc[|acc| - 1] == x then acc else acc + [x]
  }

  function PutAll(acc: seq<int>, xs: seq<int>): seq<int> {
    if xs == [] then acc else Put(PutAll(acc, xs[..|xs| - 1]), xs[|xs| - 1])
  }

  lemma {:induction false} PutAllTwice(acc: seq<int>, a: seq<int>, b: seq<int>)
    ensures PutAll(PutAll(acc, a), b) == PutAll(acc, a + b)
  {
    if b == [] {
      assert a + b == a;
    } else {
      assert (a + b)[..|a + b| - 1] == a + b[..|b| - 1];
      PutAllTwice(acc, a, b[..|b| - 1]);
    }
  }

  /** The list without the copies of y it starts with. */
  function Dropped(xs: seq<int>, y: int): seq<int> {
    if xs != [] && xs[0] == y then Dropped(xs[1..], y) else xs
  }

  lemma {:induction false} DroppedSnoc(xs: seq<int>, x: int, y: int)
    ensures Dropped(xs + [x], y) == if Dropped(xs, y) == [] && x == y then [] else Dropped(xs, y) + [x]
  {
    if xs == [] {
      assert xs + [x] == [x];
    } else if xs[0] == y {
      assert (xs + [x])[1..] == xs[1..] + [x];
      DroppedSnoc(xs[1..], x, y);
    }
  }

  /** What putting in xs adds behind acc: all of xs, but not the copies of the last node of acc it starts with. */
  function News(acc: seq<int>, xs: seq<int>): seq<int> {
    if acc == [] then xs else Dropped(xs, acc[|acc| - 1])
  }

  /** Everything put in is there, after what was there before, and the new part holds exactly the news. */
  lemma {:induction false} PutAllMembers(acc: seq<int>, xs: seq<int>)
    ensures var r := PutAll(acc, xs);
      && |acc| <= |r| && r[..|acc|] == acc
      && (forall x :: x in r <==> x in acc || x in xs)
      && SameNodes(r[|acc|..], News(acc, xs))
  {
    if xs != [] {
      var ys, y := xs[..|xs| - 1], xs[|xs| - 1];
      PutAllMembers(acc, ys);
      assert xs == ys + [y];
      if acc != [] { DroppedSnoc(ys, y, acc[|acc| - 1]); }
      var r := PutAll(acc, ys);
      assert r == acc + r[|acc|..];
      PutMembers(acc, r[|acc|..], News(acc, ys), y);
      PutBehind(acc, r[|acc|..], y);
    }
  }

  ghost predicate SameNodes(a: seq<int>, b: seq<int>) {
    forall x :: x in a <==> x in b
  }

  lemma SameEmpty(a: seq<int>, b: seq<int>)
    requires SameNodes(a, b)
    ensures a == [] <==> b == []
  {
    if a != [] {
      var x := a[0];
      assert x in a;
    }
    if b != [] {
      var x := b[0];
      assert x in b;
    }
  }

  /** The part t behind acc keeps holding exactly the news. */
  lemma PutMembers(acc: seq<int>, t: seq<int>, news: seq<int>, y: int)
    requires SameNodes(t, news)
    ensures var known := if t != [] then t[|t| - 1] == y else acc != [] && acc[|acc| - 1] == y;
      SameNodes(if known then t else t + [y], if news == [] && acc != [] && y == acc[|acc| - 1] then [] else news + [y])
  {
    SameEmpty(t, news);
    if t != [] { assert t[|t| - 1] in t; }
  }

  lemma PutBehind(acc: seq<int>, t: seq<int>, y: int)
    ensures var known := if t != [] then t[|t| - 1] == y else acc != [] && acc[|acc| - 1] == y;
      Put(acc + t, y) == acc + if known then t else t + [y]
  {
    if t == [] { assert acc + t == acc; }
  }

  method AddEdge(edges: Queue, x: int, ghost n: nat, ghost adj: seq<seq<int>>, ghost acc: seq<int>)
    requires |adj| < n && edges.elements == Open(n, adj, acc) && x != 0
    modifies edges
    ensures edges.elements == Open(n, adj, Put(acc, x))
  {
    hide Header;
    FlatEnds(n, adj);
    Last(n, adj, acc);
    SameHeader(n, adj, acc, Put(acc, x));
    if edges.elements[|edges.elements| - 1] != x { edges.Push(x); }
  }

  lemma Last(n: nat, adj: seq<seq<int>>, acc: seq<int>)
    requires |adj| < n
    ensures var e := Open(n, adj, acc); |e| > 0 && e[|e| - 1] == if acc == [] then 0 else acc[|acc| - 1]
  {
    var h := Header(n, adj + [acc]);
    if acc == [] {
      assert Open(n, adj, acc) == h + Body(adj);
      if adj == [] { assert |adj + [acc]| == 1 <= n && h[n + 1] == 0; }
    }
  }

  // ----- inserting later -----

  /** The lists with x at place k of node j + 1. */
  function Inserted(adj: seq<seq<int>>, j: nat, k: nat, x: int): (r: seq<seq<int>>)
    requires j < |adj| && k <= |adj[j]|
    ensures |r| == |adj|
  {
    adj[j := adj[j][..k] + [x] + adj[j][k..]]
  }

  /** Lists behind the insertion move by one. */
  lemma OffsetMoves(n: nat, adj: seq<seq<int>>, j: nat, k: nat, x: int, i: nat)
    requires j < |adj| <= n && k <= |adj[j]| && i <= |adj|
    ensures Offset(n, Inserted(adj, j, k, x), i) == Offset(n, adj, i) + if i > j then 1 else 0
  {
    hide Body;
    var r := Inserted(adj, j, k, x);
    if i <= j {
      assert r[..i] == adj[..i];
    } else {
      assert r[..i] == adj[..i][j := r[j]];
      BodySplit(adj[..i], j, r[j]);
      BodySplit(adj[..i], j, adj[j]);
      assert adj[..i][j := adj[j]] == adj[..i];
    }
  }

  lemma BodyMoves(adj: seq<seq<int>>, j: nat, k: nat, x: int)
    requires j < |adj| && k <= |adj[j]|
    ensures var at := |Body(adj[..j])| + k;
      at <= |Body(adj)| && Body(Inserted(adj, j, k, x)) == Body(adj)[..at] + [x] + Body(adj)[at..]
  {
    hide Body;
    var l := adj[j];
    BodySplit(adj, j, l[..k] + [x] + l[k..]);
    BodySplit(adj, j, l);
    assert adj[j := l] == adj;
    Spliced(Body(adj[..j]), l, k, x, Body(adj[j + 1..]));
  }

  lemma Spliced(a: seq<int>, l: seq<int>, k: nat, x: int, b: seq<int>)
    requires k <= |l|
    ensures var s := a + (l + [0]) + b;
      a + ((l[..k] + [x] + l[k..]) + [0]) + b == s[..|a| + k] + [x] + s[|a| + k..]
  {
    var s := a + (l + [0]) + b;
    assert s[..|a| + k] == a + l[..k];
    assert s[|a| + k..] == l[k..] + [0] + b;
  }

  /** Insert x at place k of the list of node j + 1 and move the offsets behind it. */
  method InsertEdge(edges: Queue, count: nat, j: nat, k: nat, x: int, ghost adj: seq<seq<int>>)
    requires |adj| == count && j < count && k <= |adj[j]| && edges.elements == Flat(count, adj)
    modifies edges
    ensures edges.elements == Flat(count, Inserted(adj, j, k, x))
  {
    hide Body, Header, Inserted;
    ghost var e0, adj' := edges.elements, Inserted(adj, j, k, x);
    BodyMoves(adj, j, k, x);
    HeaderAt(count, adj, j + 1);
    edges.Insert(edges.elements[j + 1] + k, x);
    assert edges.elements == Header(count, adj) + Body(adj') by {
      Split(Header(count, adj), Body(adj), edges.elements, |Body(adj[..j])| + k, x);
    }
    ghost var e1 := edges.elements;
    var i := j + 2;
    while i < count + 1
      invariant j + 2 <= i && (i <= count + 1 || i == j + 2) && |edges.elements| == |e1|
      invariant forall m ::
        0 <= m < |e1| ==> edges.elements[m] == if j + 2 <= m < i && m <= count then e1[m] + 1 else e1[m]
    {
      edges.elements := edges.elements[i := edges.elements[i] + 1];
      i := i + 1;
    }
    HeaderMoves(count, adj, j, k, x);
    assert edges.elements == Header(count, adj') + Body(adj');
  }

  lemma Split(h: seq<int>, b: seq<int>, e: seq<int>, at: nat, x: int)
    requires at <= |b| && e == (h + b)[..|h| + at] + [x] + (h + b)[|h| + at..]
    ensures e == h + (b[..at] + [x] + b[at..])
  {
  }

  lemma HeaderAt(n: nat, adj: seq<seq<int>>, k: nat)
    requires |adj| <= n && k < n + 2
    ensures Header(n, adj)[k] == (if 1 <= k <= |adj| then Offset(n, adj, k - 1) else 0) == Flat(n, adj)[k]
  {
  }

  lemma HeaderMoves(n: nat, adj: seq<seq<int>>, j: nat, k: nat, x: int)
    requires j < |adj| == n && k <= |adj[j]|
    ensures forall m :: 0 <= m < n + 2 ==>
      Header(n, Inserted(adj, j, k, x))[m] == Header(n, adj)[m] + if j + 2 <= m <= n then 1 else 0
  {
    hide Body, Inserted;
    forall m | 0 <= m < n + 2
      ensures Header(n, Inserted(adj, j, k, x))[m] == Header(n, adj)[m] + if j + 2 <= m <= n then 1 else 0
    {
      if 1 <= m <= n { OffsetMoves(n, adj, j, k, x, m - 1); }
    }
  }
}
