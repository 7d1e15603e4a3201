/** The normaliser: complex dependencies to CNF or DNF blocks, in place on one shared queue. */
module CplxDeps {
  import opened Containers
  import opened DepBlocks
  import opened DepMerge

  /** `pool_is_complex_dep_rd`: follows the right-hand chain of ORs. */
  method IsComplexDepRd(d: Dep) returns (r: bool)
    ensures r <==> Complex(d)
    decreases d
  {
    var rd := d;
    while true
      invariant Complex(rd) <==> Complex(d)
      invariant rd == d || rd < d
      decreases rd
    {
      if rd.And? || rd.Cond? || rd.Unless? {
        return true;
      }
      if !rd.Or? {
        return false;
      }
      var left := IsComplexDepRd(rd.name);
      if left {
        return true;
      }
      rd := rd.evr;
    }
  }

  /** What the token at i expands to. */
  ghost function Token(pool: Pool, s: seq<int>, i: nat): seq<int>
    requires i < |s| && (s[i] == pool.nsolvables ==> i + 1 < |s| && s[i + 1] >= 0)
  {
    if s[i] == pool.nsolvables then List(pool.data, s[i + 1]) else [s[i]]
  }

  lemma TokenStep(pool: Pool, s: seq<int>, i: nat, hi: nat)
    requires i < hi <= |s| && WholeTokens(pool.nsolvables, s[i..hi])
    ensures s[i] == pool.nsolvables ==> i + 1 < hi && s[i + 1] >= 0
    ensures var next := if s[i] == pool.nsolvables then i + 2 else i + 1;
      next <= hi && WholeTokens(pool.nsolvables, s[next..hi])
      && Expanded(pool, s[i..hi]) == Token(pool, s, i) + Expanded(pool, s[next..hi])
  {
    var t := s[i..hi];
    assert t[0] == s[i];
    if s[i] == pool.nsolvables {
      assert t[1] == s[i + 1];
      assert t[2..] == s[i + 2..hi];
    } else {
      assert t[1..] == s[i + 1..hi];
    }
  }

  /** Output so far plus what is still to come, up to `hi`. */
  ghost predicate Progress(pool: Pool, was: seq<int>, start: nat, i: nat, hi: nat, out: seq<int>) {
    && start <= i <= hi <= |was|
    && WholeTokens(pool.nsolvables, was[start..hi]) && WholeTokens(pool.nsolvables, was[i..hi])
    && out + Expanded(pool, was[i..hi]) == Expanded(pool, was[start..hi])
  }

  lemma ProgressStep(pool: Pool, was: seq<int>, start: nat, i: nat, hi: nat, out: seq<int>)
    requires Progress(pool, was, start, i, hi, out) && i < hi
    ensures was[i] == pool.nsolvables ==> i + 1 < hi && was[i + 1] >= 0
    ensures var next := if was[i] == pool.nsolvables then i + 2 else i + 1;
      Progress(pool, was, start, next, hi, out + Token(pool, was, i))
  {
    hide WholeTokens, Expanded, Token;
    TokenStep(pool, was, i, hi);
    var next := if was[i] == pool.nsolvables then i + 2 else i + 1;
    var tok, rest := Token(pool, was, i), Expanded(pool, was[next..hi]);
    assert out + tok + rest == out + (tok + rest);
  }

  lemma ProgressDone(pool: Pool, was: seq<int>, start: nat, hi: nat, out: seq<int>)
    requires Progress(pool, was, start, hi, hi, out)
    ensures out == Expanded(pool, was[start..hi])
  {
    assert was[hi..hi] == [];
    assert out + [] == out;
  }

  lemma ProgressStart(pool: Pool, was: seq<int>, start: nat, hi: nat)
    requires start <= hi <= |was| && WholeTokens(pool.nsolvables, was[start..hi])
    ensures Progress(pool, was, start, start, hi, [])
  {
    hide WholeTokens, Expanded;
    assert [] + Expanded(pool, was[start..hi]) == Expanded(pool, was[start..hi]);
  }

  /** Where the second run will start, once the first i tokens have been expanded to `out`. */
  ghost predicate SplitOk(pool: Pool, was: seq<int>, start: nat, split: nat, i: nat, out: seq<int>, newsplit: int) {
    start <= split <= |was| ==>
      if i <= split then Progress(pool, was, start, i, split, out)
      else WholeTokens(pool.nsolvables, was[start..split]) && newsplit == start + |Expanded(pool, was[start..split])|
  }

  lemma SplitNext(pool: Pool, was: seq<int>, start: nat, split: nat, i: nat, out: seq<int>, newsplit: int)
    requires SplitOk(pool, was, start, split, i, out, newsplit) && start <= i < |was|
    requires was[i] == pool.nsolvables ==> i + 1 < |was| && was[i + 1] >= 0
    ensures SplitOk(pool, was, start, split, if was[i] == pool.nsolvables then i + 2 else i + 1,
                    out + Token(pool, was, i), if i == split then start + |out| else newsplit)
  {
    hide WholeTokens, Expanded, Token;
    if start <= split <= |was| {
      if i < split { ProgressStep(pool, was, start, i, split, out); }
      if i == split { ProgressDone(pool, was, start, split, out); }
    }
  }

  /** Append what the token at i expands to; returns where the next one is. */
  method PushToken(pool: Pool, bq: Queue, i: nat) returns (next: nat)
    requires i < |bq.elements|
    requires bq.elements[i] == pool.nsolvables ==> i + 1 < |bq.elements| && bq.elements[i + 1] >= 0
    modifies bq
    ensures bq.elements == old(bq.elements) + Token(pool, old(bq.elements), i)
    ensures next == if old(bq.elements)[i] == pool.nsolvables then i + 2 else i + 1
  {
    hide List;
    var x := bq.elements[i];
    if x == pool.nsolvables {
      PushList(pool, bq, bq.elements[i + 1]);
      next := i + 2;
    } else {
      bq.Push(x);
      next := i + 1;
    }
  }

  lemma SameToken(pool: Pool, was: seq<int>, out: seq<int>, i: nat)
    requires i < |was| && (was[i] == pool.nsolvables ==> i + 1 < |was| && was[i + 1] >= 0)
    ensures (was + out)[i] == was[i] && (was[i] == pool.nsolvables ==> (was + out)[i + 1] == was[i + 1])
    ensures Token(pool, was + out, i) == Token(pool, was, i)
  {
    hide List;
  }

  /** `expand_simpledeps`: replace markers by provider lists from `start` on; returns where `split` moved to. */
  method ExpandSimpleDeps(pool: Pool, bq: Queue, start: nat, split: nat) returns (newsplit: int)
    requires start <= |bq.elements| && WholeTokens(pool.nsolvables, bq.elements[start..])
    requires start <= split <= |bq.elements| ==> WholeTokens(pool.nsolvables, bq.elements[start..split])
    modifies bq
    ensures bq.elements == old(bq.elements[..start]) + Expanded(pool, old(bq.elements[start..]))
    ensures start <= split <= |old(bq.elements)| ==>
      newsplit == start + |Expanded(pool, old(bq.elements[start..split]))|
  {
    hide WholeTokens, Expanded, Token, SplitOk, Progress;
    ghost var was := bq.elements;
    var end := |bq.elements|;
    newsplit := 0;
    var i := start;
    ghost var out: seq<int> := [];
    assert was[start..end] == was[start..] && was + out == was;
    ProgressStart(pool, was, start, end);
    SplitStart(pool, was, start, split);
    while i < end
      invariant start <= i <= end == |was| && bq.elements == was + out
      invariant Progress(pool, was, start, i, end, out) && SplitOk(pool, was, start, split, i, out, newsplit)
    {
      ProgressStep(pool, was, start, i, end, out);
      ProgressIn(pool, was, start, i, end, out);
      SplitNext(pool, was, start, split, i, out, newsplit);
      SameToken(pool, was, out, i);
      if i == split {
        newsplit := |bq.elements| - (end - start);
      }
      out := out + Token(pool, was, i);
      i := PushToken(pool, bq, i);
    }
    ProgressDone(pool, was, start, end, out);
    SplitEnd(pool, was, start, split, out, newsplit);
    if i == split {
      newsplit := |bq.elements| - (end - start);
    }
    bq.DeleteN(start, end - start);
    DropMiddle(was, start, out);
  }

  lemma SplitStart(pool: Pool, was: seq<int>, start: nat, split: nat)
    requires start <= split <= |was| ==> WholeTokens(pool.nsolvables, was[start..split])
    ensures SplitOk(pool, was, start, split, start, [], 0)
  {
    hide WholeTokens, Expanded, Progress;
    if start <= split <= |was| { ProgressStart(pool, was, start, split); }
  }

  /** A token does not reach past the end. */
  lemma ProgressIn(pool: Pool, was: seq<int>, start: nat, i: nat, hi: nat, out: seq<int>)
    requires Progress(pool, was, start, i, hi, out) && i < hi
    ensures (if was[i] == pool.nsolvables then i + 2 else i + 1) <= hi
  {
    hide Expanded;
    ProgressStep(pool, was, start, i, hi, out);
  }

  lemma SplitEnd(pool: Pool, was: seq<int>, start: nat, split: nat, out: seq<int>, newsplit: int)
    requires SplitOk(pool, was, start, split, |was|, out, newsplit)
    ensures start <= split <= |was| ==> WholeTokens(pool.nsolvables, was[start..split])
    ensures start <= split <= |was| ==>
      (if split == |was| then start + |out| else newsplit) == start + |Expanded(pool, was[start..split])|
  {
    hide Expanded, Token;
    if start <= split == |was| { ProgressDone(pool, was, start, split, out); }
  }

  lemma DropMiddle(was: seq<int>, start: nat, out: seq<int>)
    requires start <= |was|
    ensures (was + out)[..start] + (was + out)[|was|..] == was[..start] + out
    ensures |was + out| == |was| + |out| && (out == [] ==> (was + out)[..start] == was[..start] + out)
  {
  }

  /** Push the zero-terminated list at dp. */
  method PushList(pool: Pool, bq: Queue, dp: int)
    requires dp >= 0
    modifies bq
    ensures bq.elements == old(bq.elements) + List(pool.data, dp)
  {
    hide List;
    var k := dp;
    ghost var more: seq<int> := [];
    while k < |pool.data| && pool.data[k] != 0
      invariant dp <= k
      invariant bq.elements == old(bq.elements) + more
      invariant more + List(pool.data, k) == List(pool.data, dp)
      decreases |pool.data| - k
    {
      ListStep(pool.data, k);
      Joined(more, [pool.data[k]], List(pool.data, k + 1));
      bq.Push(pool.data[k]);
      more := more + [pool.data[k]];
      k := k + 1;
    }
    ListStep(pool.data, k);
  }

  // ----- distribution -----

  /** Merge the ascending block at k with the one at j, appending the result; both cursors stop on their block's
      zero. */
  method MergeBlocks(bq: Queue, k0: nat, j0: nat, ghost x: seq<int>, ghost y: seq<int>) returns (k: nat, j: nat)
    requires BlockAt(bq.elements, k0, x) && BlockAt(bq.elements, j0, y)
    modifies bq
    ensures bq.elements == old(bq.elements) + Merge(x, y)
    ensures k == k0 + |x| && j == j0 + |y|
  {
    hide Merge, BlockAt;
    ghost var was := bq.elements;
    ghost var out, xs, ys;
    k, j, out, xs, ys := MergeHeads(bq, k0, j0, x, y);
    MergeEnd(xs, ys);
    BlockAtGrow(was, out, k0, x);
    BlockAtGrow(was, out, j0, y);
    j := PushRest(bq, j0, j, y);
    BlockAtGrow(was + out, ys, k0, x);
    k := PushRest(bq, k0, k, x);
    Assoc(was, out, ys, xs);
  }

  lemma Assoc(a: seq<int>, b: seq<int>, c: seq<int>, d: seq<int>)
    ensures a + b + c + d == a + (b + (c + d))
  {
  }

  /** Block x with its terminating zero sits at position k0. */
  ghost predicate BlockAt(s: seq<int>, k0: nat, x: seq<int>) {
    && k0 + |x| < |s| && s[k0..k0 + |x|] == x && s[k0 + |x|] == 0 && 0 !in x
  }

  lemma BlockAtGrow(s: seq<int>, t: seq<int>, k0: nat, x: seq<int>)
    requires BlockAt(s, k0, x)
    ensures BlockAt(s + t, k0, x)
  {
    assert (s + t)[k0..k0 + |x|] == s[k0..k0 + |x|];
  }

  /** First loop of the merge: until one block is used up. */
  method MergeHeads(bq: Queue, k0: nat, j0: nat, ghost x: seq<int>, ghost y: seq<int>)
    returns (k: nat, j: nat, ghost out: seq<int>, ghost xs: seq<int>, ghost ys: seq<int>)
    requires BlockAt(bq.elements, k0, x) && BlockAt(bq.elements, j0, y)
    modifies bq
    ensures bq.elements == old(bq.elements) + out && out + Merge(xs, ys) == Merge(x, y)
    ensures k0 <= k <= k0 + |x| && j0 <= j <= j0 + |y|
    ensures xs == x[k - k0..] && ys == y[j - j0..] && (xs == [] || ys == [])
  {
    hide Merge;
    ghost var was, rest := bq.elements, Merge(x, y);
    k, j, out, xs, ys := k0, j0, [], x, y;
    while bq.elements[k] != 0 && bq.elements[j] != 0
      invariant k0 <= k <= k0 + |x| && j0 <= j <= j0 + |y|
      invariant xs == x[k - k0..] && ys == y[j - j0..]
      invariant bq.elements == was + out
      invariant rest == Merge(xs, ys) && out + rest == Merge(x, y)
      decreases k0 + |x| - k + j0 + |y| - j
    {
      Cursor(was, k0, x, k);
      Cursor(was, j0, y, j);
      MergeHead(xs, ys);
      out, rest := out + [rest[0]], rest[1..];
      if bq.elements[k] < bq.elements[j] {
        bq.Push(bq.elements[k]);
        k, xs := k + 1, xs[1..];
      } else {
        if bq.elements[k] == bq.elements[j] {
          k, xs := k + 1, xs[1..];
        }
        bq.Push(bq.elements[j]);
        j, ys := j + 1, ys[1..];
      }
    }
    CursorEnd(was, k0, x, k);
    CursorEnd(was, j0, y, j);
  }

  lemma MergeHead(x: seq<int>, y: seq<int>)
    requires x != [] && y != []
    ensures var m := Merge(x, y);
      && m != []
      && (x[0] < y[0] ==> m[0] == x[0] && m[1..] == Merge(x[1..], y))
      && (x[0] == y[0] ==> m[0] == y[0] && m[1..] == Merge(x[1..], y[1..]))
      && (x[0] > y[0] ==> m[0] == y[0] && m[1..] == Merge(x, y[1..]))
  {
  }

  lemma MergeEnd(x: seq<int>, y: seq<int>)
    requires x == [] || y == []
    ensures Merge(x, y) == y + x
  {
  }

  /** Push what is left of the block at k0, from k to its zero. */
  method PushRest(bq: Queue, k0: nat, k1: nat, ghost x: seq<int>) returns (k: nat)
    requires BlockAt(bq.elements, k0, x) && k0 <= k1 <= k0 + |x|
    modifies bq
    ensures bq.elements == old(bq.elements) + x[k1 - k0..]
    ensures k == k0 + |x|
  {
    ghost var was := bq.elements;
    k := k1;
    assert x[k1 - k0..k1 - k0] == [];
    while bq.elements[k] != 0
      invariant k1 <= k <= k0 + |x|
      invariant bq.elements == was + x[k1 - k0..k - k0]
      decreases k0 + |x| - k
    {
      Cursor(was, k0, x, k);
      bq.Push(bq.elements[k]);
      k := k + 1;
    }
    CursorEnd(was, k0, x, k);
  }

  /** A cursor not on a zero is inside its block. */
  lemma Cursor(s: seq<int>, k0: nat, x: seq<int>, k: nat)
    requires BlockAt(s, k0, x) && k0 <= k <= k0 + |x|
    requires s[k] != 0
    ensures k < k0 + |x| && x[k - k0] == s[k] && x[k - k0..] == [s[k]] + x[k - k0 + 1..]
  {
    assert s[k0..k0 + |x|][k - k0] == s[k];
  }

  lemma CursorEnd(s: seq<int>, k0: nat, x: seq<int>, k: nat)
    requires BlockAt(s, k0, x) && k0 <= k <= k0 + |x|
    ensures s[k] == 0 <==> k == k0 + |x|
    ensures s[k] == 0 <==> x[k - k0..] == []
  {
    if k < k0 + |x| { assert s[k0..k0 + |x|][k - k0] == s[k] == x[k - k0]; }
  }

  /** The A + -A search: two cursors closing in on an ascending block. */
  method HasClash(bq: Queue, start: nat) returns (r: bool)
    requires start < |bq.elements|
    requires Ascending(bq.elements[start..]) && 0 !in bq.elements[start..]
    ensures r <==> Clash(bq.elements[start..])
  {
    ghost var s := bq.elements[start..];
    var a, b := start, |bq.elements| - 1;
    while a < b
      invariant start <= a <= b < |bq.elements|
      invariant forall p, q :: 0 <= p < |s| && 0 <= q < |s| && s[p] == -s[q] ==> a - start <= p <= b - start
      decreases b - a
    {
      assert bq.elements[a] == s[a - start] && bq.elements[b] == s[b - start];
      if -bq.elements[a] == bq.elements[b] {
        break;
      }
      if -bq.elements[a] > bq.elements[b] {
        a := a + 1;
      } else {
        b := b - 1;
      }
    }
    r := a < b;
    ClashWitness(s, a - start, b - start, r);
  }

  lemma ClashWitness(s: seq<int>, a: nat, b: nat, r: bool)
    requires a <= b < |s| && 0 !in s
    requires r ==> a < b && -s[a] == s[b]
    requires !r ==> a == b && forall p, q :: 0 <= p < |s| && 0 <= q < |s| && s[p] == -s[q] ==> a <= p <= b
    ensures r <==> Clash(s)
  {
    if r {
      assert s[a] in s && -s[a] in s;
    } else if Clash(s) {
      var x :| x in s && -x in s;
      var p :| 0 <= p < |s| && s[p] == x;
      var q :| 0 <= q < |s| && s[q] == -x;
      assert false;
    }
  }

  lemma FirstBlockAt(ns: int, s: seq<int>, k: nat, hi: nat, ls: seq<seq<int>>)
    requires k <= hi <= |s| && s[k..hi] == EncodeLists(ls)
    requires ls != [] && GoodLists(ns, ls)
    ensures BlockAt(s, k, ls[0])
    ensures k + |ls[0]| + 1 <= hi && s[k + |ls[0]| + 1..hi] == EncodeLists(ls[1..])
  {
    var e, n := s[k..hi], |ls[0]|;
    assert e[..n] == ls[0] && e[n] == 0 && e[n + 1..] == EncodeLists(ls[1..]);
    assert s[k..k + n] == e[..n] && s[k + n] == e[n];
    assert s[k + n + 1..hi] == e[n + 1..];
    assert GoodLits(ns, ls[0]);
  }

  /** Inner loop of the distribution: block x against every block of b, starting at j = lo. */
  method DistributeRow(bq: Queue, i: nat, lo: nat, hi: nat, ghost ns: int, ghost x: seq<int>, ghost b: seq<seq<int>>)
    requires BlockAt(bq.elements, i, x) && GoodLits(ns, x)
    requires lo <= hi <= |bq.elements| && bq.elements[lo..hi] == EncodeLists(b) && GoodLists(ns, b)
    modifies bq
    ensures bq.elements == old(bq.elements) + EncodeLists(Row(x, b))
  {
    hide Merge, Clash, BlockAt, EncodeLists, Row;
    ghost var was, out: seq<int>, rest := bq.elements, [], b;
    var j := lo;
    while j < hi
      invariant lo <= j <= hi <= |was|
      invariant bq.elements == was + out
      invariant GoodLists(ns, rest) && was[j..hi] == EncodeLists(rest)
      invariant out + EncodeLists(Row(x, rest)) == EncodeLists(Row(x, b))
      decreases hi - j
    {
      NotEmpty(rest);
      FirstBlockAt(ns, was, j, hi, rest);
      BlockAtGrow(was, out, i, x);
      BlockAtGrow(was, out, j, rest[0]);
      var bqcnt4 := |bq.elements|;
      ghost var m := Merge(x, rest[0]);
      MergeGood(ns, x, rest[0]);
      var k, j' := MergeBlocks(bq, i, j, x, rest[0]);
      assert bq.elements[bqcnt4..] == m;
      var clash := HasClash(bq, bqcnt4);
      RowStep(x, rest, out, EncodeLists(Row(x, b)));
      if clash {
        bq.Truncate(bqcnt4);
      } else {
        bq.Push(0);
        out := out + m + [0];
      }
      j := j' + 1;
      rest := rest[1..];
    }
    EmptyRow(x, rest);
  }

  lemma NotEmpty(ls: seq<seq<int>>)
    ensures EncodeLists(ls) == [] <==> ls == []
  {
  }

  lemma MergeGood(ns: int, x: seq<int>, y: seq<int>)
    requires GoodLits(ns, x) && GoodLits(ns, y)
    ensures Ascending(Merge(x, y)) && Merge(x, y) != [] && 0 !in Merge(x, y)
  {
    MergeMembers(x, y);
    MergeAscending(x, y);
    assert x[0] in Merge(x, y);
  }

  lemma RowStep(x: seq<int>, rest: seq<seq<int>>, out: seq<int>, all: seq<int>)
    requires rest != [] && out + EncodeLists(Row(x, rest)) == all
    ensures Clash(Merge(x, rest[0])) ==> out + EncodeLists(Row(x, rest[1..])) == all
    ensures !Clash(Merge(x, rest[0])) ==> out + Merge(x, rest[0]) + [0] + EncodeLists(Row(x, rest[1..])) == all
  {
    hide Merge, Clash, Row, EncodeLists;
    var m, tail := Merge(x, rest[0]), Row(x, rest[1..]);
    RowCons(x, rest);
    EncodeCons(m, tail);
    if Clash(m) {
      assert [] + tail == tail;
    } else {
      FourParts(out, m, [0], EncodeLists(tail));
    }
  }

  lemma RowCons(x: seq<int>, rest: seq<seq<int>>)
    requires rest != []
    ensures var m := Merge(x, rest[0]); Row(x, rest) == (if Clash(m) then [] else [m]) + Row(x, rest[1..])
  {
    hide Merge, Clash;
  }

  lemma EncodeCons(m: seq<int>, tail: seq<seq<int>>)
    ensures EncodeLists([m] + tail) == m + [0] + EncodeLists(tail)
  {
    assert ([m] + tail)[1..] == tail;
  }

  lemma FourParts(a: seq<int>, b: seq<int>, c: seq<int>, d: seq<int>)
    ensures a + (b + c + d) == a + b + c + d
  {
  }

  lemma EmptyRow(x: seq<int>, rest: seq<seq<int>>)
    requires EncodeLists(rest) == []
    ensures EncodeLists(Row(x, rest)) == []
  {
    NotEmpty(rest);
  }

  /** Outer loop of the distribution: every block of a against all of b. */
  method DistributeAll(bq: Queue, lo: nat, mid: nat, hi: nat, ghost ns: int, ghost a: seq<seq<int>>,
                       ghost b: seq<seq<int>>)
    requires lo <= mid <= hi == |bq.elements|
    requires bq.elements[lo..mid] == EncodeLists(a) && GoodLists(ns, a)
    requires bq.elements[mid..hi] == EncodeLists(b) && GoodLists(ns, b)
    modifies bq
    ensures bq.elements == old(bq.elements) + EncodeLists(Product(a, b))
  {
    hide Merge, Clash, EncodeLists, Row, Product;
    ghost var was, out: seq<int>, rest := bq.elements, [], a;
    var i := lo;
    while i < mid
      invariant lo <= i <= mid
      invariant bq.elements == was + out
      invariant GoodLists(ns, rest) && was[i..mid] == EncodeLists(rest)
      invariant out + EncodeLists(Product(rest, b)) == EncodeLists(Product(a, b))
      decreases mid - i
    {
      NotEmpty(rest);
      FirstBlockAt(ns, was, i, mid, rest);
      BlockAtGrow(was, out, i, rest[0]);
      assert (was + out)[mid..hi] == was[mid..hi];
      DistributeRow(bq, i, mid, hi, ns, rest[0], b);
      ProductStep(rest, b, out, EncodeLists(Product(a, b)));
      out := out + EncodeLists(Row(rest[0], b));
      ghost var start := i;
      while bq.elements[i] != 0
        invariant start <= i <= start + |rest[0]|
        invariant bq.elements == was + out
        decreases start + |rest[0]| - i
      {
        Cursor(was, start, rest[0], i);
        i := i + 1;
      }
      CursorEnd(was, start, rest[0], i);
      i := i + 1;
      rest := rest[1..];
    }
    EmptyProduct(rest, b);
  }

  lemma ProductStep(rest: seq<seq<int>>, b: seq<seq<int>>, out: seq<int>, all: seq<int>)
    requires rest != [] && out + EncodeLists(Product(rest, b)) == all
    ensures out + EncodeLists(Row(rest[0], b)) + EncodeLists(Product(rest[1..], b)) == all
  {
    hide Row;
    EncodeListsAppend(Row(rest[0], b), Product(rest[1..], b));
    assert out + (EncodeLists(Row(rest[0], b)) + EncodeLists(Product(rest[1..], b)))
      == out + EncodeLists(Row(rest[0], b)) + EncodeLists(Product(rest[1..], b));
  }

  lemma EmptyProduct(rest: seq<seq<int>>, b: seq<seq<int>>)
    requires EncodeLists(rest) == []
    ensures EncodeLists(Product(rest, b)) == []
  {
    NotEmpty(rest);
  }

  /** `distribute_depblocks`: replace the two block runs by their product. */
  method DistributeDepBlocks(pool: Pool, bq: Queue, bqcnt: nat, bqcnt2: nat, dnf: bool, ghost a: seq<Block>,
      ghost b: seq<Block>)
    returns (r: int)
    requires pool.nsolvables > 1 && GoodBlocks(pool, a) && GoodBlocks(pool, b)
    requires bqcnt <= |bq.elements| && bq.elements[bqcnt..] == Encode(pool.nsolvables, a) + Encode(pool.nsolvables, b)
    requires bqcnt2 == bqcnt + |Encode(pool.nsolvables, a)|
    modifies bq
    ensures bq.elements == old(bq.elements[..bqcnt]) + EncodeLists(Product(Plain(pool, a), Plain(pool, b)))
    ensures r == if Product(Plain(pool, a), Plain(pool, b)) == [] then (if dnf then 0 else 1) else -1
  {
    hide Merge, Clash, EncodeLists, Row, Product, Encode, WholeTokens, Expanded, Plain;
    ghost var ns, pre, la, lb := pool.nsolvables, bq.elements[..bqcnt], Plain(pool, a), Plain(pool, b);
    TwoRuns(pool, a, b);
    PlainGood(pool, a);
    PlainGood(pool, b);
    assert bq.elements[bqcnt..bqcnt2] == Encode(ns, a);
    var mid := ExpandSimpleDeps(pool, bq, bqcnt, bqcnt2);
    var bqcnt3 := |bq.elements|;
    ghost var s := bq.elements;
    assert s == pre + (EncodeLists(la) + EncodeLists(lb));
    assert s[bqcnt..mid] == EncodeLists(la) && s[mid..bqcnt3] == EncodeLists(lb);
    DistributeAll(bq, bqcnt, mid, bqcnt3, ns, la, lb);
    ghost var p := Product(la, lb);
    assert bq.elements[bqcnt3..] == EncodeLists(p) && bq.elements[..bqcnt] == pre;
    bq.DeleteN(bqcnt, bqcnt3 - bqcnt);
    assert bq.elements == pre + EncodeLists(p);
    NotEmpty(p);
    if bqcnt == |bq.elements| {
      return if dnf then 0 else 1;
    }
    return -1;
  }

  lemma TwoRuns(pool: Pool, a: seq<Block>, b: seq<Block>)
    requires pool.nsolvables > 1 && GoodBlocks(pool, a) && GoodBlocks(pool, b)
    ensures var ns := pool.nsolvables; var ab := Encode(ns, a) + Encode(ns, b);
      && WholeTokens(ns, ab) && WholeTokens(ns, Encode(ns, a))
      && Expanded(pool, ab) == EncodeLists(Plain(pool, a)) + EncodeLists(Plain(pool, b))
      && Expanded(pool, Encode(ns, a)) == EncodeLists(Plain(pool, a))
  {
    hide WholeTokens, Expanded;
    EncodeAppend(pool.nsolvables, a, b);
    PlainAppend(pool, a, b);
    ExpandedEncode(pool, a + b);
    ExpandedEncode(pool, a);
    EncodeListsAppend(Plain(pool, a), Plain(pool, b));
  }

  lemma PlainAppend(pool: Pool, a: seq<Block>, b: seq<Block>)
    requires GoodBlocks(pool, a) && GoodBlocks(pool, b)
    ensures GoodBlocks(pool, a + b) && Plain(pool, a + b) == Plain(pool, a) + Plain(pool, b)
  {
    forall i | 0 <= i < |a + b| ensures GoodBlock(pool, (a + b)[i]) {
      assert (a + b)[i] == if i < |a| then a[i] else b[i - |a|];
    }
  }

  lemma PlainGood(pool: Pool, a: seq<Block>)
    requires GoodBlocks(pool, a)
    ensures GoodLists(pool.nsolvables, Plain(pool, a))
  {
    forall i | 0 <= i < |a| ensures GoodLits(pool.nsolvables, Plain(pool, a)[i]) {
      assert GoodBlock(pool, a[i]);
    }
  }

  // ----- inversion -----

  /** Reverse the entries from j0 up to i in place. */
  method ReverseRange(bq: Queue, j0: nat, i: nat)
    requires j0 <= i <= |bq.elements|
    modifies bq
    ensures |bq.elements| == |old(bq.elements)|
    ensures bq.elements[..j0] == old(bq.elements)[..j0] && bq.elements[i..] == old(bq.elements)[i..]
    ensures forall p :: j0 <= p < i ==> bq.elements[p] == old(bq.elements)[j0 + i - 1 - p]
  {
    ghost var was := bq.elements;
    var j, k := j0, i - 1;
    while j < k
      invariant j0 <= j <= i && j0 - 1 <= k < i && j + k == j0 + i - 1
      invariant |bq.elements| == |was|
      invariant forall p :: 0 <= p < j0 || i <= p < |was| ==> bq.elements[p] == was[p]
      invariant forall p :: j <= p <= k ==> bq.elements[p] == was[p]
      invariant forall p :: j0 <= p < j || k < p < i ==> bq.elements[p] == was[j0 + i - 1 - p]
      decreases k - j
    {
      var t := bq.elements[j];
      bq.elements := bq.elements[j := bq.elements[k]];
      bq.elements := bq.elements[k := t];
      j, k := j + 1, k - 1;
    }
    forall p | j0 <= p < i ensures bq.elements[p] == was[j0 + i - 1 - p] {
      if j <= p <= k { assert j0 + i - 1 - p == p; }
    }
  }

  /** Negate the literals of one block and reverse it in place. */
  method InvertBlock(bq: Queue, j0: nat, ghost x: seq<int>) returns (i: nat)
    requires BlockAt(bq.elements, j0, x)
    modifies bq
    ensures bq.elements == old(bq.elements)[..j0] + Inverted(x) + old(bq.elements)[j0 + |x|..]
    ensures i == j0 + |x|
  {
    ghost var was := bq.elements;
    i := j0;
    while bq.elements[i] != 0
      invariant j0 <= i <= j0 + |x|
      invariant |bq.elements| == |was|
      invariant bq.elements[..j0] == was[..j0] && bq.elements[i..] == was[i..]
      invariant forall p :: j0 <= p < i ==> bq.elements[p] == -was[p]
      decreases j0 + |x| - i
    {
      assert bq.elements[i] == bq.elements[i..][0] == was[i];
      Cursor(was, j0, x, i);
      ghost var e := bq.elements;
      bq.elements := bq.elements[i := -bq.elements[i]];
      assert bq.elements[i + 1..] == e[i + 1..] == e[i..][1..] == was[i + 1..];
      i := i + 1;
    }
    assert bq.elements[i] == bq.elements[i..][0] == was[i];
    CursorEnd(was, j0, x, i);
    ReverseRange(bq, j0, i);
    forall p | j0 <= p < i ensures bq.elements[p] == Inverted(x)[p - j0] {
      assert was[j0 + i - 1 - p] == was[j0..j0 + |x|][i - 1 - p] == x[i - 1 - p];
    }
    assert bq.elements[j0..i] == Inverted(x);
    assert bq.elements == bq.elements[..j0] + bq.elements[j0..i] + bq.elements[i..];
  }

  /** `invert_depblocks`: negate every literal, keeping the blocks ascending. */
  method InvertDepBlocks(pool: Pool, bq: Queue, start: nat, r0: int, ghost bs: seq<Block>) returns (r: int)
    requires r0 == -1 ==>
      pool.nsolvables > 1 && GoodBlocks(pool, bs) && start <= |bq.elements|
        && bq.elements[start..] == Encode(pool.nsolvables, bs)
    requires r0 in {-1, 0, 1}
    modifies bq
    ensures r0 == 0 ==> r == 1 && bq.elements == old(bq.elements)
    ensures r0 == 1 ==> r == 0 && bq.elements == old(bq.elements)
    ensures r0 == -1 ==> r == -1 && bq.elements == old(bq.elements[..start]) + EncodeLists(InvertAll(Plain(pool, bs)))
  {
    if r0 == 0 || r0 == 1 {
      return if r0 != 0 then 0 else 1;
    }
    hide Encode, WholeTokens, Expanded, EncodeLists, Plain, InvertAll;
    ghost var pre, ls := bq.elements[..start], Plain(pool, bs);
    TwoRuns(pool, bs, []);
    EncodeEmpty(pool);
    assert Encode(pool.nsolvables, bs) + [] == Encode(pool.nsolvables, bs);
    PlainGood(pool, bs);
    assert start <= 0 <= |bq.elements| ==> bq.elements[start..0] == [];
    var _ := ExpandSimpleDeps(pool, bq, start, 0);
    assert bq.elements == pre + EncodeLists(ls);
    InvertRun(bq, start, pool.nsolvables, ls);
    return -1;
  }

  lemma EncodeEmpty(pool: Pool)
    ensures Encode(pool.nsolvables, []) == [] && WholeTokens(pool.nsolvables, []) && EncodeLists(Plain(pool, [])) == []
  {
  }

  method InvertRun(bq: Queue, start: nat, ghost ns: int, ghost ls: seq<seq<int>>)
    requires start <= |bq.elements| && bq.elements[start..] == EncodeLists(ls) && GoodLists(ns, ls)
    modifies bq
    ensures bq.elements == old(bq.elements[..start]) + EncodeLists(InvertAll(ls))
  {
    hide EncodeLists, InvertAll, BlockAt, GoodLits;
    ghost var pre, done: seq<int>, rest := bq.elements[..start], [], ls;
    var end := |bq.elements|;
    var i := start;
    while i < end
      invariant start <= i <= end == |bq.elements|
      invariant i == start + |done|
      invariant GoodLists(ns, rest) && bq.elements[i..end] == EncodeLists(rest)
      invariant bq.elements[..i] == pre + done
      invariant done + EncodeLists(InvertAll(rest)) == EncodeLists(InvertAll(ls))
      decreases end - i
    {
      NotEmpty(rest);
      ghost var was, i0, n := bq.elements, i, |rest[0]|;
      FirstBlockAt(ns, bq.elements, i, end, rest);
      ZeroBehind(was, i, rest[0]);
      InvertStep(rest, done, EncodeLists(InvertAll(ls)));
      i := InvertBlock(bq, i, rest[0]);
      i := i + 1;
      InvertedHere(was, bq.elements, i0, n, Inverted(rest[0]), pre, done);
      done := done + (Inverted(rest[0]) + [0]);
      rest := rest[1..];
    }
    NotEmpty(rest);
    EmptyInvert();
    assert bq.elements[..end] == bq.elements;
  }

  lemma ZeroBehind(s: seq<int>, i: nat, l: seq<int>)
    requires BlockAt(s, i, l)
    ensures i + |l| < |s| && s[i + |l|] == 0
  {
  }

  /** The queue after the n literals from i on have been replaced by l. */
  lemma InvertedHere(was: seq<int>, now: seq<int>, i: nat, n: nat, l: seq<int>, pre: seq<int>, done: seq<int>)
    requires i + n < |was| && |l| == n && was[i + n] == 0 && now == was[..i] + l + was[i + n..]
    requires was[..i] == pre + done
    ensures |now| == |was| && now[..i + n + 1] == pre + (done + (l + [0]))
    ensures now[i + n + 1..|now|] == was[i + n + 1..|was|]
  {
  }

  lemma EmptyInvert()
    ensures EncodeLists(InvertAll([])) == []
  {
  }

  lemma InvertStep(rest: seq<seq<int>>, done: seq<int>, all: seq<int>)
    requires rest != [] && done + EncodeLists(InvertAll(rest)) == all
    ensures done + (Inverted(rest[0]) + [0]) + EncodeLists(InvertAll(rest[1..])) == all
  {
    hide EncodeLists, InvertAll;
    InvertCons(rest);
    EncodeCons(Inverted(rest[0]), InvertAll(rest[1..]));
    var l, e := Inverted(rest[0]), EncodeLists(InvertAll(rest[1..]));
    FourParts(done, l, [0], e);
    assert done + (l + [0]) + e == done + l + [0] + e;
  }

  lemma InvertCons(rest: seq<seq<int>>)
    requires rest != []
    ensures InvertAll(rest) == [Inverted(rest[0])] + InvertAll(rest[1..])
  {
  }
}
