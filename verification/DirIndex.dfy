/** The directory pool's hash index, and the pool itself: adding and finding directories, listing children. */
module DirIndex {
  import opened Common
  import opened Probe
  import opened HashTables
  import opened FetchMap
  import opened DirPool

  /** `dirpool_hash_parent_comp` */
  function HashOf(parent: nat, comp: nat): nat {
    parent + 7 * comp
  }

  function HashAt(dirs: seq<int>, i: nat): nat
    requires |dirs| > 0 && dirs[0] <= 0 && IsDir(dirs, i)
  {
    HashOf(Parent(dirs, i), dirs[i])
  }

  /** The table holds the ids from 2 up to j, each along the probe sequence of its parent and component. */
  ghost predicate Indexed(ht: seq<nat>, dirs: seq<int>, j: nat) {
    && |dirs| > 0 && dirs[0] <= 0
    && (forall s :: 0 <= s < |ht| && ht[s] != 0 ==> 2 <= ht[s] < j && IsDir(dirs, ht[s]))
    && (forall s, t :: 0 <= s < t < |ht| && ht[s] != 0 ==> ht[s] != ht[t])
    && forall i: nat :: 2 <= i < j && IsDir(dirs, i) ==> Stored(ht, HashAt(dirs, i), i - 1)
  }

  lemma IndexedNone(ht: seq<nat>, dirs: seq<int>)
    requires |dirs| > 0 && dirs[0] <= 0 && forall s :: 0 <= s < |ht| ==> ht[s] == 0
    ensures Indexed(ht, dirs, 2)
  {
  }

  /** A slot that is not a directory is skipped. */
  lemma IndexedSkip(ht: seq<nat>, dirs: seq<int>, j: nat)
    requires Indexed(ht, dirs, j) && !IsDir(dirs, j)
    ensures Indexed(ht, dirs, j + 1)
  {
  }

  /** The next directory goes into the free slot its probing ended at. */
  lemma IndexedAdd(ht: seq<nat>, dirs: seq<int>, j: nat, n: nat, h: nat)
    requires Indexed(ht, dirs, j) && j >= 2 && IsDir(dirs, j) && Busy(ht, HashAt(dirs, j), n) && |ht| > 0
    requires h == Slot(HashAt(dirs, j), n, |ht|) && ht[h] == 0
    ensures h < |ht| && Indexed(ht[h := j], dirs, j + 1)
  {
    hide Slot, HashAt, Stored, Busy;
    var ht' := ht[h := j];
    StoreNew(ht, HashAt(dirs, j), j, n, h);
    forall i: nat | 2 <= i < j + 1 && IsDir(dirs, i) ensures Stored(ht', HashAt(dirs, i), i - 1) {
      if i < j { StoreKeeps(ht, HashAt(dirs, i), i - 1, h, j); }
    }
  }

  lemma StoreNew(ht: seq<nat>, hash: nat, j: nat, n: nat, h: nat)
    requires |ht| > 0 && Busy(ht, hash, n) && h == Slot(hash, n, |ht|) && j > 0
    ensures Stored(ht[h := j], hash, j - 1)
  {
    hide Slot;
    assert StoredAt(ht[h := j], hash, j - 1, n);
  }

  lemma StoreKeeps(ht: seq<nat>, hash: nat, v: nat, h: nat, x: nat)
    requires Stored(ht, hash, v) && h < |ht| && ht[h] == 0 && x != 0
    ensures Stored(ht[h := x], hash, v)
  {
    hide Slot;
    var n :| StoredAt(ht, hash, v, n);
    assert StoredAt(ht[h := x], hash, v, n);
  }

  /** The index stays valid when slots are appended, apart from the new ones. */
  lemma IndexedPrefix(ht: seq<nat>, dirs: seq<int>, more: seq<int>)
    requires Indexed(ht, dirs, |dirs|)
    ensures Indexed(ht, dirs + more, |dirs|)
  {
    hide HashOf, Stored, Head, Parent;
    forall i: nat | 2 <= i < |dirs| && IsDir(dirs + more, i) ensures Stored(ht, HashAt(dirs + more, i), i - 1) {
      HeadPrefix(dirs, more, i);
      assert Stored(ht, HashAt(dirs, i), i - 1);
    }
  }

  /** In a table with more slots than ids some slot is free. */
  lemma SomeFree(ht: seq<nat>, dirs: seq<int>, j: nat) returns (s: nat)
    requires Indexed(ht, dirs, j) && j < |ht|
    ensures s < |ht| && ht[s] == 0
  {
    if forall s :: 0 <= s < |ht| ==> ht[s] != 0 {
      DistinctCount(ht, UpTo(j));
    }
    s :| 0 <= s < |ht| && ht[s] == 0;
  }

  /** The first n probes hit other entries. */
  ghost predicate Missed(ht: seq<nat>, dirs: seq<int>, hash: nat, parent: int, comp: int, n: nat) {
    |ht| > 0 && |dirs| > 0 && dirs[0] <= 0 && forall m: nat ::
      m < n ==> Other(dirs, ht[Slot(hash, m, |ht|)], parent, comp)
  }

  ghost predicate Other(dirs: seq<int>, did: nat, parent: int, comp: int)
    requires |dirs| > 0 && dirs[0] <= 0
  {
    did != 0 && !Names(dirs, did, parent, comp)
  }

  lemma MissedBusy(ht: seq<nat>, dirs: seq<int>, hash: nat, parent: int, comp: int, n: nat)
    requires Missed(ht, dirs, hash, parent, comp, n)
    ensures Busy(ht, hash, n)
  {
  }

  lemma MissedNext(ht: seq<nat>, dirs: seq<int>, hash: nat, parent: int, comp: int, n: nat)
    requires Missed(ht, dirs, hash, parent, comp, n) && ht[Slot(hash, n, |ht|)] != 0
    requires !Names(dirs, ht[Slot(hash, n, |ht|)], parent, comp)
    ensures Missed(ht, dirs, hash, parent, comp, n + 1)
  {
    hide Slot;
  }

  lemma MissedNone(ht: seq<nat>, dirs: seq<int>, hash: nat, parent: int, comp: int)
    requires |ht| > 0 && |dirs| > 0 && dirs[0] <= 0
    ensures Missed(ht, dirs, hash, parent, comp, 0)
  {
  }

  /** Probing that ends at a free slot proves that the directory is not there. */
  lemma AbsentFrom(ht: seq<nat>, dirs: seq<int>, parent: nat, comp: nat, n: nat)
    requires Indexed(ht, dirs, |dirs|) && Missed(ht, dirs, HashOf(parent, comp), parent, comp, n)
    requires ht[Slot(HashOf(parent, comp), n, |ht|)] == 0
    ensures forall i :: 2 <= i < |dirs| ==> !Names(dirs, i, parent, comp)
  {
    hide Slot, HashOf;
    forall i: nat | 2 <= i < |dirs| ensures !Names(dirs, i, parent, comp) {
      if Names(dirs, i, parent, comp) {
        assert HashAt(dirs, i) == HashOf(parent, comp);
        StoredFound(ht, HashOf(parent, comp), i, n);
      }
    }
  }

  lemma StoredFound(ht: seq<nat>, hash: nat, i: nat, free: nat)
    requires i > 0 && Stored(ht, hash, i - 1) && ht[Slot(hash, free, |ht|)] == 0
    ensures exists m: nat :: m < free && ht[Slot(hash, m, |ht|)] == i
  {
    hide Slot;
    var m :| StoredAt(ht, hash, i - 1, m);
    StoredBefore(ht, hash, i - 1, m, free);
  }

  class Dirpool {
    var dirs: seq<int>
    var hasTraverse: bool
    var dirtraverse: seq<int>
    var ht: array<nat>
    var mask: nat
    ghost var bits: nat

    ghost predicate Valid()
      reads this, ht
    {
      && (dirs == [] || ValidDirs(dirs))
      && (hasTraverse ==> dirs != [] && dirtraverse == Traverse(dirs, |dirs|))
      && (mask != 0 ==>
           dirs != [] && ht.Length == mask + 1 && PowerSize(ht.Length, bits) && Indexed(ht[..], dirs, |dirs|))
    }

    constructor ()
      ensures Valid() && dirs == []
    {
      dirs, hasTraverse, dirtraverse, ht, mask := [], false, [], new nat[0], 0;
    }

    /** `dirpool_free_dirtraverse` */
    method FreeDirtraverse()
      requires Valid()
      modifies this
      ensures Valid() && dirs == old(dirs) && !hasTraverse && mask == 0
    {
      hasTraverse, dirtraverse, ht, mask := false, [], new nat[0], 0;
    }

    method MakeDirtraverse()
      requires Valid()
      modifies this
      ensures Valid() && dirs == old(dirs) && ht == old(ht) && mask == old(mask) && (dirs != [] ==> hasTraverse)
    {
      hide Traverse, ValidDirs, Indexed, PowerSize;
      hasTraverse := false;
      if dirs == [] {
        return;
      }
      var n := |dirs|;
      var t := new int[n](_ => 0);
      for i := 0 to n
        invariant unchanged(`dirs) && unchanged(`ht) && unchanged(`mask) && unchanged(`bits) && unchanged(ht)
        invariant !hasTraverse
        invariant t[..i] == Traverse(dirs, i) && forall k :: i <= k < n ==> t[k] == 0
      {
        ghost var before := t[..i];
        assert t[..i + 1] == before + [0];
        TraverseNext(dirs, i);
        if dirs[i] <= 0 {
          var parent := -dirs[i];
          t[i] := t[parent];
          t[parent] := i + 1;
        }
      }
      hasTraverse, dirtraverse := true, t[..];
      assert t[..n] == t[..];
    }

    /** Build the index anew with room for more. */
    method ResizeHash(numnew: nat)
      requires dirs != [] && ValidDirs(dirs)
      modifies this
      ensures unchanged(`dirs) && unchanged(`hasTraverse) && unchanged(`dirtraverse) && fresh(ht)
      ensures mask > 2 * (|dirs| + numnew) && ht.Length == mask + 1 && PowerSize(ht.Length, bits)
      ensures Indexed(ht[..], dirs, |dirs|)
    {
      hide Indexed, ValidDirs, PowerSize, Slot, Wrap, HashOf, Head;
      ZeroHead(dirs);
      var size, k := TableSize(|dirs| + numnew);
      var t := new nat[size](_ => 0);
      IndexedNone(t[..], dirs);
      RootEntries(dirs);
      var parent := 0;
      for i := 2 to |dirs|
        invariant unchanged(`dirs) && unchanged(`hasTraverse) && unchanged(`dirtraverse) && t.Length == size
        invariant Indexed(t[..], dirs, i) && parent == Parent(dirs, i)
      {
        ParentStep(dirs, i);
        if dirs[i] <= 0 {
          parent := -dirs[i];
          IndexedSkip(t[..], dirs, i);
        } else {
          Put(t, dirs, parent, i, k);
        }
      }
      ht, mask, bits := t, size - 1, k;
    }

    /** Enter id i, whose key is new, into the first free slot of its probe sequence. */
    static method Put(t: array<nat>, dirs: seq<int>, parent: nat, i: nat, ghost k: nat)
      requires |dirs| > 0 && dirs[0] <= 0 && i >= 2 && IsDir(dirs, i) && parent == Parent(dirs, i)
      requires PowerSize(t.Length, k) && i < t.Length && Indexed(t[..], dirs, i)
      modifies t
      ensures Indexed(t[..], dirs, i + 1)
    {
      hide Indexed, PowerSize, Slot, Wrap, Head, Busy;
      ghost var a := t[..];
      ghost var free := SomeFree(a, dirs, i);
      ghost var last := Within(k, HashOf(parent, dirs[i]), free, t.Length);
      SlotStart(HashOf(parent, dirs[i]), t.Length);
      var h, hh := Wrap(HashOf(parent, dirs[i]), t.Length), 7;
      ghost var n := 0;
      NotBusy(a, HashOf(parent, dirs[i]));
      while t[h] != 0
        invariant h < t.Length && h == Slot(HashOf(parent, dirs[i]), n, t.Length) && hh == 7 + n && n <= last
        invariant Busy(a, HashOf(parent, dirs[i]), n) && t[..] == a
        decreases last - n
      {
        SlotStep(HashOf(parent, dirs[i]), n + 1, t.Length);
        BusyNext(a, HashOf(parent, dirs[i]), n);
        h, hh, n := Wrap(h + hh, t.Length), hh + 1, n + 1;
        FreeBound(a, HashOf(parent, dirs[i]), n, last);
      }
      IndexedAdd(a, dirs, i, n, h);
      t[h] := i;
      assert t[..] == a[h := i];
    }

    /** `dirpool_parent` */
    method ParentOf(did: nat) returns (parent: nat)
      requires dirs != [] && dirs[0] <= 0 && did < |dirs|
      ensures parent == if did == 0 then 0 else Parent(dirs, did)
    {
      if did == 0 {
        return 0;
      }
      var h := Rewind(did);
      return -dirs[h];
    }

    /** Walk back to the head of the block. */
    method Rewind(did: nat) returns (h: nat)
      requires dirs != [] && dirs[0] <= 0 && 0 < did <= |dirs|
      ensures h == Head(dirs, did)
    {
      h := did - 1;
      while dirs[h] > 0
        invariant 0 <= h < did && forall k :: h < k < did ==> dirs[k] > 0
        decreases h
      {
        h := h - 1;
      }
      HeadIs(dirs, h, did);
    }

    /** Look (parent, comp) up; otherwise say where it belongs. */
    method Probe(parent: nat, comp: nat) returns (did: nat, h: nat, ghost n: nat)
      requires dirs != [] && dirs[0] <= 0 && comp > 0
      requires PowerSize(ht.Length, bits) && |dirs| < ht.Length && Indexed(ht[..], dirs, |dirs|)
      ensures did != 0 ==> Names(dirs, did, parent, comp)
      ensures did == 0 ==>
        h < ht.Length && ht[h] == 0 && h == Slot(HashOf(parent, comp), n, ht.Length)
          && Busy(ht[..], HashOf(parent, comp), n)
      ensures did == 0 ==> forall i :: 2 <= i < |dirs| ==> !Names(dirs, i, parent, comp)
    {
      hide Indexed, PowerSize, Slot, Wrap, Head, Busy, Missed;
      ghost var a, hash := ht[..], HashOf(parent, comp);
      ghost var free := SomeFree(a, dirs, |dirs|);
      ghost var last := Within(bits, hash, free, ht.Length);
      SlotStart(hash, ht.Length);
      h, n, did := Wrap(HashOf(parent, comp), ht.Length), 0, 0;
      var hh := 7;
      MissedNone(a, dirs, hash, parent, comp);
      while ht[h] != 0
        invariant h < ht.Length && h == Slot(hash, n, ht.Length) && hh == 7 + n && n <= last
        invariant Missed(a, dirs, hash, parent, comp, n) && did == 0
        decreases last - n
      {
        var x := ht[h];
        EntryIsDir(a, dirs, h);
        var p := ParentOf(x);
        if dirs[x] == comp && p == parent {
          return x, h, n;
        }
        SlotStep(hash, n + 1, ht.Length);
        MissedNext(a, dirs, hash, parent, comp, n);
        MissedBusy(a, dirs, hash, parent, comp, n + 1);
        h, hh, n := Wrap(h + hh, ht.Length), hh + 1, n + 1;
        FreeBound(a, hash, n, last);
      }
      MissedBusy(a, dirs, hash, parent, comp, n);
      AbsentFrom(a, dirs, parent, comp, n);
    }

    /** `dirpool_add_block` */
    method AddBlock(parent: int)
      requires dirs != [] && IsParent(dirs, parent) && (hasTraverse ==> dirtraverse == Traverse(dirs, |dirs|))
      modifies `dirs, `dirtraverse
      ensures dirs == old(dirs) + [-parent] && (hasTraverse ==> dirtraverse == Traverse(dirs, |dirs|))
    {
      TraversePrefix(dirs, [-parent], |dirs|);
      if hasTraverse {
        dirtraverse := dirtraverse + [dirtraverse[parent]];
        dirtraverse := dirtraverse[parent := |dirs| + 1];
      }
      dirs := dirs + [-parent];
    }

    /** `dirpool_add_dir`: find the directory `comp` in `parent`, or add it. */
    method AddDir(parent: int, comp: int, create: bool) returns (did: nat)
      requires Valid()
      requires parent >= 0 && comp > 0 ==> IsParent(if dirs == [] then [0, 1] else dirs, parent)
      modifies this, ht
      ensures Valid()
      ensures old(dirs) == [] && !create ==> did == 0 && dirs == []
      ensures var d := if old(dirs) == [] then [0, 1] else old(dirs);
        old(dirs) != [] || create ==>
          if parent < 0 || comp <= 0 then did == 0 && dirs == d
          else if Scan(d, |d|, parent, comp) != 0 then did == Scan(d, |d|, parent, comp) && dirs == d
          else if !create then did == 0 && dirs == d
          else dirs == d + Added(d, parent, comp) && did == |dirs| - 1 && Names(dirs, did, parent, comp)
    {
      hide Indexed, PowerSize, Slot, Wrap, Traverse, Scan, Head, Busy, ValidDirs;
      if dirs == [] {
        if !create {
          return 0;
        }
        dirs := [0, 1];
        FirstDirs();
      }
      ZeroHead(dirs);
      RootEntries(dirs);
      if parent < 0 || comp <= 0 {
        return 0;
      }
      ghost var d := dirs;
      if parent == 0 && comp == 1 {
        ScanUnique(dirs, |dirs|, 1, 0, 1);
        return 1;
      }
      if 2 * |dirs| >= mask {
        ResizeHash(127);
      }
      var h;
      ghost var n;
      did, h, n := Probe(parent, comp);
      if did != 0 {
        ScanUnique(dirs, |dirs|, did, parent, comp);
        return;
      }
      Absent(dirs, parent, comp);
      if !create {
        return;
      }
      did := Append(parent, comp, h, n);
    }

    /** Append the entry, in a new block if need be, and enter it at the free slot h. */
    method Append(parent: nat, comp: nat, h: nat, ghost n: nat) returns (did: nat)
      requires Valid() && dirs != [] && mask != 0 && comp > 0 && IsParent(dirs, parent)
      requires forall i :: 0 <= i < |dirs| ==> !Names(dirs, i, parent, comp)
      requires h < ht.Length && ht[h] == 0 && h == Slot(HashOf(parent, comp), n, ht.Length)
      requires Busy(ht[..], HashOf(parent, comp), n)
      modifies `dirs, `dirtraverse, ht
      ensures Valid() && dirs == old(dirs) + Added(old(dirs), parent, comp) && did == |dirs| - 1
      ensures Names(dirs, did, parent, comp)
    {
      hide Indexed, PowerSize, Slot, Traverse, Head, Busy, ValidDirs;
      ZeroHead(dirs);
      ghost var d, a := dirs, ht[..];
      AddedNames(d, parent, comp);
      AddedValid(d, parent, comp);
      IndexedPrefix(a, d, Added(d, parent, comp));
      var p := ParentOf(|dirs| - 1);
      if p != parent {
        AddBlock(parent);
        IndexedSkip(a, d + Added(d, parent, comp), |d|);
      }
      assert dirs + [comp] == d + Added(d, parent, comp);
      did := |dirs|;
      TraverseEntry(dirs, comp);
      if hasTraverse {
        dirtraverse := dirtraverse + [0];
      }
      dirs := dirs + [comp];
      NamesHash(dirs, did, parent, comp);
      IndexedAdd(a, dirs, did, n, h);
      ht[h] := did;
      assert ht[..] == a[h := did];
    }

    /** `dirpool_child` */
    method Child(did: nat) returns (c: nat)
      requires Valid() && dirs != [] && IsParent(dirs, did)
      modifies this
      ensures Valid() && dirs == old(dirs) && ht == old(ht) && c == Last(dirs, did, |dirs|)
    {
      hide Traverse, Indexed;
      if !hasTraverse {
        MakeDirtraverse();
      }
      TraverseParent(dirs, |dirs|, did);
      return dirtraverse[did];
    }

    /** `dirpool_sibling`: the next entry of the block, or the block before. */
    method Sibling(did: nat) returns (c: nat)
      requires Valid() && IsDir(dirs, did)
      modifies this
      ensures Valid() && dirs == old(dirs) && ht == old(ht)
      ensures c != 0 ==> IsDir(dirs, c)
      ensures Rest(dirs, did) == [did] + if c == 0 then [] else Rest(dirs, c)
    {
      hide Traverse, Indexed, Last, Rest, ValidDirs, PowerSize, Head;
      ZeroHead(dirs);
      if did + 1 < |dirs| && dirs[did + 1] > 0 {
        RestStep(dirs, did);
        return did + 1;
      }
      var h := Rewind(did);
      BlockLink(dirs, did);
      if h == 0 {
        return 0;
      }
      if !hasTraverse {
        MakeDirtraverse();
      }
      TraverseLink(dirs, |dirs|, h);
      return dirtraverse[h];
    }

    /** Following child and sibling links lists the children of a directory. */
    method ListChildren(did: nat) returns (r: seq<nat>)
      requires Valid() && dirs != [] && IsParent(dirs, did)
      modifies this
      ensures Valid() && dirs == old(dirs) && r == DirPool.Children(dirs, did, |dirs|)
    {
      hide Valid, Rest, ValidDirs, DirPool.Children, Last;
      ghost var d := dirs;
      assert ValidDirs(d) by { ValidFacts(this); }
      r := [];
      var c := Child(did);
      ChildrenBelow(d, did, |d|);
      ghost var tail := DirPool.Children(d, did, |d|);
      while c != 0
        invariant Valid() && dirs == d && (c != 0 ==> IsDir(d, c))
        invariant DirPool.Children(d, did, |d|) == r + tail && tail == if c == 0 then [] else Rest(d, c)
        decreases |tail|
      {
        var c0 := c;
        c := Sibling(c);
        ghost var rest := if c == 0 then [] else Rest(d, c);
        assert r + ([c0] + rest) == (r + [c0]) + rest;
        r, tail := r + [c0], rest;
      }
    }
  }

  lemma ValidFacts(dp: Dirpool)
    requires dp.Valid() && dp.dirs != []
    ensures ValidDirs(dp.dirs)
  {
  }

  lemma RestStep(dirs: seq<int>, c: nat)
    requires ValidDirs(dirs) && IsDir(dirs, c) && IsDir(dirs, c + 1)
    ensures Rest(dirs, c) == [c] + Rest(dirs, c + 1)
  {
  }

  lemma EntryIsDir(ht: seq<nat>, dirs: seq<int>, h: nat)
    requires Indexed(ht, dirs, |dirs|) && h < |ht| && ht[h] != 0
    ensures 2 <= ht[h] < |dirs| && IsDir(dirs, ht[h])
  {
  }

  lemma NamesHash(dirs: seq<int>, i: nat, parent: nat, comp: nat)
    requires |dirs| > 0 && dirs[0] <= 0 && Names(dirs, i, parent, comp)
    ensures IsDir(dirs, i) && HashAt(dirs, i) == HashOf(parent, comp)
  {
  }

  lemma FirstDirs()
    ensures ValidDirs([0, 1])
  {
  }

  lemma RootEntries(dirs: seq<int>)
    requires ValidDirs(dirs)
    ensures Parent(dirs, 2) == 0 && Names(dirs, 1, 0, 1)
  {
  }

  lemma ParentStep(dirs: seq<int>, i: nat)
    requires |dirs| > 0 && dirs[0] <= 0 && 0 < i < |dirs|
    ensures Parent(dirs, i + 1) == if dirs[i] <= 0 then -dirs[i] else Parent(dirs, i)
  {
  }

  lemma Absent(dirs: seq<int>, parent: nat, comp: nat)
    requires ValidDirs(dirs) && (parent != 0 || comp != 1)
    requires forall i :: 2 <= i < |dirs| ==> !Names(dirs, i, parent, comp)
    ensures Scan(dirs, |dirs|, parent, comp) == 0 && forall i :: 0 <= i < |dirs| ==> !Names(dirs, i, parent, comp)
  {
    RootEntries(dirs);
    assert !Names(dirs, 1, parent, comp);
  }

  lemma TraverseNext(dirs: seq<int>, i: nat)
    requires ValidDirs(dirs) && i < |dirs|
    ensures dirs[i] > 0 ==> Traverse(dirs, i + 1) == Traverse(dirs, i) + [0]
    ensures dirs[i] <= 0 && -dirs[i] < i ==>
      Traverse(dirs, i + 1) == (Traverse(dirs, i) + [Traverse(dirs, i)[-dirs[i]]])[-dirs[i] := i + 1]
    ensures dirs[i] <= 0 && -dirs[i] >= i ==>
      i == 0 && dirs[0] == 0 && Traverse(dirs, 0) == [] && Traverse(dirs, 1) == [1]
  {
    if i == 0 { TraverseFirst(dirs); }
  }

  lemma TraverseEntry(dirs: seq<int>, comp: int)
    requires comp > 0
    ensures Traverse(dirs + [comp], |dirs| + 1) == Traverse(dirs, |dirs|) + [0]
  {
    TraversePrefix(dirs, [comp], |dirs|);
  }

  /** At the end of a block the list goes on with the parent's block before; the very first block is the last. */
  lemma BlockLink(dirs: seq<int>, c: nat)
    requires ValidDirs(dirs) && IsDir(dirs, c) && !IsDir(dirs, c + 1)
    ensures var h := Head(dirs, c);
      if h == 0 then Rest(dirs, c) == [c]
      else var l := Last(dirs, -dirs[h], h); (l != 0 ==> IsDir(dirs, l)) && Rest(dirs, c) == [c] + if l == 0 then []
        else Rest(dirs, l)
  {
    hide Rest, DirPool.Children, Last, Head;
    RestEnd(dirs, c);
    ChildrenBelow(dirs, Parent(dirs, c), Head(dirs, c));
    if Head(dirs, c) == 0 { NoneBelow(dirs, Parent(dirs, c)); }
  }

  lemma RestEnd(dirs: seq<int>, c: nat)
    requires ValidDirs(dirs) && IsDir(dirs, c) && !IsDir(dirs, c + 1)
    ensures Rest(dirs, c) == [c] + DirPool.Children(dirs, Parent(dirs, c), Head(dirs, c))
  {
    hide DirPool.Children, Last, Head;
  }

  lemma ChildrenBelow(dirs: seq<int>, p: nat, n: nat)
    requires ValidDirs(dirs) && n <= |dirs|
    ensures var l := Last(dirs, p, n);
      (l != 0 ==> IsDir(dirs, l)) && DirPool.Children(dirs, p, n) == if l == 0 then [] else Rest(dirs, l)
  {
    hide Rest, Last;
    if Last(dirs, p, n) > 0 { LastEntry(dirs, p, n); }
  }

  lemma NoneBelow(dirs: seq<int>, p: nat)
    ensures Last(dirs, p, 0) == 0
  {
  }
}
