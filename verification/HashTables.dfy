/** The open-addressed (key, value) tables: probing, insertion, growing. Key 0 marks a free slot. */
module HashTables {
  import opened Common
  import opened Probe

  lemma FreeIntro(ks: seq<nat>, q: nat, n: nat, h: nat)
    requires |ks| > 0 && h == Slot(q, n, |ks|) && ks[h] == 0 && Probed(ks, q, n)
    ensures FreeFor(ks, q, n, h)
  {
  }

  /** Key q sits where its probe sequence says, with no free slot before. */
  ghost predicate ChainHas(ks: seq<nat>, q: nat, n: nat) {
    |ks| > 0 && ks[Slot(q, n, |ks|)] == q && forall m: nat :: m < n ==> ks[Slot(q, m, |ks|)] != 0
  }

  ghost predicate Table(ks: seq<nat>, vs: seq<int>, content: map<nat, int>) {
    && |ks| == |vs| && 0 !in content
    && (forall s :: 0 <= s < |ks| && ks[s] != 0 ==> ks[s] in content && vs[s] == content[ks[s]])
    && (forall s, t :: 0 <= s < t < |ks| && ks[s] != 0 ==> ks[s] != ks[t])
    && forall q :: q in content ==> exists n :: ChainHas(ks, q, n)
  }

  ghost predicate PowerSize(size: nat, bits: nat) {
    bits >= 2 && size == Pow2(bits)
  }

  /** The first n probes hit other keys. */
  ghost predicate Probed(ks: seq<nat>, q: nat, n: nat) {
    |ks| > 0 && forall m: nat :: m < n ==> ks[Slot(q, m, |ks|)] != 0 && ks[Slot(q, m, |ks|)] != q
  }

  lemma NoProbe(ks: seq<nat>, q: nat)
    requires |ks| > 0
    ensures Probed(ks, q, 0)
  {
  }

  lemma ProbedMore(ks: seq<nat>, q: nat, n: nat)
    requires Probed(ks, q, n) && ks[Slot(q, n, |ks|)] != 0 && ks[Slot(q, n, |ks|)] != q
    ensures Probed(ks, q, n + 1)
  {
  }

  /** A free slot is not probed past. */
  lemma ProbedStops(ks: seq<nat>, q: nat, n: nat, last: nat)
    requires Probed(ks, q, n) && ks[Slot(q, last, |ks|)] == 0
    ensures n <= last
  {
  }

  /** A free slot; all probes before it hit other keys. */
  ghost predicate FreeFor(ks: seq<nat>, q: nat, n: nat, h: nat) {
    |ks| > 0 && h == Slot(q, n, |ks|) && ks[h] == 0 && Probed(ks, q, n)
  }

  /** With fewer keys than slots some slot is free. */
  lemma HasFree(ks: seq<nat>, vs: seq<int>, content: map<nat, int>) returns (s: nat)
    requires Table(ks, vs, content) && |content| < |ks|
    ensures s < |ks| && ks[s] == 0
  {
    assert |content.Keys| == |content|;
    if forall s :: 0 <= s < |ks| ==> ks[s] != 0 {
      DistinctCount(ks, content.Keys);
    }
    s :| 0 <= s < |ks| && ks[s] == 0;
  }

  /** Stopping at a free slot means the key is absent. */
  lemma FreeMeansAbsent(ks: seq<nat>, vs: seq<int>, content: map<nat, int>, q: nat, n: nat, h: nat)
    requires Table(ks, vs, content) && FreeFor(ks, q, n, h) && q != 0
    ensures q !in content
  {
    hide Slot;
    forall n': nat ensures !ChainHas(ks, q, n') {
      if n' < n { assert ks[Slot(q, n', |ks|)] != q; }
    }
  }

  lemma StoreChain(ks: seq<nat>, q: nat, h: nat, v: nat, n: nat)
    requires ChainHas(ks, q, n) && h < |ks| && ks[h] == 0 && v != 0 && q != 0
    ensures ChainHas(ks[h := v], q, n)
  {
    hide Slot;
  }

  lemma StoreTable(ks: seq<nat>, vs: seq<int>, content: map<nat, int>, q: nat, v: int, n: nat, h: nat)
    requires Table(ks, vs, content) && FreeFor(ks, q, n, h) && q != 0
    ensures h < |ks| && q !in content && Table(ks[h := q], vs[h := v], content[q := v])
  {
    hide Slot;
    FreeMeansAbsent(ks, vs, content, q, n, h);
    var ks' := ks[h := q];
    assert ChainHas(ks', q, n);
    forall p | p in content ensures exists n :: ChainHas(ks', p, n) {
      var n' :| ChainHas(ks, p, n');
      StoreChain(ks, p, h, q, n');
    }
  }

  lemma UpdateTable(ks: seq<nat>, vs: seq<int>, content: map<nat, int>, h: nat, v: int)
    requires Table(ks, vs, content) && h < |ks| && ks[h] != 0
    ensures Table(ks, vs[h := v], content[ks[h] := v])
  {
  }

  /** A table size for about `num` entries: the smallest power of two above 2 * num + 3. */
  method TableSize(num: nat) returns (size: nat, ghost k: nat)
    ensures PowerSize(size, k) && 2 * num + 3 < size <= 4 * num + 6
  {
    size, k := 4, 2;
    assert Pow2(2) == 2 * Pow2(1) && Pow2(1) == 2 * Pow2(0);
    while size <= 2 * num + 3
      invariant PowerSize(size, k) && size <= 4 * num + 6
      decreases 2 * num + 4 - size
    {
      size, k := 2 * size, k + 1;
    }
  }

  class HashTable {
    var keys: array<nat>
    var vals: array<int>
    var used: nat
    ghost var bits: nat
    ghost var content: map<nat, int>

    ghost predicate Valid()
      reads this, keys, vals
    {
      && PowerSize(keys.Length, bits) && used == |content| && used <= (keys.Length - 1) / 2
      && Table(keys[..], vals[..], content)
    }

    constructor (size: nat, ghost k: nat)
      requires PowerSize(size, k)
      ensures Valid() && content == map[] && fresh(keys) && fresh(vals)
    {
      keys, vals := new nat[size](_ => 0), new int[size](_ => 0);
      used, bits, content := 0, k, map[];
      new;
      AtLeastFour(k);
    }

    /** Probe until the key or a free slot turns up. */
    method Find(q: nat) returns (h: nat, ghost n: nat)
      requires Valid() && q != 0
      ensures h < keys.Length == vals.Length
      ensures q in content ==> keys[h] == q && vals[h] == content[q]
      ensures q !in content ==> keys[h] == 0 && FreeFor(keys[..], q, n, h)
    {
      hide Slot, Table, Probed, Wrap, Pow2, FreeFor;
      AtLeastFour(bits);
      ghost var free := HasFree(keys[..], vals[..], content);
      ghost var last := ProbeCovers(bits, q, free);
      ghost var ks := keys[..];
      SameSize(ks, vals[..], content);
      SlotStart(q, keys.Length);
      h, n := Wrap(q, keys.Length), 0;
      NoProbe(ks, q);
      var hh := 7;
      while keys[h] != 0 && keys[h] != q
        invariant h < keys.Length && h == Slot(q, n, keys.Length) && hh == 7 + n && n <= last && Probed(ks, q, n)
        decreases last - n
      {
        SlotStep(q, n + 1, keys.Length);
        ProbedMore(ks, q, n);
        h, hh, n := Wrap(h + hh, keys.Length), hh + 1, n + 1;
        ProbedStops(ks, q, n, last);
      }
      if keys[h] == 0 {
        FreeIntro(ks, q, n, h);
        FreeMeansAbsent(ks, vals[..], content, q, n, h);
      } else {
        Present(ks, vals[..], content, h);
      }
    }

    /** Fill the free slot h that Find returned for q; double the table when it gets half full. */
    method Insert(h: nat, q: nat, v: int, ghost n: nat)
      requires Valid() && q != 0 && h < keys.Length && FreeFor(keys[..], q, n, h)
      modifies this, keys, vals
      ensures Valid() && content == old(content)[q := v] && q !in old(content)
      ensures keys == old(keys) || fresh(keys)
      ensures vals == old(vals) || fresh(vals)
    {
      hide Slot, Table, FreeFor;
      SameSize(keys[..], vals[..], content);
      StoreTable(keys[..], vals[..], content, q, v, n, h);
      keys[h] := q;
      vals[h] := v;
      content := content[q := v];
      used := used + 1;
      if used > (keys.Length - 1) / 2 {
        Grow();
      }
    }

    /** Overwrite the value in an occupied slot. */
    method Set(h: nat, v: int)
      requires Valid() && h < keys.Length && keys[h] != 0
      modifies this, vals
      ensures Valid() && keys == old(keys) && vals == old(vals) && content == old(content)[keys[h] := v]
    {
      hide Slot, Table;
      ghost var a, b, q := keys[..], vals[..], keys[h];
      SameSize(a, b, content);
      Present(a, b, content, h);
      UpdateTable(a, b, content, h, v);
      vals[h] := v;
      assert vals[..] == b[h := v];
      assert content[q := v].Keys == content.Keys;
      KeyCount(content, content[q := v]);
      KeyCount(content[q := v], content);
      content := content[q := v];
    }

    /** Rehash into a table of twice the size. */
    method Grow()
      requires PowerSize(keys.Length, bits) && used == |content| && used <= keys.Length / 2
      requires Table(keys[..], vals[..], content)
      modifies this
      ensures Valid() && content == old(content) && fresh(keys) && fresh(vals)
    {
      hide Slot, Table, FreeFor, Moved;
      SameSize(keys[..], vals[..], content);
      AtLeastFour(bits);
      MovedNone(keys[..], content);
      var ks, vs := new nat[2 * keys.Length](_ => 0), new int[2 * keys.Length](_ => 0);
      ghost var part: map<nat, int> := map[];
      assert Table(ks[..], vs[..], part) by { EmptyTable(ks[..], vs[..]); }
      for i := 0 to keys.Length
        invariant unchanged(this) && ks.Length == vs.Length == 2 * keys.Length && Moved(keys[..], content, i, part)
        invariant Table(ks[..], vs[..], part) && fresh(ks) && fresh(vs)
      {
        MovedNext(keys[..], vals[..], content, i, part);
        MovedSize(keys[..], content, i, part);
        if keys[i] != 0 {
          Move(ks, vs, bits + 1, keys[i], vals[i], part);
          part := part[keys[i] := vals[i]];
        }
      }
      MovedAll(keys[..], vals[..], content, part);
      keys, vals, bits := ks, vs, bits + 1;
    }

    /** The inner loop of the rehashing: keys are known to be new, so only a free slot is looked for. */
    static method Move(ks: array<nat>, vs: array<int>, ghost k: nat, q: nat, v: int, ghost content: map<nat, int>)
      requires PowerSize(ks.Length, k) && Table(ks[..], vs[..], content) && |content| < ks.Length && q != 0
      requires q !in content
      modifies ks, vs
      ensures Table(ks[..], vs[..], content[q := v])
    {
      hide Slot, Table, Probed, Wrap, Pow2, FreeFor;
      ghost var a, b := ks[..], vs[..];
      SameSize(a, b, content);
      ghost var free := HasFree(a, b, content);
      ghost var last := ProbeCovers(k, q, free);
      SlotStart(q, ks.Length);
      var h, hh := Wrap(q, ks.Length), 7;
      ghost var n := 0;
      NoProbe(a, q);
      while ks[h] != 0
        invariant h < ks.Length && h == Slot(q, n, ks.Length) && hh == 7 + n && n <= last && Probed(a, q, n)
        invariant ks[..] == a && vs[..] == b
        decreases last - n
      {
        Present(a, b, content, h);
        SlotStep(q, n + 1, ks.Length);
        ProbedMore(a, q, n);
        h, hh, n := Wrap(h + hh, ks.Length), hh + 1, n + 1;
        ProbedStops(a, q, n, last);
      }
      FreeIntro(a, q, n, h);
      StoreTable(a, b, content, q, v, n, h);
      ks[h] := q;
      vs[h] := v;
      assert ks[..] == a[h := q] && vs[..] == b[h := v];
    }
  }

  lemma SameSize(ks: seq<nat>, vs: seq<int>, content: map<nat, int>)
    requires Table(ks, vs, content)
    ensures |ks| == |vs|
  {
  }

  lemma EmptyTable(ks: seq<nat>, vs: seq<int>)
    requires |ks| == |vs| && forall s :: 0 <= s < |ks| ==> ks[s] == 0
    ensures Table(ks, vs, map[])
  {
  }

  /** The keys of the first i slots have been moved. */
  ghost predicate Moved(ks: seq<nat>, content: map<nat, int>, i: nat, part: map<nat, int>) {
    i <= |ks| && |part| <= |content| && (forall q :: q in part <==> q != 0 && q in ks[..i]) && forall q ::
      q in part ==> q in content && part[q] == content[q]
  }

  lemma MovedNone(ks: seq<nat>, content: map<nat, int>)
    ensures Moved(ks, content, 0, map[])
  {
  }

  lemma MovedSize(ks: seq<nat>, content: map<nat, int>, i: nat, part: map<nat, int>)
    requires Moved(ks, content, i, part)
    ensures |part| <= |content|
  {
  }

  lemma MovedNext(ks: seq<nat>, vs: seq<int>, content: map<nat, int>, i: nat, part: map<nat, int>)
    requires Table(ks, vs, content) && |ks| == |vs| && Moved(ks, content, i, part) && i < |ks|
    ensures ks[i] == 0 ==> Moved(ks, content, i + 1, part)
    ensures ks[i] != 0 ==> ks[i] !in part && Moved(ks, content, i + 1, part[ks[i] := vs[i]])
  {
    hide Table;
    assert ks[..i + 1] == ks[..i] + [ks[i]];
    if ks[i] != 0 {
      NewKey(ks, vs, content, i);
      Present(ks, vs, content, i);
      var part' := part[ks[i] := vs[i]];
      assert part'.Keys <= content.Keys;
      KeyCount(part', content);
    }
  }

  lemma NewKey(ks: seq<nat>, vs: seq<int>, content: map<nat, int>, i: nat)
    requires Table(ks, vs, content) && i < |ks| && ks[i] != 0
    ensures ks[i] !in ks[..i]
  {
  }

  lemma KeyCount(a: map<nat, int>, b: map<nat, int>)
    requires a.Keys <= b.Keys
    ensures |a| <= |b|
  {
    SubsetSize(a.Keys, b.Keys);
    assert |a.Keys| == |a| && |b.Keys| == |b|;
  }

  lemma MovedAll(ks: seq<nat>, vs: seq<int>, content: map<nat, int>, part: map<nat, int>)
    requires Table(ks, vs, content) && Moved(ks, content, |ks|, part)
    ensures part == content
  {
    hide Table;
    assert ks[..|ks|] == ks;
    forall q | q in content ensures q in part {
      KeyStored(ks, vs, content, q);
    }
  }

  lemma KeyStored(ks: seq<nat>, vs: seq<int>, content: map<nat, int>, q: nat)
    requires Table(ks, vs, content) && q in content
    ensures q != 0 && q in ks
  {
    hide Slot;
    var n :| ChainHas(ks, q, n);
  }

  lemma Present(ks: seq<nat>, vs: seq<int>, content: map<nat, int>, h: nat)
    requires Table(ks, vs, content) && h < |ks| && ks[h] != 0
    ensures ks[h] in content && vs[h] == content[ks[h]]
  {
  }
}
