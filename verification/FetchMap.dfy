/** The small table of the third pass: it finds the candidates of one package by path hash, and is emptied after use. */
module FetchMap {
  import opened Common
  import opened Probe
  import opened HashTables
  import opened Candidates

  /** Entry i is stored as i + 1, along the probe sequence of its hash. */
  ghost predicate StoredAt(fm: seq<nat>, hx: nat, i: nat, n: nat) {
    |fm| > 0 && fm[Slot(hx, n, |fm|)] == i + 1 && forall m: nat :: m < n ==> fm[Slot(hx, m, |fm|)] != 0
  }

  ghost predicate Stored(fm: seq<nat>, hx: nat, i: nat) {
    exists n :: StoredAt(fm, hx, i, n)
  }

  ghost predicate Filled(fm: seq<nat>, q: seq<Cand>, j: nat) {
    && j <= |q|
    && (forall s :: 0 <= s < |fm| ==> fm[s] <= j)
    && (forall s, t :: 0 <= s < t < |fm| && fm[s] != 0 ==> fm[s] != fm[t])
    && forall i: nat :: i < j ==> Stored(fm, q[i].hx, i)
  }

  ghost predicate Busy(fm: seq<nat>, hx: nat, n: nat) {
    |fm| > 0 && forall m: nat :: m < n ==> fm[Slot(hx, m, |fm|)] != 0
  }

  lemma FreeBound(fm: seq<nat>, hx: nat, n: nat, last: nat)
    requires Busy(fm, hx, n) && fm[Slot(hx, last, |fm|)] == 0
    ensures n <= last
  {
  }

  lemma Within(k: nat, hash: nat, free: nat, size: nat) returns (last: nat)
    requires PowerSize(size, k) && free < size
    ensures Slot(hash, last, size) == free
  {
    last := ProbeCovers(k, hash, free);
  }

  /** A run of occupied slots is no longer than the number of entries. */
  lemma BusyBound(fm: seq<nat>, q: seq<Cand>, j: nat, hx: nat, n: nat, k: nat)
    requires Filled(fm, q, j) && Busy(fm, hx, n) && PowerSize(|fm|, k) && j + 7 < |fm|
    ensures n <= j
  {
    hide Slot, Pow2;
    if n > j {
      var vals := seq(j + 1, m requires 0 <= m <= j => fm[Slot(hx, m, |fm|)]);
      forall a, b | 0 <= a < b <= j ensures vals[a] != vals[b] {
        if Slot(hx, a, |fm|) == Slot(hx, b, |fm|) { ProbeDistinct(k, hx, a, b); }
      }
      DistinctCount(vals, UpTo(j));
    }
  }

  /** Walking on from a free slot is not possible: what is stored lies before it. */
  lemma StoredBefore(fm: seq<nat>, hx: nat, i: nat, n: nat, free: nat)
    requires StoredAt(fm, hx, i, n) && fm[Slot(hx, free, |fm|)] == 0
    ensures n < free
  {
    hide Slot;
  }

  lemma FillNext(fm: seq<nat>, q: seq<Cand>, j: nat, n: nat, h: nat)
    requires Filled(fm, q, j) && j < |q| && Busy(fm, q[j].hx, n) && h == Slot(q[j].hx, n, |fm|) && fm[h] == 0
    ensures h < |fm| && Filled(fm[h := j + 1], q, j + 1)
  {
    hide Slot;
    var fm' := fm[h := j + 1];
    assert StoredAt(fm', q[j].hx, j, n);
    forall i: nat | i <= j ensures Stored(fm', q[i].hx, i) {
      if i < j {
        var n' :| StoredAt(fm, q[i].hx, i, n');
        assert StoredAt(fm', q[i].hx, i, n');
      }
    }
  }

  lemma BusyNext(fm: seq<nat>, hx: nat, n: nat)
    requires Busy(fm, hx, n) && fm[Slot(hx, n, |fm|)] != 0
    ensures Busy(fm, hx, n + 1)
  {
  }

  lemma NotBusy(fm: seq<nat>, hx: nat)
    requires |fm| > 0
    ensures Busy(fm, hx, 0)
  {
  }

  /** Enter the first j candidates. Each keeps its slot in place of the package position. */
  method Fill(fm: array<nat>, q0: seq<Cand>, j: nat, ghost k: nat) returns (q: seq<Cand>)
    requires PowerSize(fm.Length, k) && j + 7 < fm.Length && j <= |q0| && forall s :: 0 <= s < fm.Length ==> fm[s] == 0
    modifies fm
    ensures Filled(fm[..], q0, j) && |q| == |q0| && q[j..] == q0[j..]
    ensures forall i :: 0 <= i < |q| ==> q[i].hx == q0[i].hx
    ensures forall i :: 0 <= i < j ==> q[i].idx < fm.Length && fm[q[i].idx] == i + 1
  {
    hide Slot, Filled, Busy, Wrap, PowerSize;
    q := q0;
    assert Filled(fm[..], q0, 0) by { EmptyFilled(fm[..], q0); }
    for i := 0 to j
      invariant Filled(fm[..], q0, i) && |q| == |q0| && q[i..] == q0[i..]
      invariant forall m :: 0 <= m < |q| ==> q[m].hx == q0[m].hx
      invariant forall m :: 0 <= m < i ==> q[m].idx < fm.Length && fm[q[m].idx] == m + 1
    {
      ghost var a := fm[..];
      SlotStart(q[i].hx, fm.Length);
      var h, hh := Wrap(q[i].hx, fm.Length), 7;
      ghost var n := 0;
      NotBusy(a, q[i].hx);
      while fm[h] != 0
        invariant h < fm.Length && h == Slot(q[i].hx, n, fm.Length) && hh == 7 + n && Busy(a, q[i].hx, n) && fm[..] == a
        invariant n <= i
        decreases i - n
      {
        SlotStep(q[i].hx, n + 1, fm.Length);
        BusyNext(a, q[i].hx, n);
        h, hh, n := Wrap(h + hh, fm.Length), hh + 1, n + 1;
        BusyBound(a, q0, i, q[i].hx, n, k);
      }
      FillNext(a, q0, i, n, h);
      fm[h] := i + 1;
      assert fm[..] == a[h := i + 1];
      q := q[i := q[i].(idx := h)];
    }
  }

  lemma EmptyFilled(fm: seq<nat>, q: seq<Cand>)
    requires forall s :: 0 <= s < |fm| ==> fm[s] == 0
    ensures Filled(fm, q, 0)
  {
  }

  /** Empty the table again, by the slots remembered. */
  method Clear(fm: array<nat>, q: seq<Cand>, ghost q0: seq<Cand>, j: nat)
    requires Filled(fm[..], q0, j) && j <= |q|
    requires forall i :: 0 <= i < j ==> q[i].idx < fm.Length && fm[q[i].idx] == i + 1
    modifies fm
    ensures forall s :: 0 <= s < fm.Length ==> fm[s] == 0
  {
    ghost var a := fm[..];
    for i := 0 to j
      invariant forall s :: 0 <= s < fm.Length ==> fm[s] == if a[s] <= i then 0 else a[s]
    {
      assert a[q[i].idx] == i + 1;
      fm[q[i].idx] := 0;
    }
  }

  /** Does the package have a candidate with this hash? The source acts on each match while walking; there is at most
      one. */
  method Lookup(fm: array<nat>, q: seq<Cand>, ghost q0: seq<Cand>, j: nat, hx: nat, ghost k: nat) returns (matches: nat)
    requires PowerSize(fm.Length, k) && j + 7 < fm.Length && Filled(fm[..], q0, j) && j <= |q0| && j <= |q|
    requires forall i :: 0 <= i < j ==> q[i].hx == q0[i].hx
    requires forall a, b :: 0 <= a < b < j ==> q0[a].hx != q0[b].hx
    ensures matches == if exists i :: 0 <= i < j && q0[i].hx == hx then 1 else 0
  {
    hide Slot, Busy, Wrap, PowerSize, Filled;
    ghost var a := fm[..];
    FilledBounds(a, q0, j);
    SlotStart(hx, fm.Length);
    var h, hh := Wrap(hx, fm.Length), 7;
    matches := 0;
    ghost var n, at := 0, -1;
    NotBusy(a, hx);
    while fm[h] != 0
      invariant h < fm.Length && h == Slot(hx, n, fm.Length) && hh == 7 + n && Busy(a, hx, n) && n <= j
      invariant matches == 0 ==> forall m: nat ::
        m < n ==> 0 < a[Slot(hx, m, fm.Length)] <= j && q0[a[Slot(hx, m, fm.Length)] - 1].hx != hx
      invariant matches <= 1
      invariant matches == 1 ==>
        0 <= at < n && 0 < a[Slot(hx, at, fm.Length)] <= j && q0[a[Slot(hx, at, fm.Length)] - 1].hx == hx
      decreases j - n
    {
      if q[fm[h] - 1].hx == hx {
        if matches == 1 { OnlyOnce(a, q0, j, hx, at, n, k); }
        matches := matches + 1;
        at := n;
      }
      SlotStep(hx, n + 1, fm.Length);
      BusyNext(a, hx, n);
      h, hh, n := Wrap(h + hh, fm.Length), hh + 1, n + 1;
      BusyBound(a, q0, j, hx, n, k);
    }
    if matches == 0 { NoneStored(a, q0, j, hx, n); }
  }

  lemma FilledBounds(fm: seq<nat>, q: seq<Cand>, j: nat)
    requires Filled(fm, q, j)
    ensures j <= |q| && forall s :: 0 <= s < |fm| ==> fm[s] <= j
  {
  }

  lemma OnlyOnce(fm: seq<nat>, q: seq<Cand>, j: nat, hx: nat, a: nat, b: nat, k: nat)
    requires Filled(fm, q, j) && PowerSize(|fm|, k) && a < b <= j && j + 7 < |fm|
    requires fm[Slot(hx, a, |fm|)] != 0 && fm[Slot(hx, b, |fm|)] != 0
    requires forall a, b :: 0 <= a < b < j ==> q[a].hx != q[b].hx
    ensures q[fm[Slot(hx, a, |fm|)] - 1].hx != q[fm[Slot(hx, b, |fm|)] - 1].hx
  {
    hide Slot, Pow2;
    if Slot(hx, a, |fm|) == Slot(hx, b, |fm|) { ProbeDistinct(k, hx, a, b); }
  }

  lemma NoneStored(fm: seq<nat>, q: seq<Cand>, j: nat, hx: nat, n: nat)
    requires Filled(fm, q, j) && |fm| > 0 && fm[Slot(hx, n, |fm|)] == 0
    requires forall m: nat :: m < n ==> 0 < fm[Slot(hx, m, |fm|)] <= j && q[fm[Slot(hx, m, |fm|)] - 1].hx != hx
    ensures forall i :: 0 <= i < j ==> q[i].hx != hx
  {
    hide Slot;
    forall i: nat | i < j ensures q[i].hx != hx {
      if q[i].hx == hx { FoundBefore(fm, q, j, hx, n, i); }
    }
  }

  lemma FoundBefore(fm: seq<nat>, q: seq<Cand>, j: nat, hx: nat, free: nat, i: nat)
    requires Filled(fm, q, j) && |fm| > 0 && i < j && q[i].hx == hx && fm[Slot(hx, free, |fm|)] == 0
    ensures exists m: nat :: m < free && fm[Slot(hx, m, |fm|)] == i + 1
  {
    hide Slot;
    assert Stored(fm, q[i].hx, i);
    var n :| StoredAt(fm, hx, i, n);
    StoredBefore(fm, hx, i, n, free);
  }
}
