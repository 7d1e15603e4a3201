/** The third pass: candidates become records of real files. */
module FileExpand {
  import opened Common
  import opened Probe
  import opened HashTables
  import opened FileLists
  import opened Candidates
  import opened FetchMap
  import opened FileScan

  /** What is kept of a file: digest cut to 32 characters, colour, full path. */
  datatype Rec = Rec(digest: string, color: bv8, path: string)

  /** Package position and index of a file in it. */
  datatype Origin = Origin(idx: nat, file: nat)

  function RecOf(p: Package, k: nat): Rec
    requires Listed(p, k)
  {
    Rec(Digest32(p.files[k].digest), p.files[k].color, Path(p, k))
  }

  ghost predicate Tracked(step: Step, pkgs: Packages, c: Cand, r: Rec, o: Origin, off: nat) {
    Has(pkgs, o.idx, o.file) && r == RecOf(pkgs[o.idx].value, o.file)
      && c == Cand(KeyOf(step, pkgs[o.idx].value, o.file), o.idx, off)
  }

  /** Records and queue entries correspond to distinct files, one by one. */
  ghost predicate Tracks(step: Step, pkgs: Packages, tail: seq<Cand>, fs: seq<Rec>, org: seq<Origin>) {
    && |tail| == |fs| == |org|
    && (forall o :: 0 <= o < |org| ==> Tracked(step, pkgs, tail[o], fs[o], org[o], o))
    && forall o, o' :: 0 <= o < o' < |org| ==> org[o] != org[o']
  }

  /** All files of package i below n whose hash is among the candidates' are there. */
  ghost predicate CoversFiles(step: Step, p: Package, i: nat, n: nat, q: seq<Cand>, org: seq<Origin>) {
    forall k: nat :: k < n && Listed(p, k) && HasHash(q, KeyOf(step, p, k)) ==> Origin(i, k) in org
  }

  ghost predicate HasHash(q: seq<Cand>, hx: nat) {
    exists i :: 0 <= i < |q| && q[i].hx == hx
  }

  /** Every origin comes from an earlier package, or an earlier file of this one. */
  ghost predicate Before(org: seq<Origin>, i: nat, k: nat) {
    forall o :: 0 <= o < |org| ==> org[o].idx < i || (org[o].idx == i && org[o].file < k)
  }

  /** Every origin from number n on is a file of package i with the hash of a candidate. */
  ghost predicate Added(step: Step, pkgs: Packages, i: nat, q: seq<Cand>, n: nat, org: seq<Origin>) {
    forall o :: n <= o < |org| ==>
      org[o].idx == i && Has(pkgs, i, org[o].file) && HasHash(q, KeyOf(step, pkgs[i].value, org[o].file))
  }

  lemma AddedNext(step: Step, pkgs: Packages, i: nat, q: seq<Cand>, n: nat, org: seq<Origin>, k: nat)
    requires Added(step, pkgs, i, q, n, org) && Has(pkgs, i, k) && HasHash(q, KeyOf(step, pkgs[i].value, k))
    ensures Added(step, pkgs, i, q, n, org + [Origin(i, k)])
  {
    hide FileKey, HasHash;
  }

  lemma AddedNone(step: Step, pkgs: Packages, i: nat, q: seq<Cand>, org: seq<Origin>)
    ensures Added(step, pkgs, i, q, |org|, org)
  {
  }

  lemma TrackNext(step: Step, pkgs: Packages, tail: seq<Cand>, fs: seq<Rec>, org: seq<Origin>, i: nat, k: nat)
    requires Tracks(step, pkgs, tail, fs, org) && Before(org, i, k) && Has(pkgs, i, k)
    ensures var p := pkgs[i].value;
      Tracks(step, pkgs, tail + [Cand(KeyOf(step, p, k), i, |fs|)], fs + [RecOf(p, k)], org + [Origin(i, k)])
    ensures Before(org + [Origin(i, k)], i, k + 1)
  {
    hide FileKey;
  }

  lemma CoversNext(step: Step, p: Package, i: nat, n: nat, q: seq<Cand>, org: seq<Origin>, org': seq<Origin>)
    requires CoversFiles(step, p, i, n, q, org) && org <= org'
    requires Listed(p, n) && HasHash(q, KeyOf(step, p, n)) ==> Origin(i, n) in org'
    ensures CoversFiles(step, p, i, n + 1, q, org')
  {
    hide FileKey, HasHash;
    forall k: nat | k < n + 1 && Listed(p, k) && HasHash(q, KeyOf(step, p, k)) ensures Origin(i, k) in org' {
      if k < n { assert Origin(i, k) in org; }
    }
  }

  /** The files of one package: those with the hash of one of the first j candidates get a record and an entry at the
      end of the queue. */
  method ExpandPackage(step: Step, ghost pkgs: Packages, p: Package, i: nat, fm: array<nat>, q0: seq<Cand>,
      ghost block: seq<Cand>, j: nat,
                       fs0: seq<Rec>, ghost org0: seq<Origin>, ghost front: seq<Cand>, ghost tail0: seq<Cand>,
                       ghost k: nat)
    returns (q: seq<Cand>, fs: seq<Rec>, ghost org: seq<Origin>, ghost tail: seq<Cand>)
    requires i < |pkgs| && pkgs[i] == Some(p) && PowerSize(fm.Length, k) && j + 7 < fm.Length
    requires Filled(fm[..], block, j)
    requires j == |block| <= |front| && (forall m :: 0 <= m < j ==> front[m].hx == block[m].hx)
    requires forall a, b :: 0 <= a < b < j ==> block[a].hx != block[b].hx
    requires q0 == front + tail0 && Tracks(step, pkgs, tail0, fs0, org0) && Before(org0, i, 0)
    ensures q == front + tail && Tracks(step, pkgs, tail, fs, org) && Before(org, i + 1, 0) && org0 <= org
    ensures CoversFiles(step, p, i, |p.files|, block, org) && Added(step, pkgs, i, block, |org0|, org)
  {
    hide Tracks, CoversFiles, Filled, HashCont, Before, PowerSize, Added;
    q, fs, org, tail := q0, fs0, org0, tail0;
    var lastdiridx, lastdirhash := -1, 0;
    CoversNone(step, p, i, block, org);
    AddedNone(step, pkgs, i, block, org);
    for f := 0 to |p.files|
      invariant -1 <= lastdiridx < |p.dirs|
      invariant lastdiridx >= 0 ==> lastdirhash == HashCont(step, p.dirs[lastdiridx], 0)
      invariant q == front + tail && Tracks(step, pkgs, tail, fs, org) && Before(org, i, f) && org0 <= org
      invariant CoversFiles(step, p, i, f, block, org) && Added(step, pkgs, i, block, |org0|, org)
    {
      BeforeNext(org, i, f);
      if p.files[f].isghost || p.files[f].diridx >= |p.dirs| || p.dirs[p.files[f].diridx] == "" {
        CoversNext(step, p, i, f, block, org, org);
        continue;
      }
      var diridx := p.files[f].diridx;
      var dir := p.dirs[diridx];
      if diridx != lastdiridx {
        lastdiridx := diridx;
        lastdirhash := HashCont(step, dir, 0);
      }
      var hx := NonZero(HashCont(step, p.files[f].base, lastdirhash), |dir| + |p.files[f].base|);
      assert hx == KeyOf(step, p, f);
      var matches := Lookup(fm, q, block, j, hx, k);
      if matches == 0 {
        CoversNext(step, p, i, f, block, org, org);
      } else {
        TrackNext(step, pkgs, tail, fs, org, i, f);
        AddedNext(step, pkgs, i, block, |org0|, org, f);
        CoversNext(step, p, i, f, block, org, org + [Origin(i, f)]);
        var off := |fs|;
        fs, org := fs + [RecOf(p, f)], org + [Origin(i, f)];
        assert front + (tail + [Cand(hx, i, off)]) == (front + tail) + [Cand(hx, i, off)];
        q, tail := q + [Cand(hx, i, off)], tail + [Cand(hx, i, off)];
      }
    }
    BeforeDone(org, i, |p.files|);
  }

  lemma CoversNone(step: Step, p: Package, i: nat, q: seq<Cand>, org: seq<Origin>)
    ensures CoversFiles(step, p, i, 0, q, org)
  {
  }

  lemma BeforeNext(org: seq<Origin>, i: nat, k: nat)
    requires Before(org, i, k)
    ensures Before(org, i, k + 1)
  {
  }

  lemma BeforeDone(org: seq<Origin>, i: nat, k: nat)
    requires Before(org, i, k)
    ensures Before(org, i + 1, 0)
  {
  }

  ghost predicate DistinctPairs(q: seq<Cand>) {
    forall a, b :: 0 <= a < b < |q| ==> q[a].hx != q[b].hx || q[a].idx != q[b].idx
  }

  /** All files that match one of the candidates are there. */
  ghost predicate Covers(step: Step, pkgs: Packages, q: seq<Cand>, org: seq<Origin>) {
    forall i: nat, k: nat :: Has(pkgs, i, k) && HasCand(q, KeyOf(step, pkgs[i].value, k), i) ==> Origin(i, k) in org
  }

  /** Only files that match one of the candidates are there. */
  ghost predicate Chosen(step: Step, pkgs: Packages, q: seq<Cand>, org: seq<Origin>) {
    forall o :: 0 <= o < |org| ==>
      Has(pkgs, org[o].idx, org[o].file)
        && HasCand(q, KeyOf(step, pkgs[org[o].idx].value, org[o].file), org[o].idx)
  }

  lemma ChosenBlock(step: Step, pkgs: Packages, done: seq<Cand>, block: seq<Cand>, i: nat, org: seq<Origin>,
      org': seq<Origin>)
    requires Chosen(step, pkgs, done, org) && org <= org'
    requires forall m :: 0 <= m < |block| ==> block[m].idx == i
    requires Added(step, pkgs, i, block, |org|, org')
    ensures Chosen(step, pkgs, done + block, org')
  {
    hide KeyOf;
    forall o | 0 <= o < |org'|
      ensures Has(pkgs, org'[o].idx, org'[o].file)
      ensures HasCand(done + block, KeyOf(step, pkgs[org'[o].idx].value, org'[o].file), org'[o].idx)
    {
      if o < |org| {
        assert org'[o] == org[o];
        CandMore(done, block, KeyOf(step, pkgs[org[o].idx].value, org[o].file), org[o].idx);
      } else {
        CandOf(done, block, KeyOf(step, pkgs[i].value, org'[o].file), i);
      }
    }
  }

  lemma CandMore(done: seq<Cand>, block: seq<Cand>, hx: nat, i: nat)
    requires HasCand(done, hx, i)
    ensures HasCand(done + block, hx, i)
  {
    var m :| 0 <= m < |done| && done[m].hx == hx && done[m].idx == i;
    assert (done + block)[m] == done[m];
  }

  lemma CandOf(done: seq<Cand>, block: seq<Cand>, hx: nat, i: nat)
    requires HasHash(block, hx) && forall m :: 0 <= m < |block| ==> block[m].idx == i
    ensures HasCand(done + block, hx, i)
  {
    var m :| 0 <= m < |block| && block[m].hx == hx;
    assert (done + block)[|done| + m] == block[m];
  }

  /** With the block of package i done, the candidates up to its end are covered. */
  lemma CoversBlock(step: Step, pkgs: Packages, done: seq<Cand>, block: seq<Cand>, i: nat, org: seq<Origin>,
      org': seq<Origin>)
    requires Covers(step, pkgs, done, org) && org <= org' && i < |pkgs|
    requires forall m :: 0 <= m < |block| ==> block[m].idx == i
    requires pkgs[i].Some? ==> CoversFiles(step, pkgs[i].value, i, |pkgs[i].value.files|, block, org')
    ensures Covers(step, pkgs, done + block, org')
  {
    hide KeyOf;
    forall i': nat, k: nat | Has(pkgs, i', k) && HasCand(done + block, KeyOf(step, pkgs[i'].value, k), i')
      ensures Origin(i', k) in org'
    {
      var hx := KeyOf(step, pkgs[i'].value, k);
      var m :| 0 <= m < |done + block| && (done + block)[m].hx == hx && (done + block)[m].idx == i';
      if m < |done| {
        assert done[m].hx == hx && done[m].idx == i';
        assert HasCand(done, hx, i');
        assert Origin(i', k) in org;
      } else {
        assert block[m - |done|].hx == hx && block[m - |done|].idx == i';
        assert HasHash(block, hx);
      }
    }
  }

  /** The end of the run of equal package positions at the front of the queue. */
  method BlockEndAt(q: seq<Cand>, cnt: nat) returns (j: nat)
    requires 0 < cnt <= |q|
    ensures 0 < j <= cnt && (forall m :: 0 <= m < j ==> q[m].idx == q[0].idx) && (j < cnt ==> q[j].idx != q[0].idx)
  {
    j := 1;
    while j < cnt && q[j].idx == q[0].idx
      invariant 0 < j <= cnt && forall m :: 0 <= m < j ==> q[m].idx == q[0].idx
    {
      j := j + 1;
    }
  }

  /** Fetch the files of package idx for the j candidates at the front of the queue. The front keeps its hashes;
      entries follow at the end. */
  method ExpandBlock(step: Step, pkgs: Packages, idx: nat, fm: array<nat>, q0: seq<Cand>, j: nat,
                     ghost block: seq<Cand>, ghost front: seq<Cand>, ghost tail0: seq<Cand>, fs0: seq<Rec>,
                     ghost org0: seq<Origin>, ghost k: nat)
    returns (q: seq<Cand>, fs: seq<Rec>, ghost org: seq<Origin>, ghost tail: seq<Cand>)
    requires idx < |pkgs| && pkgs[idx].Some? && PowerSize(fm.Length, k) && j + 7 < fm.Length
    requires forall s :: 0 <= s < fm.Length ==> fm[s] == 0
    requires q0 == front + tail0 && j == |block| <= |front| && block == front[..j]
    requires forall a, c :: 0 <= a < c < j ==> block[a].hx != block[c].hx
    requires Tracks(step, pkgs, tail0, fs0, org0) && Before(org0, idx, 0)
    modifies fm
    ensures forall s :: 0 <= s < fm.Length ==> fm[s] == 0
    ensures |q| == |front| + |tail| && q[j..] == front[j..] + tail
    ensures Tracks(step, pkgs, tail, fs, org) && Before(org, idx + 1, 0) && org0 <= org
    ensures CoversFiles(step, pkgs[idx].value, idx, |pkgs[idx].value.files|, block, org)
    ensures Added(step, pkgs, idx, block, |org0|, org)
  {
    hide Tracks, CoversFiles, Filled, Before, PowerSize, Added;
    var q1 := Fill(fm, q0, j, k);
    FilledSame(fm[..], q0, block, j);
    ghost var f1 := q1[..|front|];
    assert q1 == f1 + tail0 by { assert q1[|front|..] == q1[j..][|front| - j..]; }
    assert f1[j..] == front[j..] by { assert q1[j..][..|front| - j] == q0[j..][..|front| - j]; }
    q, fs, org, tail := ExpandPackage(step, pkgs, pkgs[idx].value, idx, fm, q1, block, j, fs0, org0, f1, tail0, k);
    assert forall i :: 0 <= i < j ==> q[i] == q1[i];
    Clear(fm, q, block, j);
    assert q[j..] == f1[j..] + tail;
  }

  method Expand(step: Step, pkgs: Packages, cands: seq<Cand>)
    returns (q: seq<Cand>, fs: seq<Rec>, ghost org: seq<Origin>)
    requires SortedBy(IdxLe, cands) && DistinctPairs(cands) && forall m :: 0 <= m < |cands| ==> cands[m].idx < |pkgs|
    ensures Tracks(step, pkgs, q, fs, org) && Covers(step, pkgs, cands, org) && Chosen(step, pkgs, cands, org)
  {
    hide Tracks, Covers, CoversFiles, Filled, Before, PowerSize, SortedBy, Added, Chosen;
    var size, k := FetchSize(|cands|);
    var fm := new nat[size](_ => 0);
    q, fs, org := cands, [], [];
    ghost var tail: seq<Cand>, b: nat, hi: nat := [], 0, 0;
    Nothing(step, pkgs);
    var cnt := |cands|;
    while cnt > 0
      invariant cnt >= 0 && b + cnt == |cands| && q == cands[b..] + tail && fm.Length == size
      invariant forall s :: 0 <= s < fm.Length ==> fm[s] == 0
      invariant b < |cands| ==> hi <= cands[b].idx
      invariant Tracks(step, pkgs, tail, fs, org) && Before(org, hi, 0)
      invariant Covers(step, pkgs, cands[..b], org) && Chosen(step, pkgs, cands[..b], org)
    {
      var idx := q[0].idx;
      FrontIs(cands, b, tail, q);
      var j := BlockEndAt(q, cnt);
      ghost var block, e := cands[b..b + j], b + j;
      CutBlock(cands, b, j, tail, q, block);
      BlockFacts(cands, b, j, block);
      ghost var org0 := org;
      BeforeMore(org, hi, idx);
      ghost var front := cands[b..];
      if pkgs[idx].Some? {
        q, fs, org, tail := ExpandBlock(step, pkgs, idx, fm, q, j, block, front, tail, fs, org, k);
      } else {
        BeforeMore(org, idx, idx + 1);
        AddedNone(step, pkgs, idx, block, org);
      }
      ChosenBlock(step, pkgs, cands[..b], block, idx, org0, org);
      CoversBlock(step, pkgs, cands[..b], block, idx, org0, org);
      CutTail(cands, b, j, tail);
      q, cnt := q[j..], cnt - j;
      b, hi := e, idx + 1;
    }
    assert cands[..b] == cands && q == tail;
  }

  method FetchSize(n: nat) returns (size: nat, ghost k: nat)
    ensures PowerSize(size, k) && n + 7 < size
  {
    size, k := TableSize(4 * n + 3);
    if size < 4096 {
      size, k := 4096, 12;
      assert Pow2(12) == 4096;
    }
  }

  lemma FrontIs(cands: seq<Cand>, b: nat, tail: seq<Cand>, q: seq<Cand>)
    requires b <= |cands| && q == cands[b..] + tail
    ensures |q| == |cands| - b + |tail| && forall m :: 0 <= m < |cands| - b ==> q[m] == cands[b + m]
  {
  }

  /** The block is where the queue begins. */
  lemma CutBlock(cands: seq<Cand>, b: nat, j: nat, tail: seq<Cand>, q: seq<Cand>, block: seq<Cand>)
    requires b + j <= |cands| && q == cands[b..] + tail && block == cands[b..b + j] && j > 0
    ensures cands[..b + j] == cands[..b] + block && q[0] == cands[b]
    ensures forall m :: 0 <= m < j ==> block[m] == q[m]
  {
  }

  lemma CutTail(cands: seq<Cand>, b: nat, j: nat, tail: seq<Cand>)
    requires b + j <= |cands|
    ensures cands[b..][j..] == cands[b + j..] && (cands[b..] + tail)[j..] == cands[b + j..] + tail
  {
  }

  lemma Nothing(step: Step, pkgs: Packages)
    ensures Tracks(step, pkgs, [], [], []) && Before([], 0, 0) && Covers(step, pkgs, [], [])
    ensures Chosen(step, pkgs, [], [])
  {
  }

  lemma BeforeMore(org: seq<Origin>, i: nat, j: nat)
    requires Before(org, i, 0) && i <= j
    ensures Before(org, j, 0)
  {
  }

  lemma BlockFacts(cands: seq<Cand>, b: nat, j: nat, block: seq<Cand>)
    requires SortedBy(IdxLe, cands) && DistinctPairs(cands) && 0 < j && b + j <= |cands| && block == cands[b..b + j]
    requires forall m :: 0 <= m < j ==> block[m].idx == cands[b].idx
    requires b + j < |cands| ==> cands[b + j].idx != cands[b].idx
    ensures b + j < |cands| ==> cands[b + j].idx > cands[b].idx
    ensures forall a, c :: 0 <= a < c < j ==> block[a].hx != block[c].hx
  {
    if b + j < |cands| { assert IdxLe(cands[b], cands[b + j]); }
    forall a, c | 0 <= a < c < j ensures block[a].hx != block[c].hx {
      assert block[a] == cands[b + a] && block[c] == cands[b + c];
    }
  }

  lemma FilledSame(fm: seq<nat>, q: seq<Cand>, block: seq<Cand>, j: nat)
    requires Filled(fm, q, j) && j <= |block| && forall m :: 0 <= m < j ==> q[m].hx == block[m].hx
    ensures Filled(fm, block, j)
  {
    forall i: nat | i < j ensures Stored(fm, block[i].hx, i) { assert Stored(fm, q[i].hx, i); }
  }
}
