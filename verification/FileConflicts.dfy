/** The comparing pass, and the whole search: exactly the conflicts that comparing every pair of files would find. */
module FileConflicts {
  import opened Common
  import opened Probe
  import opened HashTables
  import opened FileLists
  import opened ConflictPasses
  import opened Candidates
  import opened FileScan
  import opened FileExpand

  // ----- fourth pass -----

  /** Entries a and b of the sorted queue are files that conflict. */
  ghost predicate Match(q: seq<Cand>, fs: seq<Rec>, cutoff: nat, usecolors: bool, a: nat, b: nat) {
    && a < b < |q| && q[a].hx == q[b].hx && q[a].idx < cutoff && q[a].off < |fs| && q[b].off < |fs|
    && fs[q[a].off].path == fs[q[b].off].path
    && Clash(usecolors, fs[q[a].off].digest, fs[q[a].off].color, fs[q[b].off].digest, fs[q[b].off].color)
  }

  datatype Pair = Pair(a: nat, b: nat)

  ghost function Reported(q: seq<Cand>, fs: seq<Rec>, x: Pair): Conflict
    requires x.a < |q| && x.b < |q| && q[x.a].off < |fs| && q[x.b].off < |fs|
  {
    Conflict(fs[q[x.a].off].path, q[x.a].idx, fs[q[x.a].off].digest, q[x.b].idx, fs[q[x.b].off].digest)
  }

  /** `out` reports the pairs, which are the matching ones below (i, j), each once. */
  ghost predicate ReportedTo(q: seq<Cand>, fs: seq<Rec>, cutoff: nat, usecolors: bool, i: nat, j: nat,
      out: seq<Conflict>, pairs: seq<Pair>) {
    && |out| == |pairs|
    && (forall t ::
         0 <= t < |pairs| ==>
           Match(q, fs, cutoff, usecolors, pairs[t].a, pairs[t].b) && out[t] == Reported(q, fs, pairs[t]))
    && (forall t :: 0 <= t < |pairs| ==> pairs[t].a < i || (pairs[t].a == i && pairs[t].b < j))
    && (forall t, u :: 0 <= t < u < |pairs| ==> pairs[t] != pairs[u])
    && forall a: nat, b: nat ::
         Match(q, fs, cutoff, usecolors, a, b) && (a < i || (a == i && b < j)) ==> Pair(a, b) in pairs
  }

  lemma ReportedNext(q: seq<Cand>, fs: seq<Rec>, cutoff: nat, usecolors: bool, i: nat, j: nat, out: seq<Conflict>,
      pairs: seq<Pair>)
    requires ReportedTo(q, fs, cutoff, usecolors, i, j, out, pairs)
    ensures Match(q, fs, cutoff, usecolors, i, j) ==>
      ReportedTo(q, fs, cutoff, usecolors, i, j + 1, out + [Reported(q, fs, Pair(i, j))], pairs + [Pair(i, j)])
    ensures !Match(q, fs, cutoff, usecolors, i, j) ==> ReportedTo(q, fs, cutoff, usecolors, i, j + 1, out, pairs)
  {
    hide Match;
    assert forall x :: x in pairs + [Pair(i, j)] <==> x in pairs || x == Pair(i, j);
  }

  /** Nothing beyond the run of equal hashes matches i. */
  lemma RunEnds(q: seq<Cand>, fs: seq<Rec>, cutoff: nat, usecolors: bool, i: nat, j: nat, out: seq<Conflict>,
      pairs: seq<Pair>)
    requires SortedBy(HxLe, q) && i < |q| && ReportedTo(q, fs, cutoff, usecolors, i, j, out, pairs) && i < j <= |q|
    requires q[i].idx >= cutoff || j == |q| || q[j].hx != q[i].hx
    ensures ReportedTo(q, fs, cutoff, usecolors, i + 1, i + 2, out, pairs)
  {
    HxMono(q);
    assert j < |q| && q[i].idx < cutoff ==> q[i].hx < q[j].hx;
    forall a: nat, b: nat | Match(q, fs, cutoff, usecolors, a, b) && (a < i + 1 || (a == i + 1 && b < i + 2))
      ensures Pair(a, b) in pairs
    {
    }
  }

  method Compare(q: seq<Cand>, fs: seq<Rec>, cutoff: nat, usecolors: bool)
    returns (out: seq<Conflict>, ghost pairs: seq<Pair>)
    requires SortedBy(HxLe, q) && forall k :: 0 <= k < |q| ==> q[k].off < |fs|
    ensures ReportedTo(q, fs, cutoff, usecolors, |q|, |q| + 1, out, pairs)
  {
    hide SortedBy, ReportedTo;
    out, pairs := [], [];
    var i := 0;
    assert ReportedTo(q, fs, cutoff, usecolors, 0, 1, [], []) by { NoneReported(q, fs, cutoff, usecolors); }
    while i + 1 < |q|
      invariant i <= |q| && ReportedTo(q, fs, cutoff, usecolors, i, i + 1, out, pairs)
    {
      var hx, idxi, offi := q[i].hx, q[i].idx, q[i].off;
      var j := i + 1;
      if idxi < cutoff {
        while j < |q| && q[j].hx == hx
          invariant i < j <= |q| && ReportedTo(q, fs, cutoff, usecolors, i, j, out, pairs)
        {
          var offj := q[j].off;
          ReportedNext(q, fs, cutoff, usecolors, i, j, out, pairs);
          if fs[offi].path == fs[offj].path
            && Clash(usecolors, fs[offi].digest, fs[offi].color, fs[offj].digest, fs[offj].color) {
            out := out + [Conflict(fs[offi].path, idxi, fs[offi].digest, q[j].idx, fs[offj].digest)];
            pairs := pairs + [Pair(i, j)];
          }
          j := j + 1;
        }
      }
      RunEnds(q, fs, cutoff, usecolors, i, j, out, pairs);
      i := i + 1;
    }
    if i < |q| { RunEnds(q, fs, cutoff, usecolors, i, i + 1, out, pairs); }
  }

  lemma NoneReported(q: seq<Cand>, fs: seq<Rec>, cutoff: nat, usecolors: bool)
    ensures ReportedTo(q, fs, cutoff, usecolors, 0, 1, [], [])
  {
  }

  // ----- the whole search -----

  lemma {:induction false} CountOnce<T>(s: seq<T>, x: T)
    requires forall i, j :: 0 <= i < j < |s| ==> s[i] != s[j]
    ensures multiset(s)[x] <= 1
  {
    if s != [] {
      var r := s[..|s| - 1];
      CountOnce(r, x);
      assert s == r + [s[|s| - 1]];
      if x == s[|s| - 1] { assert x !in r; assert x !in multiset(r); }
    }
  }

  lemma CountTwice<T>(s: seq<T>, i: nat, j: nat)
    requires i < j < |s| && s[i] == s[j]
    ensures multiset(s)[s[i]] >= 2
  {
    assert s == s[..j] + [s[j]] + s[j + 1..];
    assert s[i] in s[..j];
    assert s[i] in multiset(s[..j]);
  }

  /** Reordering keeps entries distinct. */
  lemma DistinctPerm<T>(s: seq<T>, t: seq<T>)
    requires multiset(s) == multiset(t) && forall i, j :: 0 <= i < j < |s| ==> s[i] != s[j]
    ensures forall i, j :: 0 <= i < j < |t| ==> t[i] != t[j]
  {
    forall i: nat, j: nat | i < j < |t| ensures t[i] != t[j] {
      if t[i] == t[j] {
        CountOnce(s, t[i]);
        CountTwice(t, i, j);
      }
    }
  }

  /** Directories' digests do not differ. */
  ghost predicate DirsShareDigest(pkgs: Packages) {
    forall i: nat, p: nat, j: nat, q: nat ::
      Has(pkgs, i, p) && Has(pkgs, j, q) && pkgs[i].value.files[p].isdir && pkgs[j].value.files[q].isdir ==>
      Digest32(pkgs[i].value.files[p].digest) == Digest32(pkgs[j].value.files[q].digest)
  }

  ghost predicate WellFormed(pkgs: Packages) {
    forall i: nat :: i < |pkgs| && pkgs[i].Some? ==> SplitAtSlash(pkgs[i].value) && PathsOnce(pkgs[i].value)
  }

  ghost predicate IsDir(pkgs: Packages, i: nat, p: nat)
    requires Has(pkgs, i, p)
  {
    pkgs[i].value.files[p].isdir
  }

  /** Two files with the same path have the same hash in both passes. */
  lemma SameKeys(step: Step, pkgs: Packages, i: nat, p: nat, j: nat, q: nat)
    requires WellFormed(pkgs) && Has(pkgs, i, p) && Has(pkgs, j, q) && Path(pkgs[i].value, p) == Path(pkgs[j].value, q)
    ensures Dir(pkgs[i].value, p) == Dir(pkgs[j].value, q)
    ensures KeyOf(step, pkgs[i].value, p) == KeyOf(step, pkgs[j].value, q)
  {
    hide FileKey;
    PathSplit(Dir(pkgs[i].value, p), pkgs[i].value.files[p].base, Dir(pkgs[j].value, q), pkgs[j].value.files[q].base);
  }

  /** The first pass lets both files through to the second. */
  lemma FirstPassKeeps(step: Step, pkgs: Packages, cutoff: nat, i: nat, p: nat, j: nat, q: nat, s: DirState)
    requires WellFormed(pkgs) && Has(pkgs, i, p) && Has(pkgs, j, q) && Path(pkgs[i].value, p) == Path(pkgs[j].value, q)
    requires i < j && i < cutoff
    requires s == DirRun(DirEvents(step, pkgs, |pkgs|), cutoff)
    ensures i in s.involved && j in s.involved && Scanned(step, s.table, pkgs[i].value, p)
    ensures Scanned(step, s.table, pkgs[j].value, q)
  {
    hide FileKey, DirKey, DirRun, DirEvents, Path;
    SameKeys(step, pkgs, i, p, j, q);
    var d := Dir(pkgs[i].value, p);
    var evs, key := DirEvents(step, pkgs, |pkgs|), DirKey(step, d);
    DirEventIn(step, pkgs, |pkgs|, i, d);
    DirEventIn(step, pkgs, |pkgs|, j, d);
    DirEventsAscend(step, pkgs, |pkgs|);
    DirRunMeaning(evs, cutoff, key);
    assert DirEvent(i, key) in evs && DirEvent(j, key) in evs;
    assert InNew(evs, cutoff, key) && InTwo(evs, key);
  }

  /** A directory hash that a package below the cutoff and another package have. */
  ghost predicate SharedDir(step: Step, pkgs: Packages, cutoff: nat, key: nat) {
    && (exists i: nat :: i < cutoff && DirIn(step, pkgs, i, key))
    && exists i: nat, j: nat :: i != j && DirIn(step, pkgs, i, key) && DirIn(step, pkgs, j, key)
  }

  /** Some package has a file with this path hash in a shared directory, and it is no directory. */
  ghost predicate RealFile(step: Step, pkgs: Packages, cutoff: nat, key: nat) {
    exists x: nat, k: nat :: RealFileAt(step, pkgs, cutoff, key, x, k)
  }

  ghost predicate RealFileAt(step: Step, pkgs: Packages, cutoff: nat, key: nat, x: nat, k: nat) {
    && Has(pkgs, x, k) && !IsDir(pkgs, x, k) && KeyOf(step, pkgs[x].value, k) == key
    && SharedDir(step, pkgs, cutoff, DirKey(step, Dir(pkgs[x].value, k)))
  }

  lemma DirEventIff(step: Step, pkgs: Packages, i: nat, key: nat)
    ensures DirEvent(i, key) in DirEvents(step, pkgs, |pkgs|) <==> DirIn(step, pkgs, i, key)
  {
    hide DirKey, DirEvents;
    if DirEvent(i, key) in DirEvents(step, pkgs, |pkgs|) { DirEventFrom(step, pkgs, |pkgs|, DirEvent(i, key)); }
    if DirIn(step, pkgs, i, key) {
      var d :| d in pkgs[i].value.dirs && DirKey(step, d) == key;
      DirEventIn(step, pkgs, |pkgs|, i, d);
    }
  }

  /** The first pass marks the shared directories, and involves the packages that have them. */
  lemma MarkedIsShared(step: Step, pkgs: Packages, cutoff: nat, key: nat, s: DirState)
    requires s == DirRun(DirEvents(step, pkgs, |pkgs|), cutoff)
    ensures Marked(s.table, key) <==> SharedDir(step, pkgs, cutoff, key)
    ensures Marked(s.table, key) ==> forall i: nat :: DirIn(step, pkgs, i, key) ==> i in s.involved
  {
    hide DirKey, DirRun, DirEvents, DirIn;
    var evs := DirEvents(step, pkgs, |pkgs|);
    DirEventsAscend(step, pkgs, |pkgs|);
    DirRunMeaning(evs, cutoff, key);
    forall i: nat ensures DirEvent(i, key) in evs <==> DirIn(step, pkgs, i, key) {
      DirEventIff(step, pkgs, i, key);
    }
    forall i: nat | Marked(s.table, key) && DirIn(step, pkgs, i, key) ensures i in s.involved {
      assert DirEvent(i, key) in evs;
    }
  }

  /** The second pass sees a file that is no directory iff there is one in a shared directory. */
  lemma FileSeenIff(step: Step, pkgs: Packages, cutoff: nat, key: nat, s: DirState)
    requires s == DirRun(DirEvents(step, pkgs, |pkgs|), cutoff)
    ensures FileSeen(FileEvents(step, pkgs, s.table, s.involved, |pkgs|), key) <==> RealFile(step, pkgs, cutoff, key)
  {
    hide FileKey, DirKey, DirRun, DirEvents, FileEvents, SharedDir, Marked, DirIn;
    var evs := FileEvents(step, pkgs, s.table, s.involved, |pkgs|);
    if FileSeen(evs, key) {
      var x: nat :| FileEvent(x, key, false) in evs;
      var k := FileEventFrom(step, pkgs, s.table, s.involved, |pkgs|, FileEvent(x, key, false));
      MarkedIsShared(step, pkgs, cutoff, DirKey(step, Dir(pkgs[x].value, k)), s);
      assert RealFileAt(step, pkgs, cutoff, key, x, k);
    }
    if RealFile(step, pkgs, cutoff, key) {
      var x: nat, k: nat :| RealFileAt(step, pkgs, cutoff, key, x, k);
      MarkedIsShared(step, pkgs, cutoff, DirKey(step, Dir(pkgs[x].value, k)), s);
      OwnDir(step, pkgs, x, k);
      FileEventIn(step, pkgs, s.table, s.involved, |pkgs|, x, k);
      assert FileEvent(x, key, false) in evs;
    }
  }

  lemma OwnDir(step: Step, pkgs: Packages, x: nat, k: nat)
    requires Has(pkgs, x, k)
    ensures DirIn(step, pkgs, x, DirKey(step, Dir(pkgs[x].value, k)))
  {
    hide DirKey;
  }

  /** A file that conflicts by its path and is no directory is such a file itself. */
  lemma RealFileSelf(step: Step, pkgs: Packages, cutoff: nat, i: nat, p: nat, j: nat, q: nat)
    requires WellFormed(pkgs) && Has(pkgs, i, p) && Has(pkgs, j, q) && Path(pkgs[i].value, p) == Path(pkgs[j].value, q)
    requires i < j && i < cutoff && !(IsDir(pkgs, i, p) && IsDir(pkgs, j, q))
    ensures RealFile(step, pkgs, cutoff, KeyOf(step, pkgs[i].value, p))
  {
    hide FileKey, DirKey, Path, DirIn;
    SameKeys(step, pkgs, i, p, j, q);
    OwnDir(step, pkgs, i, p);
    OwnDir(step, pkgs, j, q);
    var key := KeyOf(step, pkgs[i].value, p);
    if IsDir(pkgs, i, p) {
      assert RealFileAt(step, pkgs, cutoff, key, j, q);
    } else {
      assert RealFileAt(step, pkgs, cutoff, key, i, p);
    }
  }

  /** The second pass makes both files' packages candidates. */
  lemma SecondPassKeeps(step: Step, pkgs: Packages, cutoff: nat, i: nat, p: nat, j: nat, q: nat, s: DirState,
      lookat: seq<Hit>)
    requires WellFormed(pkgs) && Has(pkgs, i, p) && Has(pkgs, j, q) && Path(pkgs[i].value, p) == Path(pkgs[j].value, q)
    requires i < j && i < cutoff
    requires s == DirRun(DirEvents(step, pkgs, |pkgs|), cutoff)
    requires RealFile(step, pkgs, cutoff, KeyOf(step, pkgs[i].value, p))
    requires lookat == FileRun(FileEvents(step, pkgs, s.table, s.involved, |pkgs|), cutoff).lookat
    ensures Hit(KeyOf(step, pkgs[i].value, p), i) in lookat && Hit(KeyOf(step, pkgs[i].value, p), j) in lookat
  {
    hide FileKey, DirKey, DirRun, DirEvents, FileRun, FileEvents, Path, Scanned, RealFile, FileSeen;
    FileSeenIff(step, pkgs, cutoff, KeyOf(step, pkgs[i].value, p), s);
    FirstPassKeeps(step, pkgs, cutoff, i, p, j, q, s);
    SameKeys(step, pkgs, i, p, j, q);
    FileEventIn(step, pkgs, s.table, s.involved, |pkgs|, i, p);
    FileEventIn(step, pkgs, s.table, s.involved, |pkgs|, j, q);
    FileEventsAscend(step, pkgs, s.table, s.involved, |pkgs|);
    CandidatesComplete(FileEvents(step, pkgs, s.table, s.involved, |pkgs|), cutoff, i, j,
                       KeyOf(step, pkgs[i].value, p));
  }

  /** The compared queue is an ordering of the expanded one. */
  ghost predicate Ordered(step: Step, pkgs: Packages, tail: seq<Cand>, fs: seq<Rec>, org: seq<Origin>, r: seq<Cand>) {
    && Tracks(step, pkgs, tail, fs, org) && SortedBy(HxLe, r)
    && (forall c :: c in r <==> c in tail) && forall a, b :: 0 <= a < b < |r| ==> r[a] != r[b]
  }

  lemma EntryOf(step: Step, pkgs: Packages, tail: seq<Cand>, fs: seq<Rec>, org: seq<Origin>, r: seq<Cand>, i: nat,
                p: nat)
    returns (a: nat)
    requires Ordered(step, pkgs, tail, fs, org, r) && Origin(i, p) in org
    ensures Has(pkgs, i, p) && a < |r| && r[a].idx == i && r[a].hx == KeyOf(step, pkgs[i].value, p)
    ensures r[a].off < |fs| && fs[r[a].off] == RecOf(pkgs[i].value, p)
  {
    hide KeyOf, RecOf, SortedBy;
    var o: nat :| o < |org| && org[o] == Origin(i, p);
    assert Tracked(step, pkgs, tail[o], fs[o], org[o], o);
    assert tail[o] in r;
    a :| a < |r| && r[a] == tail[o];
  }

  lemma OriginOf(step: Step, pkgs: Packages, tail: seq<Cand>, fs: seq<Rec>, org: seq<Origin>, r: seq<Cand>, a: nat)
    returns (i: nat, p: nat)
    requires Ordered(step, pkgs, tail, fs, org, r) && a < |r|
    ensures Has(pkgs, i, p) && r[a].idx == i && r[a].off < |fs| && fs[r[a].off] == RecOf(pkgs[i].value, p)
    ensures |org| == |fs| == |tail| && org[r[a].off] == Origin(i, p) && tail[r[a].off] == r[a]
  {
    hide KeyOf, RecOf, SortedBy;
    assert r[a] in tail;
    var o: nat :| o < |tail| && tail[o] == r[a];
    assert Tracked(step, pkgs, tail[o], fs[o], org[o], o);
    i, p := org[o].idx, org[o].file;
  }

  /** A conflict between two expanded files is reported. */
  lemma NaiveReported(step: Step, pkgs: Packages, tail: seq<Cand>, fs: seq<Rec>, org: seq<Origin>, r: seq<Cand>,
      cutoff: nat, usecolors: bool,
                      out: seq<Conflict>, pairs: seq<Pair>, i: nat, p: nat, j: nat, q: nat)
    requires Ordered(step, pkgs, tail, fs, org, r) && ReportedTo(r, fs, cutoff, usecolors, |r|, |r| + 1, out, pairs)
    requires WellFormed(pkgs) && Naive(pkgs, cutoff, usecolors, i, p, j, q) && Origin(i, p) in org
    requires Origin(j, q) in org
    ensures Report(pkgs, i, p, j, q) in out
  {
    hide KeyOf, Clash, Digest32, SortedBy, Tracks;
    var a := EntryOf(step, pkgs, tail, fs, org, r, i, p);
    var b := EntryOf(step, pkgs, tail, fs, org, r, j, q);
    SameKeys(step, pkgs, i, p, j, q);
    assert a < b by { OrderByIdx(r, a, b); }
    assert Match(r, fs, cutoff, usecolors, a, b);
    var t :| 0 <= t < |pairs| && pairs[t] == Pair(a, b);
    assert out[t] == Report(pkgs, i, p, j, q);
  }

  lemma OrderByIdx(r: seq<Cand>, a: nat, b: nat)
    requires SortedBy(HxLe, r) && a < |r| && b < |r| && r[a].hx == r[b].hx && r[a].idx < r[b].idx
    ensures a < b
  {
    if b < a { LeAt(r, b, a); }
  }

  lemma LeAt(r: seq<Cand>, a: nat, b: nat)
    requires SortedBy(HxLe, r) && a < b < |r|
    ensures HxLe(r[a], r[b])
  {
  }

  /** A matching pair is a conflict between files of two packages. */
  lemma MatchNaive(step: Step, pkgs: Packages, tail: seq<Cand>, fs: seq<Rec>, org: seq<Origin>, r: seq<Cand>,
      cutoff: nat, usecolors: bool, x: Pair)
    returns (i: nat, p: nat, j: nat, q: nat)
    requires Ordered(step, pkgs, tail, fs, org, r) && WellFormed(pkgs) && Match(r, fs, cutoff, usecolors, x.a, x.b)
    ensures Naive(pkgs, cutoff, usecolors, i, p, j, q) && Reported(r, fs, x) == Report(pkgs, i, p, j, q)
    ensures org[r[x.a].off] == Origin(i, p) && org[r[x.b].off] == Origin(j, q) && |org| == |fs|
    ensures |tail| == |fs| && tail[r[x.a].off] == r[x.a] && tail[r[x.b].off] == r[x.b]
  {
    hide KeyOf, Clash, Digest32, Path;
    i, p := OriginOf(step, pkgs, tail, fs, org, r, x.a);
    j, q := OriginOf(step, pkgs, tail, fs, org, r, x.b);
    LeAt(r, x.a, x.b);
    if i == j {
      SameFile(pkgs, i, p, q);
      SameEntries(step, pkgs, tail, fs, org, r, Pair(x.a, x.a), Pair(x.b, x.b));
    }
  }

  /** No conflict is reported twice. */
  lemma ReportedOnce(step: Step, pkgs: Packages, tail: seq<Cand>, fs: seq<Rec>, org: seq<Origin>, r: seq<Cand>,
      cutoff: nat, usecolors: bool,
                     out: seq<Conflict>, pairs: seq<Pair>)
    requires Ordered(step, pkgs, tail, fs, org, r) && ReportedTo(r, fs, cutoff, usecolors, |r|, |r| + 1, out, pairs)
    requires WellFormed(pkgs)
    ensures forall t, u :: 0 <= t < u < |out| ==> out[t] != out[u]
  {
    hide Ordered, Clash, KeyOf, Path;
    forall t, u | 0 <= t < u < |out| ensures out[t] != out[u] {
      var i, p, j, q := MatchNaive(step, pkgs, tail, fs, org, r, cutoff, usecolors, pairs[t]);
      var i', p', j', q' := MatchNaive(step, pkgs, tail, fs, org, r, cutoff, usecolors, pairs[u]);
      if out[t] == out[u] {
        SameFile(pkgs, i, p, p');
        SameFile(pkgs, j, q, q');
        SameEntries(step, pkgs, tail, fs, org, r, pairs[t], pairs[u]);
      }
    }
  }

  lemma SameFile(pkgs: Packages, i: nat, p: nat, p': nat)
    requires WellFormed(pkgs) && Has(pkgs, i, p) && Has(pkgs, i, p')
    requires Path(pkgs[i].value, p) == Path(pkgs[i].value, p')
    ensures p == p'
  {
    hide Path;
    assert PathsOnce(pkgs[i].value);
  }

  lemma SameEntries(step: Step, pkgs: Packages, tail: seq<Cand>, fs: seq<Rec>, org: seq<Origin>, r: seq<Cand>,
      x: Pair, y: Pair)
    requires Ordered(step, pkgs, tail, fs, org, r) && |org| == |fs| == |tail|
    requires x.a < |r| && x.b < |r| && y.a < |r| && y.b < |r|
    requires r[x.a].off < |org| && r[x.b].off < |org| && r[y.a].off < |org| && r[y.b].off < |org|
    requires org[r[x.a].off] == org[r[y.a].off] && org[r[x.b].off] == org[r[y.b].off]
    requires tail[r[x.a].off] == r[x.a] && tail[r[x.b].off] == r[x.b] && tail[r[y.a].off] == r[y.a]
    requires tail[r[y.b].off] == r[y.b]
    ensures x == y
  {
    hide Tracked, SortedBy;
    assert r[x.a].off == r[y.a].off && r[x.b].off == r[y.b].off;
    assert x.a == y.a && x.b == y.b;
  }

  ghost function CutoffOf(pkgs: Packages, cutoff: int): nat {
    if cutoff <= 0 then |pkgs| else cutoff
  }

  /** The candidates of the second pass, as queue entries. */
  function Entries(hits: seq<Hit>): (r: seq<Cand>)
    ensures |r| == |hits| && forall k :: 0 <= k < |r| ==> r[k] == Cand(hits[k].key, hits[k].idx, 0)
  {
    seq(|hits|, k requires 0 <= k < |hits| => Cand(hits[k].key, hits[k].idx, 0))
  }

  lemma EntriesHas(hits: seq<Hit>, s: seq<Cand>, h: Hit)
    requires (forall c :: c in s <==> c in Entries(hits)) && h in hits
    ensures HasCand(s, h.key, h.idx)
  {
    var k :| 0 <= k < |hits| && hits[k] == h;
    assert Entries(hits)[k] in s;
  }

  lemma EntriesFrom(hits: seq<Hit>, s: seq<Cand>, hx: nat, idx: nat)
    requires (forall c :: c in s <==> c in Entries(hits)) && HasCand(s, hx, idx)
    ensures Hit(hx, idx) in hits
  {
    var k :| 0 <= k < |s| && s[k].hx == hx && s[k].idx == idx;
    assert s[k] in Entries(hits);
  }

  lemma PairsDistinct(p: seq<Cand>, q: seq<Cand>)
    requires StrictHx(p) && multiset(q) == multiset(p) && (forall c :: c in p ==> c.off == 0)
    requires forall c :: c in q <==> c in p
    ensures DistinctPairs(q)
  {
    DistinctPerm(p, q);
    forall a, b | 0 <= a < b < |q| ensures q[a].hx != q[b].hx || q[a].idx != q[b].idx {
      assert q[a] in p && q[b] in p;
    }
  }

  lemma TailDistinct(step: Step, pkgs: Packages, tail: seq<Cand>, fs: seq<Rec>, org: seq<Origin>)
    requires Tracks(step, pkgs, tail, fs, org)
    ensures forall a, b :: 0 <= a < b < |tail| ==> tail[a] != tail[b]
  {
    hide KeyOf, RecOf;
    forall a, b | 0 <= a < b < |tail| ensures tail[a] != tail[b] {
      assert Tracked(step, pkgs, tail[a], fs[a], org[a], a) && Tracked(step, pkgs, tail[b], fs[b], org[b], b);
    }
  }

  /** Only files of candidates are compared: what is reported comes from candidates on both sides. */
  lemma ReportedFrom(step: Step, pkgs: Packages, cands: seq<Cand>, tail: seq<Cand>, fs: seq<Rec>, org: seq<Origin>,
                     r: seq<Cand>, cutoff: nat, usecolors: bool, out: seq<Conflict>, pairs: seq<Pair>,
                     i: nat, p: nat, j: nat, q: nat)
    requires Ordered(step, pkgs, tail, fs, org, r) && ReportedTo(r, fs, cutoff, usecolors, |r|, |r| + 1, out, pairs)
    requires WellFormed(pkgs) && Chosen(step, pkgs, cands, org)
    requires Naive(pkgs, cutoff, usecolors, i, p, j, q) && Report(pkgs, i, p, j, q) in out
    ensures HasCand(cands, KeyOf(step, pkgs[i].value, p), i) && HasCand(cands, KeyOf(step, pkgs[j].value, q), j)
  {
    hide Ordered, KeyOf, Clash, Path, HasCand, Digest32;
    var t :| 0 <= t < |out| && out[t] == Report(pkgs, i, p, j, q);
    var i', p', j', q' := MatchNaive(step, pkgs, tail, fs, org, r, cutoff, usecolors, pairs[t]);
    SameFile(pkgs, i, p, p');
    SameFile(pkgs, j, q, q');
    OffsOk(step, pkgs, tail, fs, org, r);
  }

  lemma HxTotal()
    ensures TotalOrder(HxLe) && TotalOrder(IdxLe)
  {
  }

  /** Every entry is a conflict that comparing all pairs finds, and none occurs twice. */
  ghost predicate AllNaive(pkgs: Packages, cutoff: nat, usecolors: bool, out: seq<Conflict>) {
    && (forall t, u :: 0 <= t < u < |out| ==> out[t] != out[u])
    && forall c :: c in out ==>
         exists i: nat, p: nat, j: nat, q: nat ::
           Naive(pkgs, cutoff, usecolors, i, p, j, q) && c == Report(pkgs, i, p, j, q)
  }

  /** Sort and prune the candidates, and sort them by package. */
  method Narrow(hits: seq<Hit>, cutoff: nat) returns (cands: seq<Cand>)
    ensures SortedBy(IdxLe, cands) && DistinctPairs(cands)
    ensures forall m :: 0 <= m < |cands| ==> Hit(cands[m].hx, cands[m].idx) in hits
    ensures forall key: nat, i: nat, j: nat :: Hit(key, i) in hits && Hit(key, j) in hits && i != j && i < cutoff ==>
      HasCand(cands, key, i) && HasCand(cands, key, j)
  {
    hide SortedBy, HxLe, IdxLe, TotalOrder, StrictHx, Keep, HasCand, DistinctPairs, Sort;
    HxTotal();
    var e := Entries(hits);
    SortOk(HxLe, e);
    ghost var s := Sort(HxLe, e);
    var lookat := new Cand[|e|](k requires 0 <= k < |e| => Sort(HxLe, e)[k]);
    assert lookat[..] == s;
    var n := Prune(lookat, cutoff);
    var pruned := lookat[..n];
    SortOk(IdxLe, pruned);
    cands := Sort(IdxLe, pruned);
    PairsDistinct(pruned, cands);
    forall m | 0 <= m < |cands| ensures Hit(cands[m].hx, cands[m].idx) in hits {
      assert cands[m] in pruned;
      KeepHas(s, cutoff, cands[m].hx, cands[m].idx);
      EntriesFrom(hits, s, cands[m].hx, cands[m].idx);
    }
    forall key: nat, i: nat, j: nat | Hit(key, i) in hits && Hit(key, j) in hits && i != j && i < cutoff
      ensures HasCand(cands, key, i) && HasCand(cands, key, j)
    {
      EntriesHas(hits, s, Hit(key, i));
      EntriesHas(hits, s, Hit(key, j));
      KeepBoth(s, cutoff, key, i, j);
      assert Cand(key, i, 0) in cands && Cand(key, j, 0) in cands;
      CandIn(cands, key, i);
      CandIn(cands, key, j);
    }
  }

  lemma KeepHas(s: seq<Cand>, cutoff: nat, hx: nat, idx: nat)
    requires Keep(s, cutoff, hx, idx)
    ensures HasCand(s, hx, idx)
  {
  }

  lemma KeepBoth(s: seq<Cand>, cutoff: nat, hx: nat, i: nat, j: nat)
    requires HasCand(s, hx, i) && HasCand(s, hx, j) && i != j && i < cutoff
    ensures Keep(s, cutoff, hx, i) && Keep(s, cutoff, hx, j)
  {
    hide HasCand;
  }

  lemma CandIn(q: seq<Cand>, hx: nat, idx: nat)
    requires Cand(hx, idx, 0) in q
    ensures HasCand(q, hx, idx)
  {
    var k :| 0 <= k < |q| && q[k] == Cand(hx, idx, 0);
  }

  /** Expand the candidates to files and compare those. */
  method Judge(step: Step, pkgs: Packages, cands: seq<Cand>, cutoff: nat, usecolors: bool) returns (out: seq<Conflict>)
    requires WellFormed(pkgs) && SortedBy(IdxLe, cands) && DistinctPairs(cands)
    requires forall m :: 0 <= m < |cands| ==> cands[m].idx < |pkgs|
    ensures AllNaive(pkgs, cutoff, usecolors, out)
    ensures forall i: nat, p: nat, j: nat, q: nat ::
      (Naive(pkgs, cutoff, usecolors, i, p, j, q) &&
       HasCand(cands, KeyOf(step, pkgs[i].value, p), i) && HasCand(cands, KeyOf(step, pkgs[j].value, q), j)) ==>
        Report(pkgs, i, p, j, q) in out
    ensures forall i: nat, p: nat, j: nat, q: nat ::
      Naive(pkgs, cutoff, usecolors, i, p, j, q) && Report(pkgs, i, p, j, q) in out ==>
        HasCand(cands, KeyOf(step, pkgs[i].value, p), i)
  {
    hide SortedBy, HxLe, IdxLe, TotalOrder, HasCand, DistinctPairs, Sort, KeyOf, Path, Tracks, Covers, ReportedTo,
         Ordered, Clash;
    var tail, fs;
    ghost var org;
    tail, fs, org := Expand(step, pkgs, cands);
    HxTotal();
    SortOk(HxLe, tail);
    var r := Sort(HxLe, tail);
    TailDistinct(step, pkgs, tail, fs, org);
    DistinctPerm(tail, r);
    assert Ordered(step, pkgs, tail, fs, org, r) by { OrderedIntro(step, pkgs, tail, fs, org, r); }
    OffsOk(step, pkgs, tail, fs, org, r);
    ghost var pairs;
    out, pairs := Compare(r, fs, cutoff, usecolors);
    Verdict(step, pkgs, tail, fs, org, r, cutoff, usecolors, out, pairs);
    forall i: nat, p: nat, j: nat, q: nat | Naive(pkgs, cutoff, usecolors, i, p, j, q) &&
      HasCand(cands, KeyOf(step, pkgs[i].value, p), i) && HasCand(cands, KeyOf(step, pkgs[j].value, q), j)
      ensures Report(pkgs, i, p, j, q) in out
    {
      CoversBoth(step, pkgs, cands, org, i, p);
      CoversBoth(step, pkgs, cands, org, j, q);
      NaiveReported(step, pkgs, tail, fs, org, r, cutoff, usecolors, out, pairs, i, p, j, q);
    }
    forall i: nat, p: nat, j: nat, q: nat |
      Naive(pkgs, cutoff, usecolors, i, p, j, q) && Report(pkgs, i, p, j, q) in out
      ensures HasCand(cands, KeyOf(step, pkgs[i].value, p), i)
    {
      ReportedFrom(step, pkgs, cands, tail, fs, org, r, cutoff, usecolors, out, pairs, i, p, j, q);
    }
  }

  lemma OrderedIntro(step: Step, pkgs: Packages, tail: seq<Cand>, fs: seq<Rec>, org: seq<Origin>, r: seq<Cand>)
    requires Tracks(step, pkgs, tail, fs, org) && SortedBy(HxLe, r)
    requires (forall c :: c in r <==> c in tail) && forall a, b :: 0 <= a < b < |r| ==> r[a] != r[b]
    ensures Ordered(step, pkgs, tail, fs, org, r)
  {
  }

  lemma OffsOk(step: Step, pkgs: Packages, tail: seq<Cand>, fs: seq<Rec>, org: seq<Origin>, r: seq<Cand>)
    requires Ordered(step, pkgs, tail, fs, org, r)
    ensures forall k :: 0 <= k < |r| ==> r[k].off < |fs|
  {
    hide Ordered, RecOf, KeyOf;
    forall k | 0 <= k < |r| ensures r[k].off < |fs| {
      var i, p := OriginOf(step, pkgs, tail, fs, org, r, k);
    }
  }

  lemma CoversBoth(step: Step, pkgs: Packages, cands: seq<Cand>, org: seq<Origin>, i: nat, p: nat)
    requires Covers(step, pkgs, cands, org) && Has(pkgs, i, p) && HasCand(cands, KeyOf(step, pkgs[i].value, p), i)
    ensures Origin(i, p) in org
  {
  }

  lemma Verdict(step: Step, pkgs: Packages, tail: seq<Cand>, fs: seq<Rec>, org: seq<Origin>, r: seq<Cand>,
      cutoff: nat, usecolors: bool,
                out: seq<Conflict>, pairs: seq<Pair>)
    requires Ordered(step, pkgs, tail, fs, org, r) && ReportedTo(r, fs, cutoff, usecolors, |r|, |r| + 1, out, pairs)
    requires WellFormed(pkgs)
    ensures AllNaive(pkgs, cutoff, usecolors, out)
  {
    hide Ordered, Clash, KeyOf, Path;
    ReportedOnce(step, pkgs, tail, fs, org, r, cutoff, usecolors, out, pairs);
    forall c | c in out
      ensures exists i: nat, p: nat, j: nat, q: nat ::
        Naive(pkgs, cutoff, usecolors, i, p, j, q) && c == Report(pkgs, i, p, j, q)
    {
      var t :| 0 <= t < |out| && out[t] == c;
      var i, p, j, q := MatchNaive(step, pkgs, tail, fs, org, r, cutoff, usecolors, pairs[t]);
    }
  }

  /** Search the packages for file conflicts with at least one package below the cutoff. None: too many packages for
      the hashes. */
  method FindFileConflicts(step: Step, pkgs: Packages, cutoff0: int, usecolors: bool) returns (r: Option<seq<Conflict>>)
    requires WellFormed(pkgs)
    ensures r.None? <==> CutoffOf(pkgs, cutoff0) >= 0x4000000
    ensures r.Some? ==> AllNaive(pkgs, CutoffOf(pkgs, cutoff0), usecolors, r.value)
    ensures r.Some? ==> forall i: nat, p: nat, j: nat, q: nat ::
      Naive(pkgs, CutoffOf(pkgs, cutoff0), usecolors, i, p, j, q) ==>
        (Report(pkgs, i, p, j, q) in r.value <==>
          RealFile(step, pkgs, CutoffOf(pkgs, cutoff0), KeyOf(step, pkgs[i].value, p)))
    ensures r.Some? ==> forall i: nat, p: nat, j: nat, q: nat ::
      Naive(pkgs, CutoffOf(pkgs, cutoff0), usecolors, i, p, j, q) && !(IsDir(pkgs, i, p) && IsDir(pkgs, j, q)) ==>
        Report(pkgs, i, p, j, q) in r.value
  {
    hide DirRun, DirEvents, FileRun, FileEvents, KeyOf, Path, Clash, SortedBy, DistinctPairs, HasCand, AllNaive,
         WellFormed, HashTable.Valid, RealFile, FileSeen;
    var cutoff := if cutoff0 <= 0 then |pkgs| else cutoff0;
    if cutoff >= 0x4000000 {
      return None;
    }
    var dirmap, involved := FindDirs(step, pkgs, cutoff);
    var hits := FindFiles(step, pkgs, cutoff, dirmap, involved);
    ghost var s := DirState(dirmap.content, involved);
    var cands := Narrow(hits, cutoff);
    HitsInRange(step, pkgs, cutoff, s.table, s.involved, hits);
    var out := Judge(step, pkgs, cands, cutoff, usecolors);
    forall i: nat, p: nat, j: nat, q: nat | Naive(pkgs, cutoff, usecolors, i, p, j, q)
      ensures Report(pkgs, i, p, j, q) in out <==> RealFile(step, pkgs, cutoff, KeyOf(step, pkgs[i].value, p))
      ensures !(IsDir(pkgs, i, p) && IsDir(pkgs, j, q)) ==> Report(pkgs, i, p, j, q) in out
    {
      SameKeys(step, pkgs, i, p, j, q);
      var key := KeyOf(step, pkgs[i].value, p);
      if RealFile(step, pkgs, cutoff, key) { SecondPassKeeps(step, pkgs, cutoff, i, p, j, q, s, hits); }
      if !(IsDir(pkgs, i, p) && IsDir(pkgs, j, q)) { RealFileSelf(step, pkgs, cutoff, i, p, j, q); }
      if HasCand(cands, key, i) { CandHit(step, pkgs, cutoff, s, hits, cands, key, i); }
    }
    return Some(out);
  }

  lemma CandHit(step: Step, pkgs: Packages, cutoff: nat, s: DirState, hits: seq<Hit>, cands: seq<Cand>, key: nat,
                i: nat)
    requires s == DirRun(DirEvents(step, pkgs, |pkgs|), cutoff)
    requires hits == FileRun(FileEvents(step, pkgs, s.table, s.involved, |pkgs|), cutoff).lookat
    requires forall m :: 0 <= m < |cands| ==> Hit(cands[m].hx, cands[m].idx) in hits
    requires HasCand(cands, key, i)
    ensures RealFile(step, pkgs, cutoff, key)
  {
    hide FileRun, FileEvents, DirRun, DirEvents, RealFile, FileSeen;
    FileEventsAscend(step, pkgs, s.table, s.involved, |pkgs|);
    FileSeenIff(step, pkgs, cutoff, key, s);
    var m :| 0 <= m < |cands| && cands[m].hx == key && cands[m].idx == i;
    CandidatesSound(FileEvents(step, pkgs, s.table, s.involved, |pkgs|), cutoff, Hit(key, i));
  }

  lemma HitsInRange(step: Step, pkgs: Packages, cutoff: nat, table: map<nat, int>, involved: set<nat>, hits: seq<Hit>)
    requires hits == FileRun(FileEvents(step, pkgs, table, involved, |pkgs|), cutoff).lookat
    ensures forall h :: h in hits ==> h.idx < |pkgs|
  {
    hide FileRun, FileEvents;
    FileEventsAscend(step, pkgs, table, involved, |pkgs|);
    forall h | h in hits ensures h.idx < |pkgs| {
      CandidatesSound(FileEvents(step, pkgs, table, involved, |pkgs|), cutoff, h);
    }
  }

  /** When directories' digests never differ, the report is exactly the naive one. */
  lemma ExactlyNaive(pkgs: Packages, cutoff: nat, usecolors: bool, out: seq<Conflict>)
    requires DirsShareDigest(pkgs) && AllNaive(pkgs, cutoff, usecolors, out)
    requires forall i: nat, p: nat, j: nat, q: nat ::
      Naive(pkgs, cutoff, usecolors, i, p, j, q) && !(IsDir(pkgs, i, p) && IsDir(pkgs, j, q)) ==>
        Report(pkgs, i, p, j, q) in out
    ensures forall c :: c in out <==>
      exists i: nat, p: nat, j: nat, q: nat ::
        Naive(pkgs, cutoff, usecolors, i, p, j, q) && c == Report(pkgs, i, p, j, q)
  {
    hide Path, Digest32;
    forall i: nat, p: nat, j: nat, q: nat | Naive(pkgs, cutoff, usecolors, i, p, j, q)
      ensures Report(pkgs, i, p, j, q) in out
    {
      assert !(IsDir(pkgs, i, p) && IsDir(pkgs, j, q));
    }
  }
}
