/** The first two passes over the packages, on their hash tables. */
module FileScan {
  import opened Common
  import opened Probe
  import opened HashTables
  import opened FileLists
  import opened ConflictPasses

  // ----- first pass -----

  function DirEventsOf(step: Step, i: nat, dirs: seq<string>): seq<DirEvent> {
    if dirs == [] then [] else DirEventsOf(step, i, dirs[..|dirs| - 1]) + [DirEvent(i, DirKey(step, dirs[|dirs| - 1]))]
  }

  /** All directories of the first n packages, in order. */
  function DirEvents(step: Step, pkgs: Packages, n: nat): seq<DirEvent>
    requires n <= |pkgs|
  {
    if n == 0 then []
    else DirEvents(step, pkgs, n - 1) +
         if pkgs[n - 1].None? then [] else DirEventsOf(step, n - 1, pkgs[n - 1].value.dirs)
  }

  lemma {:induction false} DirEventsOfMembers(step: Step, i: nat, dirs: seq<string>)
    ensures forall ev :: ev in DirEventsOf(step, i, dirs) ==> ev.idx == i
    ensures forall d :: d in dirs ==> DirEvent(i, DirKey(step, d)) in DirEventsOf(step, i, dirs)
  {
    if dirs != [] {
      DirEventsOfMembers(step, i, dirs[..|dirs| - 1]);
      assert dirs == dirs[..|dirs| - 1] + [dirs[|dirs| - 1]];
    }
  }

  lemma {:induction false} DirEventsAscend(step: Step, pkgs: Packages, n: nat)
    requires n <= |pkgs|
    ensures InOrder(DirEvents(step, pkgs, n)) && forall ev :: ev in DirEvents(step, pkgs, n) ==> ev.idx < n
  {
    hide DirKey, DirEvents, DirEventsOf, InOrder;
    if n == 0 {
      NoDirEvents(step, pkgs);
    } else {
      DirEventsAscend(step, pkgs, n - 1);
      DirEventsStep(step, pkgs, n);
      assert DirEvents(step, pkgs, n - 1) + [] == DirEvents(step, pkgs, n - 1);
      if pkgs[n - 1].Some? {
        DirEventsOfMembers(step, n - 1, pkgs[n - 1].value.dirs);
        AscendingConcat(DirEvents(step, pkgs, n - 1), DirEventsOf(step, n - 1, pkgs[n - 1].value.dirs), n - 1);
      }
    }
  }

  lemma NoDirEvents(step: Step, pkgs: Packages)
    ensures DirEvents(step, pkgs, 0) == [] && InOrder([])
  {
  }

  lemma DirEventsStep(step: Step, pkgs: Packages, n: nat)
    requires 0 < n <= |pkgs|
    ensures DirEvents(step, pkgs, n) ==
            DirEvents(step, pkgs, n - 1) +
            if pkgs[n - 1].None? then [] else DirEventsOf(step, n - 1, pkgs[n - 1].value.dirs)
  {
  }

  /** Package i has a directory with this hash. */
  ghost predicate DirIn(step: Step, pkgs: Packages, i: nat, key: nat) {
    i < |pkgs| && pkgs[i].Some? && exists d :: d in pkgs[i].value.dirs && DirKey(step, d) == key
  }

  lemma {:induction false} DirEventOf(step: Step, i: nat, dirs: seq<string>, ev: DirEvent)
    requires ev in DirEventsOf(step, i, dirs)
    ensures ev.idx == i && exists d :: d in dirs && DirKey(step, d) == ev.key
  {
    hide DirKey;
    var d := dirs[|dirs| - 1];
    if ev == DirEvent(i, DirKey(step, d)) {
      assert d in dirs;
    } else {
      DirEventOf(step, i, dirs[..|dirs| - 1], ev);
      var c :| c in dirs[..|dirs| - 1] && DirKey(step, c) == ev.key;
      assert c in dirs;
    }
  }

  lemma {:induction false} DirEventFrom(step: Step, pkgs: Packages, n: nat, ev: DirEvent)
    requires n <= |pkgs| && ev in DirEvents(step, pkgs, n)
    ensures DirIn(step, pkgs, ev.idx, ev.key)
  {
    hide DirKey, DirEventsOf;
    if ev in DirEvents(step, pkgs, n - 1) {
      DirEventFrom(step, pkgs, n - 1, ev);
    } else {
      DirEventOf(step, n - 1, pkgs[n - 1].value.dirs, ev);
    }
  }

  lemma {:induction false} DirEventIn(step: Step, pkgs: Packages, n: nat, i: nat, d: string)
    requires i < n <= |pkgs| && pkgs[i].Some? && d in pkgs[i].value.dirs
    ensures DirEvent(i, DirKey(step, d)) in DirEvents(step, pkgs, n)
  {
    hide DirKey, DirEvents, DirEventsOf;
    DirEventsStep(step, pkgs, n);
    if i < n - 1 {
      DirEventIn(step, pkgs, n - 1, i, d);
    } else {
      DirEventsOfMembers(step, i, pkgs[i].value.dirs);
    }
  }

  lemma AscendingConcat(a: seq<DirEvent>, b: seq<DirEvent>, n: nat)
    requires InOrder(a) && (forall ev :: ev in a ==> ev.idx < n) && forall ev :: ev in b ==> ev.idx == n
    ensures InOrder(a + b)
  {
    forall i, j | 0 <= i < j < |a + b| ensures (a + b)[i].idx <= (a + b)[j].idx {
      assert (a + b)[i] in a || (a + b)[i] in b;
      assert (a + b)[j] in a || (a + b)[j] in b;
    }
  }

  lemma DirRunNext(evs: seq<DirEvent>, ev: DirEvent, cutoff: nat)
    ensures DirRun(evs + [ev], cutoff) == DirStep(DirRun(evs, cutoff), ev, cutoff)
  {
    assert (evs + [ev])[..|evs|] == evs;
  }

  /** One directory of package idx. */
  method FindDir(dirmap: HashTable, involved0: set<nat>, create: bool, idx: nat, key: nat, ghost cutoff: nat)
    returns (involved: set<nat>)
    requires dirmap.Valid() && key != 0 && create == (idx < cutoff)
    modifies dirmap, dirmap.keys, dirmap.vals
    ensures dirmap.Valid() && (dirmap.keys == old(dirmap.keys) || fresh(dirmap.keys))
    ensures dirmap.vals == old(dirmap.vals) || fresh(dirmap.vals)
    ensures DirState(dirmap.content, involved)
      == DirStep(DirState(old(dirmap.content), involved0), DirEvent(idx, key), cutoff)
  {
    hide FreeFor, Table;
    involved := involved0;
    var h, n := dirmap.Find(key);
    if dirmap.keys[h] == 0 {
      if create {
        dirmap.Insert(h, key, idx, n);
      }
      return;
    }
    var oidx := dirmap.vals[h];
    if oidx == idx {
      return;
    }
    if oidx >= 0 {
      involved := involved + {oidx};
      dirmap.Set(h, -1);
    }
    involved := involved + {idx};
  }

  method FindDirs(step: Step, pkgs: Packages, cutoff: nat) returns (dirmap: HashTable, involved: set<nat>)
    ensures fresh(dirmap) && fresh(dirmap.keys) && fresh(dirmap.vals) && dirmap.Valid()
    ensures DirState(dirmap.content, involved) == DirRun(DirEvents(step, pkgs, |pkgs|), cutoff)
  {
    hide PowerSize, DirRun, DirStep, DirKey, Table;
    var size, k := TableSize((cutoff + 3) * 16);
    dirmap := new HashTable(size, k);
    involved := {};
    assert DirRun([], cutoff) == DirState(map[], {}) by { EmptyRun(cutoff); }
    var create := true;
    for i := 0 to |pkgs|
      invariant fresh(dirmap) && fresh(dirmap.keys) && fresh(dirmap.vals) && dirmap.Valid() && create == (i <= cutoff)
      invariant DirState(dirmap.content, involved) == DirRun(DirEvents(step, pkgs, i), cutoff)
    {
      if i == cutoff {
        create := false;
      }
      if pkgs[i].Some? {
        var dirs := pkgs[i].value.dirs;
        ghost var before := DirEvents(step, pkgs, i);
        assert before + [] == before;
        for j := 0 to |dirs|
          invariant fresh(dirmap) && fresh(dirmap.keys) && fresh(dirmap.vals) && dirmap.Valid()
          invariant DirState(dirmap.content, involved) == DirRun(before + DirEventsOf(step, i, dirs[..j]), cutoff)
        {
          ghost var evs := before + DirEventsOf(step, i, dirs[..j]);
          assert dirs[..j + 1][..j] == dirs[..j];
          assert before + DirEventsOf(step, i, dirs[..j + 1]) == evs + [DirEvent(i, DirKey(step, dirs[j]))];
          DirRunNext(evs, DirEvent(i, DirKey(step, dirs[j])), cutoff);
          involved := FindDir(dirmap, involved, create, i, DirKey(step, dirs[j]), cutoff);
        }
        assert dirs[..|dirs|] == dirs;
      } else {
        assert DirEvents(step, pkgs, i) + [] == DirEvents(step, pkgs, i);
      }
    }
  }

  lemma EmptyRun(cutoff: nat)
    ensures DirRun([], cutoff) == DirState(map[], {}) && FileRun([], cutoff) == FileState(map[], [], [])
  {
  }

  // ----- second pass -----

  /** The directory is marked as used by several packages. */
  predicate Marked(table: map<nat, int>, key: nat) {
    key in table && table[key] == -1
  }

  /** The files of package i that are looked up in the second pass. */
  predicate Scanned(step: Step, table: map<nat, int>, p: Package, k: nat) {
    Listed(p, k) && Marked(table, DirKey(step, Dir(p, k)))
  }

  function KeyOf(step: Step, p: Package, k: nat): nat
    requires Listed(p, k)
  {
    FileKey(step, Dir(p, k), p.files[k].base)
  }

  function FileEventsOf(step: Step, table: map<nat, int>, i: nat, p: Package, n: nat): seq<FileEvent>
    requires n <= |p.files|
  {
    if n == 0 then []
    else FileEventsOf(step, table, i, p, n - 1) +
         if Scanned(step, table, p, n - 1) then [FileEvent(i, KeyOf(step, p, n - 1), p.files[n - 1].isdir)] else []
  }

  function FileEvents(step: Step, pkgs: Packages, table: map<nat, int>, involved: set<nat>, n: nat): seq<FileEvent>
    requires n <= |pkgs|
  {
    if n == 0 then []
    else FileEvents(step, pkgs, table, involved, n - 1) +
         if n - 1 !in involved || pkgs[n - 1].None? then []
         else FileEventsOf(step, table, n - 1, pkgs[n - 1].value, |pkgs[n - 1].value.files|)
  }

  lemma {:induction false} FileEventsOfMembers(step: Step, table: map<nat, int>, i: nat, p: Package, n: nat)
    requires n <= |p.files|
    ensures forall ev :: ev in FileEventsOf(step, table, i, p, n) ==> ev.idx == i
    ensures forall k: nat ::
      k < n && Scanned(step, table, p, k) ==>
        FileEvent(i, KeyOf(step, p, k), p.files[k].isdir) in FileEventsOf(step, table, i, p, n)
  {
    hide FileKey, Marked;
    if n > 0 {
      FileEventsOfMembers(step, table, i, p, n - 1);
    }
  }

  lemma {:induction false} FileEventsAscend(step: Step, pkgs: Packages, table: map<nat, int>, involved: set<nat>,
                                            n: nat)
    requires n <= |pkgs|
    ensures FileAscending(FileEvents(step, pkgs, table, involved, n))
    ensures forall ev :: ev in FileEvents(step, pkgs, table, involved, n) ==> ev.idx < n
  {
    hide FileEventsOf, FileAscending;
    if n == 0 {
      NothingAscends();
    } else {
      FileEventsAscend(step, pkgs, table, involved, n - 1);
      if n - 1 in involved && pkgs[n - 1].Some? {
        var p := pkgs[n - 1].value;
        FileEventsOfMembers(step, table, n - 1, p, |p.files|);
        FileAscendingConcat(FileEvents(step, pkgs, table, involved, n - 1),
                            FileEventsOf(step, table, n - 1, p, |p.files|), n - 1);
      } else {
        assert FileEvents(step, pkgs, table, involved, n - 1) + [] == FileEvents(step, pkgs, table, involved, n - 1);
      }
    }
  }

  lemma NothingAscends()
    ensures FileAscending([])
  {
  }

  lemma FileAscendingConcat(a: seq<FileEvent>, b: seq<FileEvent>, n: nat)
    requires FileAscending(a) && (forall ev :: ev in a ==> ev.idx < n) && forall ev :: ev in b ==> ev.idx == n
    ensures FileAscending(a + b)
  {
    forall i, j | 0 <= i < j < |a + b| ensures (a + b)[i].idx <= (a + b)[j].idx {
      assert (a + b)[i] in a || (a + b)[i] in b;
      assert (a + b)[j] in a || (a + b)[j] in b;
    }
  }

  lemma FileEventsStep(step: Step, pkgs: Packages, table: map<nat, int>, involved: set<nat>, n: nat)
    requires 0 < n <= |pkgs|
    ensures FileEvents(step, pkgs, table, involved, n) == FileEvents(step, pkgs, table, involved, n - 1) +
            if n - 1 !in involved || pkgs[n - 1].None? then []
            else FileEventsOf(step, table, n - 1, pkgs[n - 1].value, |pkgs[n - 1].value.files|)
  {
  }

  lemma {:induction false} FileEventOf(step: Step, table: map<nat, int>, i: nat, p: Package, n: nat, ev: FileEvent)
    returns (k: nat)
    requires n <= |p.files| && ev in FileEventsOf(step, table, i, p, n)
    ensures Scanned(step, table, p, k) && ev == FileEvent(i, KeyOf(step, p, k), p.files[k].isdir)
  {
    hide FileKey, Marked;
    if ev in FileEventsOf(step, table, i, p, n - 1) {
      k := FileEventOf(step, table, i, p, n - 1, ev);
    } else {
      k := n - 1;
    }
  }

  /** Every event of the second pass is a file in a marked directory of an involved package. */
  lemma {:induction false} FileEventFrom(step: Step, pkgs: Packages, table: map<nat, int>, involved: set<nat>, n: nat,
      ev: FileEvent)
    returns (k: nat)
    requires n <= |pkgs| && ev in FileEvents(step, pkgs, table, involved, n)
    ensures ev.idx < n && pkgs[ev.idx].Some? && Scanned(step, table, pkgs[ev.idx].value, k)
    ensures ev.key == KeyOf(step, pkgs[ev.idx].value, k) && ev.isdir == pkgs[ev.idx].value.files[k].isdir
  {
    hide KeyOf, FileEventsOf, Marked, DirKey;
    if ev in FileEvents(step, pkgs, table, involved, n - 1) {
      k := FileEventFrom(step, pkgs, table, involved, n - 1, ev);
    } else {
      k := FileEventOf(step, table, n - 1, pkgs[n - 1].value, |pkgs[n - 1].value.files|, ev);
    }
  }

  lemma {:induction false} FileEventIn(step: Step, pkgs: Packages, table: map<nat, int>, involved: set<nat>, n: nat,
      i: nat, k: nat)
    requires i < n <= |pkgs| && i in involved && pkgs[i].Some? && Scanned(step, table, pkgs[i].value, k)
    ensures FileEvent(i, KeyOf(step, pkgs[i].value, k), pkgs[i].value.files[k].isdir)
         in FileEvents(step, pkgs, table, involved, n)
  {
    hide KeyOf, FileEvents, FileEventsOf, Marked, DirKey;
    FileEventsStep(step, pkgs, table, involved, n);
    if i < n - 1 {
      FileEventIn(step, pkgs, table, involved, n - 1, i, k);
    } else {
      FileEventsOfMembers(step, table, i, pkgs[i].value, |pkgs[i].value.files|);
    }
  }

  lemma FileRunNext(evs: seq<FileEvent>, ev: FileEvent, cutoff: nat)
    ensures FileRun(evs + [ev], cutoff) == FileStep(FileRun(evs, cutoff), ev, cutoff)
  {
    assert (evs + [ev])[..|evs|] == evs;
  }

  lemma DelayedNext(delayed: seq<Hit>, j: nat, key: nat)
    requires j < |delayed|
    ensures Delayed(delayed[..j + 1], key)
         == Delayed(delayed[..j], key) + if delayed[j].key == key then [delayed[j]] else []
  {
    assert delayed[..j + 1][..j] == delayed[..j];
  }

  /** One file of package idx. */
  method FindFile(cflmap: HashTable, lookat0: seq<Hit>, delayed0: seq<Hit>, create: bool, idx: nat, key: nat,
      isdir: bool, ghost cutoff: nat)
    returns (lookat: seq<Hit>, delayed: seq<Hit>)
    requires cflmap.Valid() && key != 0 && create == (idx < cutoff)
    modifies cflmap, cflmap.keys, cflmap.vals
    ensures cflmap.Valid() && (cflmap.keys == old(cflmap.keys) || fresh(cflmap.keys))
    ensures cflmap.vals == old(cflmap.vals) || fresh(cflmap.vals)
    ensures FileState(cflmap.content, lookat, delayed) ==
            FileStep(FileState(old(cflmap.content), lookat0, delayed0), FileEvent(idx, key, isdir), cutoff)
  {
    hide FreeFor, Table, Delayed;
    lookat, delayed := lookat0, delayed0;
    var h, n := cflmap.Find(key);
    if cflmap.keys[h] == 0 {
      if create {
        cflmap.Insert(h, key, if isdir then -1 - idx else idx, n);
      }
      return;
    }
    var oidx := cflmap.vals[h];
    if oidx < 0 {
      if isdir {
        // both are directories: delay the conflict, keep the slot
        delayed := delayed + [Hit(key, idx)];
        return;
      }
      oidx := -1 - oidx;
      // now a file, only directories before: make it a file and dump the delayed hits
      cflmap.Set(h, oidx);
      lookat := Dump(lookat, delayed, key);
    } else if oidx == idx {
      return;
    }
    lookat := lookat + [Hit(key, oidx), Hit(key, idx)];
  }

  method Dump(lookat0: seq<Hit>, delayed: seq<Hit>, key: nat) returns (lookat: seq<Hit>)
    ensures lookat == lookat0 + Delayed(delayed, key)
  {
    lookat := lookat0;
    for j := 0 to |delayed|
      invariant lookat == lookat0 + Delayed(delayed[..j], key)
    {
      DelayedNext(delayed, j, key);
      if delayed[j].key == key {
        lookat := lookat + [delayed[j]];
      }
    }
    assert delayed[..|delayed|] == delayed;
  }

  /** All files of package idx; the hash of the directory is kept while the directory does not change. */
  method FindFilesOf(step: Step, p: Package, dirmap: HashTable, cflmap: HashTable, lookat0: seq<Hit>,
                     delayed0: seq<Hit>, create: bool, idx: nat, ghost cutoff: nat, ghost before: seq<FileEvent>)
    returns (lookat: seq<Hit>, delayed: seq<Hit>)
    requires dirmap.Valid() && cflmap.Valid() && dirmap != cflmap && dirmap.keys != cflmap.keys
    requires dirmap.vals != cflmap.vals
    requires create == (idx < cutoff) && FileState(cflmap.content, lookat0, delayed0) == FileRun(before, cutoff)
    modifies cflmap, cflmap.keys, cflmap.vals
    ensures cflmap.Valid() && (cflmap.keys == old(cflmap.keys) || fresh(cflmap.keys))
    ensures cflmap.vals == old(cflmap.vals) || fresh(cflmap.vals)
    ensures FileState(cflmap.content, lookat, delayed)
      == FileRun(before + FileEventsOf(step, dirmap.content, idx, p, |p.files|), cutoff)
  {
    hide FreeFor, Table, FileRun, FileStep, HashCont;
    lookat, delayed := lookat0, delayed0;
    var lastdiridx, lastdirhash := -1, 0;
    ghost var table := dirmap.content;
    assert before + [] == before;
    for k := 0 to |p.files|
      invariant dirmap.Valid() && dirmap.content == table && cflmap.Valid()
      invariant cflmap.keys == old(cflmap.keys) || fresh(cflmap.keys)
      invariant cflmap.vals == old(cflmap.vals) || fresh(cflmap.vals)
      invariant -1 <= lastdiridx < |p.dirs|
      invariant lastdiridx >= 0 ==> lastdirhash == HashCont(step, p.dirs[lastdiridx], 0)
      invariant FileState(cflmap.content, lookat, delayed)
        == FileRun(before + FileEventsOf(step, table, idx, p, k), cutoff)
    {
      ghost var evs := before + FileEventsOf(step, table, idx, p, k);
      assert !Scanned(step, table, p, k) ==> before + FileEventsOf(step, table, idx, p, k + 1) == evs;
      if p.files[k].isghost || p.files[k].diridx >= |p.dirs| {
        continue;
      }
      var diridx := p.files[k].diridx;
      var dir := p.dirs[diridx];
      if dir == "" {
        continue;
      }
      if diridx != lastdiridx {
        lastdiridx := diridx;
        lastdirhash := HashCont(step, dir, 0);
      }
      var dhx := NonZero(lastdirhash, |dir|);
      assert dhx == DirKey(step, dir);
      var h, n := dirmap.Find(dhx);
      if dirmap.keys[h] == 0 || dirmap.vals[h] != -1 {
        continue;
      }
      var hx := NonZero(HashCont(step, p.files[k].base, lastdirhash), |dir| + |p.files[k].base|);
      assert hx == KeyOf(step, p, k);
      ghost var ev := FileEvent(idx, hx, p.files[k].isdir);
      assert before + FileEventsOf(step, table, idx, p, k + 1) == evs + [ev];
      FileRunNext(evs, ev, cutoff);
      lookat, delayed := FindFile(cflmap, lookat, delayed, create, idx, hx, p.files[k].isdir, cutoff);
    }
  }

  method FindFiles(step: Step, pkgs: Packages, cutoff: nat, dirmap: HashTable, involved: set<nat>)
    returns (lookat: seq<Hit>)
    requires dirmap.Valid()
    ensures lookat == FileRun(FileEvents(step, pkgs, dirmap.content, involved, |pkgs|), cutoff).lookat
  {
    hide PowerSize, FileRun, FileStep, Table, FileEventsOf;
    var size, k := TableSize((cutoff + 3) * 32);
    var cflmap := new HashTable(size, k);
    var delayed: seq<Hit> := [];
    lookat := [];
    EmptyRun(cutoff);
    ghost var table := dirmap.content;
    var create := true;
    for i := 0 to |pkgs|
      invariant dirmap.Valid() && dirmap.content == table
      invariant fresh(cflmap) && fresh(cflmap.keys) && fresh(cflmap.vals) && cflmap.Valid() && create == (i <= cutoff)
      invariant FileState(cflmap.content, lookat, delayed)
        == FileRun(FileEvents(step, pkgs, table, involved, i), cutoff)
    {
      if i == cutoff {
        create := false;
      }
      if i in involved && pkgs[i].Some? {
        lookat, delayed := FindFilesOf(step, pkgs[i].value, dirmap, cflmap, lookat, delayed, create, i, cutoff,
                                       FileEvents(step, pkgs, table, involved, i));
      } else {
        assert FileEvents(step, pkgs, table, involved, i) + [] == FileEvents(step, pkgs, table, involved, i);
      }
    }
  }
}
