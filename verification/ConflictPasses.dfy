/** The first two passes as functions of the sequence of directories and files they see, and what they find. */
module ConflictPasses {

  // ----- first pass: directories used by several packages -----

  /** A directory name hash seen in the package at position idx. */
  datatype DirEvent = DirEvent(idx: nat, key: nat)

  /** Per hash the one package seen so far, or -1 for several; and the packages involved. */
  datatype DirState = DirState(table: map<nat, int>, involved: set<nat>)

  function DirStep(s: DirState, ev: DirEvent, cutoff: nat): DirState {
    if ev.key !in s.table then
      if ev.idx < cutoff then s.(table := s.table[ev.key := ev.idx]) else s
    else
      var oidx := s.table[ev.key];
      if oidx == ev.idx then s
      else if oidx < 0 then s.(involved := s.involved + {ev.idx})
      else DirState(s.table[ev.key := -1], s.involved + {oidx, ev.idx})
  }

  function DirRun(evs: seq<DirEvent>, cutoff: nat): DirState {
    if evs == [] then DirState(map[], {}) else DirStep(DirRun(evs[..|evs| - 1], cutoff), evs[|evs| - 1], cutoff)
  }

  ghost predicate InOrder(evs: seq<DirEvent>) {
    forall i, j :: 0 <= i < j < |evs| ==> evs[i].idx <= evs[j].idx
  }

  ghost predicate InNew(evs: seq<DirEvent>, cutoff: nat, key: nat) {
    exists i: nat :: i < cutoff && DirEvent(i, key) in evs
  }

  ghost predicate InTwo(evs: seq<DirEvent>, key: nat) {
    exists i: nat, j: nat :: i != j && DirEvent(i, key) in evs && DirEvent(j, key) in evs
  }

  /** What the table says about one key after the events. */
  ghost predicate DirKeyOk(evs: seq<DirEvent>, cutoff: nat, s: DirState, key: nat) {
    && (key in s.table <==> InNew(evs, cutoff, key))
    && (key in s.table ==> s.table[key] >= -1 && (s.table[key] == -1 <==> InTwo(evs, key)))
    && (key in s.table && s.table[key] >= 0 ==> forall ev :: ev in evs && ev.key == key ==> ev.idx == s.table[key])
    && (key in s.table && s.table[key] == -1 ==> forall ev :: ev in evs && ev.key == key ==> ev.idx in s.involved)
  }

  /** A directory is marked iff a new package and yet another package have it, and then all its packages are
      involved. */
  lemma {:induction false} DirRunMeaning(evs: seq<DirEvent>, cutoff: nat, key: nat)
    requires InOrder(evs)
    ensures DirKeyOk(evs, cutoff, DirRun(evs, cutoff), key)
  {
    if evs != [] {
      var before, ev := evs[..|evs| - 1], evs[|evs| - 1];
      DirRunMeaning(before, cutoff, key);
      DirStepMeaning(before, ev, cutoff, DirRun(before, cutoff), key);
      assert evs == before + [ev];
    }
  }

  lemma DirStepMeaning(evs: seq<DirEvent>, ev: DirEvent, cutoff: nat, s: DirState, key: nat)
    requires InOrder(evs + [ev]) && DirKeyOk(evs, cutoff, s, key)
    ensures DirKeyOk(evs + [ev], cutoff, DirStep(s, ev, cutoff), key)
  {
    var after := evs + [ev];
    forall x ensures x in after <==> x in evs || x == ev { }
    assert after[|evs|] == ev;
    forall x | x in evs ensures x.idx <= ev.idx { var i :| 0 <= i < |evs| && evs[i] == x; assert after[i] == x; }
    if ev.key == key { DirSameKey(evs, after, ev, cutoff, s); } else { DirOtherKey(evs, after, ev, cutoff, s, key); }
  }

  lemma DirOtherKey(evs: seq<DirEvent>, after: seq<DirEvent>, ev: DirEvent, cutoff: nat, s: DirState, key: nat)
    requires DirKeyOk(evs, cutoff, s, key) && ev.key != key && forall x :: x in after <==> x in evs || x == ev
    ensures DirKeyOk(after, cutoff, DirStep(s, ev, cutoff), key)
  {
    assert InTwo(evs, key) <==> InTwo(after, key);
    assert InNew(evs, cutoff, key) <==> InNew(after, cutoff, key);
  }

  lemma DirSameKey(evs: seq<DirEvent>, after: seq<DirEvent>, ev: DirEvent, cutoff: nat, s: DirState)
    requires DirKeyOk(evs, cutoff, s, ev.key) && (forall x :: x in after <==> x in evs || x == ev)
    requires forall x :: x in evs ==> x.idx <= ev.idx
    ensures DirKeyOk(after, cutoff, DirStep(s, ev, cutoff), ev.key)
  {
    var key := ev.key;
    assert ev == DirEvent(ev.idx, key) && ev in after;
    if key in s.table {
      var i: nat :| i < cutoff && DirEvent(i, key) in evs;
      assert DirEvent(i, key) in after;
      if InTwo(evs, key) {
        var i: nat, j: nat :| i != j && DirEvent(i, key) in evs && DirEvent(j, key) in evs;
        assert DirEvent(i, key) in after && DirEvent(j, key) in after;
        assert InTwo(after, key);
      } else if i != ev.idx {
        assert InTwo(after, key);
      }
    } else {
      assert forall i: nat :: i < cutoff ==> DirEvent(i, key) !in evs;
      assert InNew(after, cutoff, key) <==> ev.idx < cutoff;
    }
  }

  // ----- second pass: paths used by several packages -----

  /** A path hash seen in the package at position idx. */
  datatype FileEvent = FileEvent(idx: nat, key: nat, isdir: bool)

  datatype Hit = Hit(key: nat, idx: nat)

  /** Per hash the first package, complemented while only directories were seen; the candidates; delayed directories. */
  datatype FileState = FileState(table: map<nat, int>, lookat: seq<Hit>, delayed: seq<Hit>)

  function Delayed(delayed: seq<Hit>, key: nat): (r: seq<Hit>)
    ensures forall h :: h in r <==> h in delayed && h.key == key
  {
    if delayed == [] then []
    else
      var hit := delayed[|delayed| - 1];
      Delayed(delayed[..|delayed| - 1], key) + if hit.key == key then [hit] else []
  }

  function FileStep(s: FileState, ev: FileEvent, cutoff: nat): FileState {
    if ev.key !in s.table then
      if ev.idx < cutoff then s.(table := s.table[ev.key := if ev.isdir then -1 - ev.idx else ev.idx]) else s
    else
      var oidx := s.table[ev.key];
      if oidx < 0 then
        if ev.isdir then s.(delayed := s.delayed + [Hit(ev.key, ev.idx)])
        else FileState(s.table[ev.key := -1 - oidx],
                       s.lookat + Delayed(s.delayed, ev.key) + [Hit(ev.key, -1 - oidx), Hit(ev.key, ev.idx)], s.delayed)
      else if oidx == ev.idx then s
      else s.(lookat := s.lookat + [Hit(ev.key, oidx), Hit(ev.key, ev.idx)])
  }

  function FileRun(evs: seq<FileEvent>, cutoff: nat): FileState {
    if evs == [] then FileState(map[], [], []) else FileStep(FileRun(evs[..|evs| - 1], cutoff), evs[|evs| - 1], cutoff)
  }

  ghost predicate FileAscending(evs: seq<FileEvent>) {
    forall i, j :: 0 <= i < j < |evs| ==> evs[i].idx <= evs[j].idx
  }

  ghost predicate Seen(evs: seq<FileEvent>, idx: nat, key: nat) {
    FileEvent(idx, key, true) in evs || FileEvent(idx, key, false) in evs
  }

  ghost predicate SeenNew(evs: seq<FileEvent>, cutoff: nat, key: nat) {
    exists i: nat :: i < cutoff && Seen(evs, i, key)
  }

  /** Something other than a directory was seen. */
  ghost predicate FileSeen(evs: seq<FileEvent>, key: nat) {
    exists i: nat :: FileEvent(i, key, false) in evs
  }

  /** What table and queues say about one key after the events. */
  ghost predicate FileKeyOk(evs: seq<FileEvent>, cutoff: nat, s: FileState, key: nat) {
    && (key in s.table <==> SeenNew(evs, cutoff, key))
    && (forall h :: h in s.lookat && h.key == key ==> Seen(evs, h.idx, key) && FileSeen(evs, key))
    && (forall h :: h in s.delayed && h.key == key ==> Seen(evs, h.idx, key))
    && (key in s.table && s.table[key] < 0 ==>
          forall ev ::
            ev in evs && ev.key == key ==> ev.isdir && (ev.idx == -1 - s.table[key] || Hit(key, ev.idx) in s.delayed))
    && (key in s.table && s.table[key] < 0 ==> Seen(evs, -1 - s.table[key], key))
    && (key in s.table && s.table[key] >= 0 ==> Seen(evs, s.table[key], key) && FileSeen(evs, key))
    && (key in s.table && s.table[key] >= 0 ==>
          forall ev :: ev in evs && ev.key == key && ev.idx != s.table[key] ==>
            Hit(key, ev.idx) in s.lookat && Hit(key, s.table[key]) in s.lookat)
  }

  lemma {:induction false} FileRunMeaning(evs: seq<FileEvent>, cutoff: nat, key: nat)
    requires FileAscending(evs)
    ensures FileKeyOk(evs, cutoff, FileRun(evs, cutoff), key)
  {
    if evs != [] {
      var before, ev := evs[..|evs| - 1], evs[|evs| - 1];
      FileRunMeaning(before, cutoff, key);
      assert evs == before + [ev];
      forall x | x in before ensures x.idx <= ev.idx { }
      FileStepMeaning(before, evs, ev, cutoff, FileRun(before, cutoff), key);
    }
  }

  lemma FileStepMeaning(evs: seq<FileEvent>, after: seq<FileEvent>, ev: FileEvent, cutoff: nat, s: FileState, key: nat)
    requires FileKeyOk(evs, cutoff, s, key) && (forall x :: x in after <==> x in evs || x == ev)
    requires forall x :: x in evs ==> x.idx <= ev.idx
    ensures FileKeyOk(after, cutoff, FileStep(s, ev, cutoff), key)
  {
    forall i: nat ensures Seen(after, i, key) <==> Seen(evs, i, key) || (ev.key == key && ev.idx == i) { }
    FileSeenNext(evs, after, ev, key);
    if ev.key != key { FileOtherKey(evs, after, ev, cutoff, s, key); }
    else if key !in s.table { FileNewKey(evs, after, ev, cutoff, s); }
    else { FileOldKey(evs, after, ev, cutoff, s); }
  }

  lemma FileSeenNext(evs: seq<FileEvent>, after: seq<FileEvent>, ev: FileEvent, key: nat)
    requires forall x :: x in after <==> x in evs || x == ev
    ensures FileSeen(after, key) <==> FileSeen(evs, key) || (ev.key == key && !ev.isdir)
  {
    if FileSeen(evs, key) {
      var i: nat :| FileEvent(i, key, false) in evs;
      assert FileEvent(i, key, false) in after;
    }
    if ev.key == key && !ev.isdir { assert ev == FileEvent(ev.idx, key, false) && ev in after; }
  }

  lemma FileOtherKey(evs: seq<FileEvent>, after: seq<FileEvent>, ev: FileEvent, cutoff: nat, s: FileState, key: nat)
    requires FileKeyOk(evs, cutoff, s, key) && ev.key != key && (forall x :: x in after <==> x in evs || x == ev)
    requires forall i: nat :: Seen(after, i, key) <==> Seen(evs, i, key)
    requires FileSeen(after, key) <==> FileSeen(evs, key)
    ensures FileKeyOk(after, cutoff, FileStep(s, ev, cutoff), key)
  {
    hide Seen, FileSeen;
    assert SeenNew(after, cutoff, key) <==> SeenNew(evs, cutoff, key);
  }

  lemma FileNewKey(evs: seq<FileEvent>, after: seq<FileEvent>, ev: FileEvent, cutoff: nat, s: FileState)
    requires FileKeyOk(evs, cutoff, s, ev.key) && ev.key !in s.table
    requires (forall x :: x in after <==> x in evs || x == ev) && forall x :: x in evs ==> x.idx <= ev.idx
    requires forall i: nat :: Seen(after, i, ev.key) <==> Seen(evs, i, ev.key) || ev.idx == i
    requires FileSeen(after, ev.key) <==> FileSeen(evs, ev.key) || !ev.isdir
    ensures FileKeyOk(after, cutoff, FileStep(s, ev, cutoff), ev.key)
  {
    var key := ev.key;
    assert forall i: nat :: i < cutoff ==> !Seen(evs, i, key);
    assert Seen(after, ev.idx, key);
    forall i: nat | i < cutoff && Seen(after, i, key) ensures i == ev.idx { }
    assert SeenNew(after, cutoff, key) <==> ev.idx < cutoff;
    if ev.idx < cutoff {
      forall x | x in evs && x.key == key ensures Seen(evs, x.idx, key) {
        assert x == FileEvent(x.idx, key, x.isdir);
      }
    }
  }

  lemma FileOldKey(evs: seq<FileEvent>, after: seq<FileEvent>, ev: FileEvent, cutoff: nat, s: FileState)
    requires FileKeyOk(evs, cutoff, s, ev.key) && ev.key in s.table
    requires (forall x :: x in after <==> x in evs || x == ev)
    requires forall i: nat :: Seen(after, i, ev.key) <==> Seen(evs, i, ev.key) || ev.idx == i
    requires FileSeen(after, ev.key) <==> FileSeen(evs, ev.key) || !ev.isdir
    ensures FileKeyOk(after, cutoff, FileStep(s, ev, cutoff), ev.key)
  {
    hide Seen, FileSeen;
    var key := ev.key;
    var i: nat :| i < cutoff && Seen(evs, i, key);
    assert Seen(after, i, key);
  }

  /** Complete: once a path hash occurs in a new package, in two packages, and not just for directories, every
      package with it is a candidate, the ones that have it for a directory included. */
  lemma CandidatesComplete(evs: seq<FileEvent>, cutoff: nat, i: nat, j: nat, key: nat)
    requires FileAscending(evs) && i != j && i < cutoff && Seen(evs, i, key) && Seen(evs, j, key)
    requires FileSeen(evs, key)
    ensures Hit(key, i) in FileRun(evs, cutoff).lookat && Hit(key, j) in FileRun(evs, cutoff).lookat
  {
    FileRunMeaning(evs, cutoff, key);
    assert SeenNew(evs, cutoff, key);
  }

  lemma CandidatesSound(evs: seq<FileEvent>, cutoff: nat, h: Hit)
    requires FileAscending(evs) && h in FileRun(evs, cutoff).lookat
    ensures Seen(evs, h.idx, h.key) && FileSeen(evs, h.key)
  {
    FileRunMeaning(evs, cutoff, h.key);
  }
}
