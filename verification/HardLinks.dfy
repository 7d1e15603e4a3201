/** Disk usage of a package: hard links are counted once, and sizes are added up per directory. */
module HardLinks {
  import opened Common
  import opened Probe
  import opened HashTables
  import opened Candidates
  import opened FetchMap

  const U32: nat := 0x1_0000_0000

  /** Sizes in kilobytes as 32-bit numbers, rounded up past empty. */
  function Kilobytes(size: nat): nat {
    if size == 0 then 0 else (size / 1024 + 1) % U32
  }

  /** The k-th kilobyte is the one the size ends in; only the low 32 bits of k are kept. */
  lemma KilobytesMean(size: nat, k: nat)
    requires 1024 * (k - 1) <= size < 1024 * k
    ensures size == 0 ==> Kilobytes(size) == 0
    ensures size > 0 && k <= 0xFFFF_FFFF ==> Kilobytes(size) == k
    ensures size > 0 ==> 0 <= Kilobytes(size) <= 0xFFFF_FFFF && (k - Kilobytes(size)) % 0x1_0000_0000 == 0
  {
    assert size / 1024 == k - 1;
  }

  function InKilobytes(sizes: seq<nat>): (r: seq<nat>)
    ensures |r| == |sizes| && forall i :: 0 <= i < |r| ==> r[i] == Kilobytes(sizes[i])
  {
    seq(|sizes|, i requires 0 <= i < |sizes| => Kilobytes(sizes[i]))
  }

  /** A non-empty regular file. */
  predicate Counts(fsz: seq<nat>, isreg: seq<bool>, i: int)
    requires |fsz| == |isreg|
  {
    0 <= i < |fsz| && fsz[i] != 0 && isreg[i]
  }

  /** File i is the same inode as an earlier one that counts. */
  ghost predicate LinkOf(fsz: seq<nat>, isreg: seq<bool>, ino: seq<nat>, dev: seq<nat>, i: nat, j: nat)
    requires |fsz| == |isreg| == |ino| == |dev| && i < |fsz|
  {
    j < i && Counts(fsz, isreg, j) && ino[j] == ino[i] && dev[j] == dev[i]
  }

  ghost predicate IsLink(fsz: seq<nat>, isreg: seq<bool>, ino: seq<nat>, dev: seq<nat>, i: nat)
    requires |fsz| == |isreg| == |ino| == |dev| && i < |fsz|
  {
    Counts(fsz, isreg, i) && exists j: nat :: LinkOf(fsz, isreg, ino, dev, i, j)
  }

  /** The first file of each inode keeps its size; further links get none. */
  ghost predicate LinksKilled(fsz: seq<nat>, isreg: seq<bool>, ino: seq<nat>, dev: seq<nat>, n: nat, out: seq<nat>)
    requires |fsz| == |isreg| == |ino| == |dev|
  {
    && |out| == |fsz| && n <= |fsz|
    && (forall i: nat :: i < n ==> out[i] == if IsLink(fsz, isreg, ino, dev, i) then 0 else fsz[i])
    && forall i: nat :: n <= i < |fsz| ==> out[i] == fsz[i]
  }

  // ----- the quick test -----

  /** The bit that marks an inode number in the test bitmap. */
  function Bit(ino: nat): (r: nat)
    ensures r < 8192
  {
    ino % 8192
  }

  /** No two files that count can be links when their bits differ. */
  ghost predicate BitsDiffer(fsz: seq<nat>, isreg: seq<bool>, ino: seq<nat>, n: nat)
    requires |fsz| == |isreg| == |ino|
  {
    forall i, j :: 0 <= j < i < n && Counts(fsz, isreg, i) && Counts(fsz, isreg, j) ==> Bit(ino[i]) != Bit(ino[j])
  }

  /** For few files: do all that count have their own bit? */
  method QuickTest(fsz: seq<nat>, isreg: seq<bool>, ino: seq<nat>) returns (ok: bool)
    requires |fsz| == |isreg| == |ino|
    ensures ok <==> |fsz| < 1024 && BitsDiffer(fsz, isreg, ino, |fsz|)
  {
    if |fsz| >= 1024 {
      return false;
    }
    var inotest := new bool[8192](_ => false);
    for i := 0 to |fsz|
      invariant inotest.Length == 8192
      invariant forall b ::
        0 <= b < 8192 ==> (inotest[b] <==> exists j :: 0 <= j < i && Counts(fsz, isreg, j) && Bit(ino[j]) == b)
      invariant BitsDiffer(fsz, isreg, ino, i)
    {
      if fsz[i] == 0 || !isreg[i] {
        continue;
      }
      var b := Bit(ino[i]);
      if inotest[b] {
        return false;
      }
      inotest[b] := true;
      assert Counts(fsz, isreg, i) && Bit(ino[i]) == b;
    }
    return true;
  }

  /** The quick test is right: it passes only when there is no link to kill, whatever the devices. */
  lemma QuickTestSound(fsz: seq<nat>, isreg: seq<bool>, ino: seq<nat>, dev: seq<nat>)
    requires |fsz| == |isreg| == |ino| == |dev| && BitsDiffer(fsz, isreg, ino, |fsz|)
    ensures LinksKilled(fsz, isreg, ino, dev, |fsz|, fsz)
  {
    hide Bit;
  }

  // ----- the full test -----

  function HashOf(ino: nat, dev: nat): nat {
    ino + dev * 31
  }

  /** The table holds i + 1 for the files below n that count and are no links. */
  ghost predicate Entered(fx: seq<nat>, fsz: seq<nat>, isreg: seq<bool>, ino: seq<nat>, dev: seq<nat>, n: nat)
    requires |fsz| == |isreg| == |ino| == |dev|
  {
    && n <= |fsz|
    && (forall s :: 0 <= s < |fx| && fx[s] != 0 ==> fx[s] <= n && Counts(fsz, isreg, fx[s] - 1))
    && (forall s, t :: 0 <= s < t < |fx| && fx[s] != 0 ==> fx[s] != fx[t])
    && forall i: nat ::
         i < n && Counts(fsz, isreg, i) && !IsLink(fsz, isreg, ino, dev, i) ==> Stored(fx, HashOf(ino[i], dev[i]), i)
  }

  lemma EnteredNone(fx: seq<nat>, fsz: seq<nat>, isreg: seq<bool>, ino: seq<nat>, dev: seq<nat>)
    requires |fsz| == |isreg| == |ino| == |dev| && forall s :: 0 <= s < |fx| ==> fx[s] == 0
    ensures Entered(fx, fsz, isreg, ino, dev, 0)
  {
  }

  /** A file that does not count, or is a link, is not entered. */
  lemma EnteredSkip(fx: seq<nat>, fsz: seq<nat>, isreg: seq<bool>, ino: seq<nat>, dev: seq<nat>, i: nat)
    requires |fsz| == |isreg| == |ino| == |dev| && Entered(fx, fsz, isreg, ino, dev, i) && i < |fsz|
    requires !Counts(fsz, isreg, i) || IsLink(fsz, isreg, ino, dev, i)
    ensures Entered(fx, fsz, isreg, ino, dev, i + 1)
  {
    hide IsLink, Stored;
  }

  lemma EnteredAdd(fx: seq<nat>, fsz: seq<nat>, isreg: seq<bool>, ino: seq<nat>, dev: seq<nat>, i: nat, n: nat, h: nat)
    requires |fsz| == |isreg| == |ino| == |dev| && Entered(fx, fsz, isreg, ino, dev, i) && i < |fsz|
    requires Counts(fsz, isreg, i)
    requires |fx| > 0 && Busy(fx, HashOf(ino[i], dev[i]), n) && h == Slot(HashOf(ino[i], dev[i]), n, |fx|) && fx[h] == 0
    ensures h < |fx| && Entered(fx[h := i + 1], fsz, isreg, ino, dev, i + 1)
  {
    hide IsLink, Stored, Slot, HashOf, Busy;
    var fx' := fx[h := i + 1];
    StoredNew(fx, HashOf(ino[i], dev[i]), i, n, h);
    forall j: nat | j < i + 1 && Counts(fsz, isreg, j) && !IsLink(fsz, isreg, ino, dev, j)
      ensures Stored(fx', HashOf(ino[j], dev[j]), j)
    {
      if j < i { StoredKept(fx, HashOf(ino[j], dev[j]), j, h, i + 1); }
    }
  }

  lemma StoredNew(fx: seq<nat>, hash: nat, i: nat, n: nat, h: nat)
    requires |fx| > 0 && Busy(fx, hash, n) && h == Slot(hash, n, |fx|) && fx[h] == 0
    ensures Stored(fx[h := i + 1], hash, i)
  {
    hide Slot;
    assert StoredAt(fx[h := i + 1], hash, i, n);
  }

  lemma StoredKept(fx: seq<nat>, hash: nat, v: nat, h: nat, x: nat)
    requires Stored(fx, hash, v) && h < |fx| && fx[h] == 0 && x != 0
    ensures Stored(fx[h := x], hash, v)
  {
    hide Slot;
    var n :| StoredAt(fx, hash, v, n);
    assert StoredAt(fx[h := x], hash, v, n);
  }

  /** The first n probes hit other inodes. */
  ghost predicate Passed(fx: seq<nat>, ino: seq<nat>, dev: seq<nat>, i: nat, n: nat)
    requires i < |ino| == |dev|
  {
    |fx| > 0 && forall m: nat :: m < n ==> OtherInode(fx[Slot(HashOf(ino[i], dev[i]), m, |fx|)], ino, dev, i)
  }

  ghost predicate OtherInode(e: nat, ino: seq<nat>, dev: seq<nat>, i: nat)
    requires i < |ino| == |dev|
  {
    0 < e <= |ino| && (ino[e - 1] != ino[i] || dev[e - 1] != dev[i])
  }

  lemma PassedBusy(fx: seq<nat>, ino: seq<nat>, dev: seq<nat>, i: nat, n: nat)
    requires i < |ino| == |dev| && Passed(fx, ino, dev, i, n)
    ensures Busy(fx, HashOf(ino[i], dev[i]), n)
  {
    hide Slot, HashOf;
  }

  /** The first file of an inode is no link. */
  lemma {:induction false} FirstOfInode(fsz: seq<nat>, isreg: seq<bool>, ino: seq<nat>, dev: seq<nat>, i: nat, j: nat)
    returns (f: nat)
    requires |fsz| == |isreg| == |ino| == |dev| && i < |fsz| && LinkOf(fsz, isreg, ino, dev, i, j)
    ensures LinkOf(fsz, isreg, ino, dev, i, f) && !IsLink(fsz, isreg, ino, dev, f)
    decreases j
  {
    f := j;
    if IsLink(fsz, isreg, ino, dev, j) {
      var j' :| LinkOf(fsz, isreg, ino, dev, j, j');
      f := FirstOfInode(fsz, isreg, ino, dev, i, j');
    }
  }

  /** Probing that ends at a free slot proves that no earlier file has the inode. */
  lemma NotALink(fx: seq<nat>, fsz: seq<nat>, isreg: seq<bool>, ino: seq<nat>, dev: seq<nat>, i: nat, n: nat)
    requires |fsz| == |isreg| == |ino| == |dev| && Entered(fx, fsz, isreg, ino, dev, i) && i < |fsz|
    requires Passed(fx, ino, dev, i, n)
    requires fx[Slot(HashOf(ino[i], dev[i]), n, |fx|)] == 0
    ensures !IsLink(fsz, isreg, ino, dev, i)
  {
    hide Slot, HashOf, Entered, Passed, OtherInode;
    if IsLink(fsz, isreg, ino, dev, i) {
      var j :| LinkOf(fsz, isreg, ino, dev, i, j);
      var f := FirstOfInode(fsz, isreg, ino, dev, i, j);
      FirstProbed(fx, fsz, isreg, ino, dev, i, f, n);
    }
  }

  /** The first file of the inode is met while probing. */
  lemma FirstProbed(fx: seq<nat>, fsz: seq<nat>, isreg: seq<bool>, ino: seq<nat>, dev: seq<nat>, i: nat, f: nat, n: nat)
    requires |fsz| == |isreg| == |ino| == |dev| && Entered(fx, fsz, isreg, ino, dev, i) && i < |fsz| && |fx| > 0
    requires fx[Slot(HashOf(ino[i], dev[i]), n, |fx|)] == 0
    requires LinkOf(fsz, isreg, ino, dev, i, f) && !IsLink(fsz, isreg, ino, dev, f)
    ensures !Passed(fx, ino, dev, i, n)
  {
    hide Slot, HashOf, IsLink;
    assert Stored(fx, HashOf(ino[f], dev[f]), f);
    var m :| StoredAt(fx, HashOf(ino[i], dev[i]), f, m);
    StoredBefore(fx, HashOf(ino[i], dev[i]), f, m, n);
    assert !OtherInode(fx[Slot(HashOf(ino[i], dev[i]), m, |fx|)], ino, dev, i);
  }

  lemma SomeFree(fx: seq<nat>, fsz: seq<nat>, isreg: seq<bool>, ino: seq<nat>, dev: seq<nat>, n: nat) returns (s: nat)
    requires |fsz| == |isreg| == |ino| == |dev| && Entered(fx, fsz, isreg, ino, dev, n) && n < |fx|
    ensures s < |fx| && fx[s] == 0
  {
    if forall s :: 0 <= s < |fx| ==> fx[s] != 0 {
      DistinctCount(fx, UpTo(n));
    }
    s :| 0 <= s < |fx| && fx[s] == 0;
  }

  /** Four times the largest power of two up to n. */
  method LinkTableSize(n: nat) returns (size: nat, ghost k: nat)
    requires n > 0
    ensures PowerSize(size, k) && 2 * n < size
  {
    var top := 1;
    k := 0;
    assert Pow2(0) == 1;
    while 2 * top <= n
      invariant 0 < top <= n && top == Pow2(k)
      decreases n - top
    {
      top, k := 2 * top, k + 1;
    }
    size, k := 4 * top, k + 2;
    assert Pow2(k) == 2 * Pow2(k - 1) && Pow2(k - 1) == 2 * Pow2(k - 2);
  }

  /** Kill the sizes of hard links: (inode, device) pairs seen before. */
  method KillLinks(fsz: array<nat>, isreg: seq<bool>, ino: seq<nat>, dev: seq<nat>)
    requires 0 < fsz.Length == |isreg| == |ino| == |dev|
    modifies fsz
    ensures LinksKilled(old(fsz[..]), isreg, ino, dev, fsz.Length, fsz[..])
  {
    hide Entered, LinksKilled, IsLink, PowerSize, Slot, Wrap;
    ghost var sizes := fsz[..];
    var size, k := LinkTableSize(fsz.Length);
    var fx := new nat[size](_ => 0);
    EnteredNone(fx[..], sizes, isreg, ino, dev);
    KilledNone(sizes, isreg, ino, dev);
    for i := 0 to fsz.Length
      invariant fx.Length == size && Entered(fx[..], sizes, isreg, ino, dev, i)
      invariant LinksKilled(sizes, isreg, ino, dev, i, fsz[..])
    {
      KilledRest(sizes, isreg, ino, dev, i, fsz[..]);
      if fsz[i] == 0 || !isreg[i] {
        NotCounted(sizes, isreg, ino, dev, i);
        EnteredSkip(fx[..], sizes, isreg, ino, dev, i);
        KilledNext(sizes, isreg, ino, dev, i, fsz[..]);
        continue;
      }
      ghost var a := fsz[..];
      var dup := EnterInode(fx, sizes, isreg, ino, dev, i, k);
      if dup {
        fsz[i] := 0;
      }
      assert fsz[..] == if dup then a[i := 0] else a;
      KilledNext(sizes, isreg, ino, dev, i, a);
    }
  }

  /** Look the inode of file i up; enter it if it is new. */
  method EnterInode(fx: array<nat>, ghost fsz: seq<nat>, ghost isreg: seq<bool>, ino: seq<nat>, dev: seq<nat>,
      i: nat, ghost k: nat)
    returns (dup: bool)
    requires |fsz| == |isreg| == |ino| == |dev| && i < |fsz| && Counts(fsz, isreg, i)
    requires PowerSize(fx.Length, k) && i < fx.Length && Entered(fx[..], fsz, isreg, ino, dev, i)
    modifies fx
    ensures dup <==> IsLink(fsz, isreg, ino, dev, i)
    ensures Entered(fx[..], fsz, isreg, ino, dev, i + 1)
  {
    hide Entered, IsLink, PowerSize, Slot, Wrap, Busy, Passed;
    ghost var a, hash := fx[..], HashOf(ino[i], dev[i]);
    ghost var free := SomeFree(a, fsz, isreg, ino, dev, i);
    ghost var last := Within(k, hash, free, fx.Length);
    SlotStart(hash, fx.Length);
    var h, hh := Wrap(HashOf(ino[i], dev[i]), fx.Length), 7;
    ghost var n := 0;
    PassedNone(a, ino, dev, i);
    while fx[h] != 0
      invariant h < fx.Length && h == Slot(hash, n, fx.Length) && hh == 7 + n && n <= last
      invariant Passed(a, ino, dev, i, n) && fx[..] == a
      decreases last - n
    {
      var j := fx[h];
      EntryCounts(a, fsz, isreg, ino, dev, i, h);
      if ino[j - 1] == ino[i] && dev[j - 1] == dev[i] {
        FoundLink(fsz, isreg, ino, dev, i, j - 1);
        EnteredSkip(a, fsz, isreg, ino, dev, i);
        return true;
      }
      SlotStep(hash, n + 1, fx.Length);
      PassedNext(a, ino, dev, i, n);
      PassedBusy(a, ino, dev, i, n + 1);
      h, hh, n := Wrap(h + hh, fx.Length), hh + 1, n + 1;
      FreeBound(a, hash, n, last);
    }
    NotALink(a, fsz, isreg, ino, dev, i, n);
    PassedBusy(a, ino, dev, i, n);
    EnteredAdd(a, fsz, isreg, ino, dev, i, n, h);
    var e: nat := i + 1;
    fx[h] := e;
    assert fx[..] == a[h := e];
    return false;
  }

  lemma PassedNone(fx: seq<nat>, ino: seq<nat>, dev: seq<nat>, i: nat)
    requires i < |ino| == |dev| && |fx| > 0
    ensures Passed(fx, ino, dev, i, 0)
  {
  }

  lemma PassedNext(fx: seq<nat>, ino: seq<nat>, dev: seq<nat>, i: nat, n: nat)
    requires i < |ino| == |dev| && Passed(fx, ino, dev, i, n)
    requires OtherInode(fx[Slot(HashOf(ino[i], dev[i]), n, |fx|)], ino, dev, i)
    ensures Passed(fx, ino, dev, i, n + 1)
  {
    hide Slot, HashOf;
  }

  lemma EntryCounts(fx: seq<nat>, fsz: seq<nat>, isreg: seq<bool>, ino: seq<nat>, dev: seq<nat>, i: nat, h: nat)
    requires |fsz| == |isreg| == |ino| == |dev| && Entered(fx, fsz, isreg, ino, dev, i) && h < |fx| && fx[h] != 0
    ensures 0 < fx[h] <= i <= |ino| && Counts(fsz, isreg, fx[h] - 1)
  {
  }

  lemma FoundLink(fsz: seq<nat>, isreg: seq<bool>, ino: seq<nat>, dev: seq<nat>, i: nat, j: nat)
    requires |fsz| == |isreg| == |ino| == |dev| && i < |fsz| && Counts(fsz, isreg, i)
    requires LinkOf(fsz, isreg, ino, dev, i, j)
    ensures IsLink(fsz, isreg, ino, dev, i)
  {
  }

  lemma NotCounted(fsz: seq<nat>, isreg: seq<bool>, ino: seq<nat>, dev: seq<nat>, i: nat)
    requires |fsz| == |isreg| == |ino| == |dev| && i < |fsz| && (fsz[i] == 0 || !isreg[i])
    ensures !Counts(fsz, isreg, i) && !IsLink(fsz, isreg, ino, dev, i)
  {
  }

  lemma KilledNone(fsz: seq<nat>, isreg: seq<bool>, ino: seq<nat>, dev: seq<nat>)
    requires |fsz| == |isreg| == |ino| == |dev|
    ensures LinksKilled(fsz, isreg, ino, dev, 0, fsz)
  {
  }

  lemma KilledRest(fsz: seq<nat>, isreg: seq<bool>, ino: seq<nat>, dev: seq<nat>, i: nat, out: seq<nat>)
    requires |fsz| == |isreg| == |ino| == |dev| && LinksKilled(fsz, isreg, ino, dev, i, out) && i < |fsz|
    ensures |out| == |fsz| && out[i] == fsz[i]
  {
  }

  lemma KilledNext(fsz: seq<nat>, isreg: seq<bool>, ino: seq<nat>, dev: seq<nat>, i: nat, out: seq<nat>)
    requires |fsz| == |isreg| == |ino| == |dev| && LinksKilled(fsz, isreg, ino, dev, i, out) && i < |fsz|
    ensures LinksKilled(fsz, isreg, ino, dev, i + 1, if IsLink(fsz, isreg, ino, dev, i) then out[i := 0] else out)
  {
    hide IsLink;
  }

  // ----- sums per directory -----

  /** Files of the first n in directory d. */
  function CountIn(di: seq<nat>, d: nat, n: nat): nat
    requires n <= |di|
  {
    if n == 0 then 0 else CountIn(di, d, n - 1) + if di[n - 1] == d then 1 else 0
  }

  /** Kilobytes of the first n files in directory d. */
  function SizeIn(fsz: seq<nat>, isreg: seq<bool>, di: seq<nat>, d: nat, n: nat): nat
    requires n <= |di| == |fsz| == |isreg|
  {
    if n == 0 then 0
    else SizeIn(fsz, isreg, di, d, n - 1) + if di[n - 1] == d && Counts(fsz, isreg, n - 1) then fsz[n - 1] else 0
  }

  ghost function FilesIn(di: seq<nat>, d: nat, n: nat): set<int>
    requires n <= |di|
  {
    set i | 0 <= i < n && di[i] == d
  }

  lemma {:induction false} CountMeans(di: seq<nat>, d: nat, n: nat)
    requires n <= |di|
    ensures CountIn(di, d, n) == |FilesIn(di, d, n)|
  {
    if n > 0 {
      CountMeans(di, d, n - 1);
      var s, t := FilesIn(di, d, n - 1), FilesIn(di, d, n);
      assert t == if di[n - 1] == d then s + {n - 1} else s;
    }
  }

  /** A file adds its size to its own directory, if it is a regular file, and without sizes there is nothing. */
  lemma {:induction false} SizeShare(fsz: seq<nat>, isreg: seq<bool>, di: seq<nat>, d: nat, n: nat, i: nat)
    requires i < n <= |di| == |fsz| == |isreg|
    ensures SizeIn(fsz, isreg, di, d, n)
      == SizeIn(fsz[i := 0], isreg, di, d, n) + if di[i] == d && isreg[i] then fsz[i] else 0
    ensures (forall j :: 0 <= j < |fsz| ==> fsz[j] == 0) ==> SizeIn(fsz, isreg, di, d, n) == 0
  {
    if i < n - 1 {
      SizeShare(fsz, isreg, di, d, n - 1, i);
    } else {
      SizeElsewhere(fsz, isreg, di, d, n - 1, i);
    }
  }

  lemma {:induction false} SizeElsewhere(fsz: seq<nat>, isreg: seq<bool>, di: seq<nat>, d: nat, n: nat, i: nat)
    requires n <= i < |di| == |fsz| == |isreg|
    ensures SizeIn(fsz[i := 0], isreg, di, d, n) == SizeIn(fsz, isreg, di, d, n)
    ensures (forall j :: 0 <= j < |fsz| ==> fsz[j] == 0) ==> SizeIn(fsz, isreg, di, d, n) == 0
  {
    if n > 0 { SizeElsewhere(fsz, isreg, di, d, n - 1, i); }
  }

  /** Kilobytes of the first n files in any of the dc directories. */
  function SizeTotal(fsz: seq<nat>, isreg: seq<bool>, di: seq<nat>, dc: nat, n: nat): nat
    requires n <= |di| == |fsz| == |isreg|
  {
    if n == 0 then 0
    else SizeTotal(fsz, isreg, di, dc, n - 1) + if di[n - 1] < dc && Counts(fsz, isreg, n - 1) then fsz[n - 1] else 0
  }

  /** The sizes over directories 0..d added up. */
  function SumOver(fsz: seq<nat>, isreg: seq<bool>, di: seq<nat>, d: nat): nat
    requires |di| == |fsz| == |isreg|
  {
    if d == 0 then 0 else SumOver(fsz, isreg, di, d - 1) + SizeIn(fsz, isreg, di, d - 1, |di|)
  }

  lemma {:induction false} OneMoreDir(fsz: seq<nat>, isreg: seq<bool>, di: seq<nat>, d: nat, n: nat)
    requires n <= |di| == |fsz| == |isreg|
    ensures SizeTotal(fsz, isreg, di, d + 1, n) == SizeTotal(fsz, isreg, di, d, n) + SizeIn(fsz, isreg, di, d, n)
  {
    if n > 0 { OneMoreDir(fsz, isreg, di, d, n - 1); }
  }

  lemma {:induction false} NoDirs(fsz: seq<nat>, isreg: seq<bool>, di: seq<nat>, n: nat)
    requires n <= |di| == |fsz| == |isreg|
    ensures SizeTotal(fsz, isreg, di, 0, n) == 0
  {
    if n > 0 { NoDirs(fsz, isreg, di, n - 1); }
  }

  /** Nothing is lost: the directories' sizes add up to the size of all files with a valid directory. */
  lemma {:induction false} Conserved(fsz: seq<nat>, isreg: seq<bool>, di: seq<nat>, dc: nat)
    requires |di| == |fsz| == |isreg|
    ensures SumOver(fsz, isreg, di, dc) == SizeTotal(fsz, isreg, di, dc, |di|)
  {
    if dc == 0 {
      NoDirs(fsz, isreg, di, |di|);
    } else {
      Conserved(fsz, isreg, di, dc - 1);
      OneMoreDir(fsz, isreg, di, dc - 1, |di|);
    }
  }

  /** The size of each inode once, at its first file, where that has a valid directory. */
  ghost function InodeTotal(fsz: seq<nat>, isreg: seq<bool>, ino: seq<nat>, dev: seq<nat>, di: seq<nat>, dc: nat,
      n: nat): nat
    requires n <= |di| == |fsz| == |isreg| == |ino| == |dev|
  {
    if n == 0 then 0
    else InodeTotal(fsz, isreg, ino, dev, di, dc, n - 1) +
         if di[n - 1] < dc && Counts(fsz, isreg, n - 1) && !IsLink(fsz, isreg, ino, dev, n - 1) then fsz[n - 1] else 0
  }

  /** With the links killed, the total is over distinct inodes. */
  lemma {:induction false} TotalOfInodes(fsz: seq<nat>, isreg: seq<bool>, ino: seq<nat>, dev: seq<nat>, di: seq<nat>,
      dc: nat, out: seq<nat>, n: nat)
    requires n <= |di| == |fsz| == |isreg| == |ino| == |dev| && LinksKilled(fsz, isreg, ino, dev, |fsz|, out)
    ensures SizeTotal(out, isreg, di, dc, n) == InodeTotal(fsz, isreg, ino, dev, di, dc, n)
  {
    hide IsLink;
    if n > 0 { TotalOfInodes(fsz, isreg, ino, dev, di, dc, out, n - 1); }
  }

  /** The directories' sizes add up to the total over distinct inodes. */
  lemma UsageConserved(fsz: seq<nat>, isreg: seq<bool>, ino: seq<nat>, dev: seq<nat>, di: seq<nat>, dc: nat,
                       kept: seq<nat>)
    requires |di| == |fsz| == |isreg| == |ino| == |dev| && LinksKilled(fsz, isreg, ino, dev, |fsz|, kept)
    ensures |kept| == |fsz| && SumOver(kept, isreg, di, dc) == InodeTotal(fsz, isreg, ino, dev, di, dc, |di|)
  {
    hide IsLink;
    Conserved(kept, isreg, di, dc);
    TotalOfInodes(fsz, isreg, ino, dev, di, dc, kept, |di|);
  }

  lemma WrapSum(a: nat, b: nat)
    ensures (a % U32 + b) % U32 == (a + b) % U32
  {
  }

  /** Count files and add up 32-bit kilobyte sums for each directory. */
  method SumUp(fsz: seq<nat>, isreg: seq<bool>, di: seq<nat>, dc: nat) returns (fn: array<nat>, fkb: array<nat>)
    requires |di| == |fsz| == |isreg|
    ensures fn.Length == fkb.Length == dc && fresh(fn) && fresh(fkb)
    ensures forall d ::
      0 <= d < dc ==> fn[d] == CountIn(di, d, |di|) % U32 && fkb[d] == SizeIn(fsz, isreg, di, d, |di|) % U32
  {
    fn, fkb := new nat[dc](_ => 0), new nat[dc](_ => 0);
    for i := 0 to |di|
      invariant fn.Length == fkb.Length == dc && fresh(fn) && fresh(fkb) && fn != fkb
      invariant forall d ::
        0 <= d < dc ==> fn[d] == CountIn(di, d, i) % U32 && fkb[d] == SizeIn(fsz, isreg, di, d, i) % U32
    {
      var d := di[i];
      if d >= dc {
        continue;
      }
      WrapSum(CountIn(di, d, i), 1);
      fn[d] := (fn[d] + 1) % U32;
      if fsz[i] == 0 || !isreg[i] {
        continue;
      }
      WrapSum(SizeIn(fsz, isreg, di, d, i), fsz[i]);
      fkb[d] := (fkb[d] + fsz[i]) % U32;
    }
  }

  /** What the header gives for one kind of entry; lists of the wrong length are as good as none. */
  predicate Usable<T>(l: Option<seq<T>>, fc: nat) {
    l.Some? && |l.value| == fc
  }

  /** Disk usage of a package with fc files in dc directories: per directory the number of files and the kilobytes. */
  method AddDuData(sizes: Option<seq<nat>>, isreg: Option<seq<bool>>, ino: Option<seq<nat>>, dev: Option<seq<nat>>,
      di: seq<nat>, dc: nat)
    returns (r: Option<(array<nat>, array<nat>)>, ghost kept: seq<nat>)
    ensures r.Some? <==>
      (|di| > 0 && Usable(sizes, |di|) && Usable(isreg, |di|) && Usable(ino, |di|) &&
       (Usable(dev, |di|) || (|di| < 1024 && BitsDiffer(InKilobytes(sizes.value), isreg.value, ino.value, |di|))))
    ensures r.Some? && Usable(dev, |di|) ==>
      LinksKilled(InKilobytes(sizes.value), isreg.value, ino.value, dev.value, |di|, kept)
    ensures r.Some? && !Usable(dev, |di|) ==> kept == InKilobytes(sizes.value)
    ensures r.Some? ==> |kept| == |di| && r.value.0.Length == r.value.1.Length == dc && forall d :: 0 <= d < dc ==>
      r.value.0[d] == CountIn(di, d, |di|) % U32 && r.value.1[d] == SizeIn(kept, isreg.value, di, d, |di|) % U32
  {
    hide LinksKilled, BitsDiffer;
    kept := [];
    var fc := |di|;
    if fc == 0 || sizes.None? || |sizes.value| != fc {
      return None, [];
    }
    var kb := InKilobytes(sizes.value);
    if isreg.None? || |isreg.value| != fc || ino.None? || |ino.value| != fc {
      return None, [];
    }
    var inotestok := QuickTest(kb, isreg.value, ino.value);
    var fsz := kb;
    if !inotestok {
      if dev.None? || |dev.value| != fc {
        return None, [];
      }
      var a := new nat[fc](i requires 0 <= i < fc => kb[i]);
      assert a[..] == kb;
      KillLinks(a, isreg.value, ino.value, dev.value);
      fsz := a[..];
    } else if dev.Some? && |dev.value| == fc {
      QuickTestSound(kb, isreg.value, ino.value, dev.value);
    }
    kept := fsz;
    var fn, fkb := SumUp(fsz, isreg.value, di, dc);
    r := Some((fn, fkb));
  }
}
