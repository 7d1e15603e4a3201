/** Packages' file lists, the rolling hash over path names, and what a file conflict is. */
module FileLists {
  import opened Common

  /** One file of a package header: its directory is dirs[diridx] of the package. */
  datatype File = File(diridx: nat, base: string, isdir: bool, isghost: bool, digest: string, color: bv8)

  datatype Package = Package(dirs: seq<string>, files: seq<File>)

  /** The hash of a string is built up character by character; any step function will do. */
  type Step = (nat, char) -> nat

  /** `strhash_cont`: extend the hash r by the characters of s. */
  function HashCont(step: Step, s: string, r: nat): nat {
    if s == [] then r else HashCont(step, s[1..], step(r, s[0]))
  }

  /** Key 0 is kept for free slots. */
  function NonZero(h: nat, len: nat): (r: nat)
    ensures r != 0
  {
    if h == 0 then len + 1 else h
  }

  function DirKey(step: Step, dir: string): (r: nat)
    ensures r != 0
  {
    NonZero(HashCont(step, dir, 0), |dir|)
  }

  function FileKey(step: Step, dir: string, base: string): (r: nat)
    ensures r != 0
  {
    NonZero(HashCont(step, base, HashCont(step, dir, 0)), |dir| + |base|)
  }

  /** Files the conflict search looks at: no ghosts, and only files in a non-empty directory. */
  predicate Listed(p: Package, k: nat) {
    k < |p.files| && !p.files[k].isghost && p.files[k].diridx < |p.dirs| && p.dirs[p.files[k].diridx] != ""
  }

  function Dir(p: Package, k: nat): string
    requires Listed(p, k)
  {
    p.dirs[p.files[k].diridx]
  }

  function Path(p: Package, k: nat): string
    requires Listed(p, k)
  {
    Dir(p, k) + p.files[k].base
  }

  /** The name's split into directory and base name is at its last slash. */
  ghost predicate SplitAtSlash(p: Package) {
    forall k: nat :: Listed(p, k) ==> Dir(p, k)[|Dir(p, k)| - 1] == '/' && '/' !in p.files[k].base
  }

  /** No path twice in one package. */
  ghost predicate PathsOnce(p: Package) {
    forall j: nat, k: nat :: Listed(p, j) && Listed(p, k) && Path(p, j) == Path(p, k) ==> j == k
  }

  lemma SlashInside(a: string, b: string, c: string, d: string)
    requires |a| < |c| && c[|c| - 1] == '/' && a + b == c + d
    ensures '/' in b
  {
    assert (a + b)[|c| - 1] == b[|c| - 1 - |a|];
    assert (c + d)[|c| - 1] == c[|c| - 1];
  }

  /** Equal paths have equal directories and base names. */
  lemma PathSplit(a: string, b: string, c: string, d: string)
    requires a != "" && c != "" && a[|a| - 1] == '/' && c[|c| - 1] == '/' && '/' !in b && '/' !in d && a + b == c + d
    ensures a == c && b == d
  {
    if |a| < |c| {
      SlashInside(a, b, c, d);
    } else if |c| < |a| {
      SlashInside(c, d, a, b);
    }
    assert a == (a + b)[..|a|] && c == (c + d)[..|c|];
    assert b == (a + b)[|a|..] && d == (c + d)[|c|..];
  }

  /** Only the first 32 characters of a digest are kept. */
  function Digest32(s: string): (r: string)
    ensures r <= s && |r| == if |s| < 32 then |s| else 32
  {
    if |s| > 32 then s[..32] else s
  }

  /** Files conflict when their digests differ, unless both have colours and the colours do not overlap. */
  predicate Clash(usecolors: bool, d1: string, c1: bv8, d2: string, c2: bv8) {
    d1 != d2 && !(usecolors && c1 != 0 && c2 != 0 && (c1 & c2) == 0)
  }

  /** Without colours in use, or with an uncoloured file, the digests alone decide; otherwise the files must also share
      one of the eight colours. */
  lemma ClashMeans(usecolors: bool, d1: string, c1: bv8, d2: string, c2: bv8)
    ensures Clash(usecolors, d1, c1, d2, c2) <==>
      d1 != d2 &&
      (usecolors && c1 != 0 && c2 != 0 ==>
         Both(c1, c2, 1) || Both(c1, c2, 2) || Both(c1, c2, 4) || Both(c1, c2, 8) || Both(c1, c2, 16)
         || Both(c1, c2, 32) || Both(c1, c2, 64) || Both(c1, c2, 128))
  {
  }

  predicate Both(c1: bv8, c2: bv8, m: bv8) {
    c1 & m == m && c2 & m == m
  }

  /** A reported conflict: path, and package position and digest on either side. */
  datatype Conflict = Conflict(path: string, idx1: nat, digest1: string, idx2: nat, digest2: string)

  type Packages = seq<Option<Package>>

  ghost predicate Has(pkgs: Packages, i: nat, k: nat) {
    i < |pkgs| && pkgs[i].Some? && Listed(pkgs[i].value, k)
  }

  /** The conflicts found by comparing every file with every other. */
  ghost predicate Naive(pkgs: Packages, cutoff: nat, usecolors: bool, i: nat, p: nat, j: nat, q: nat) {
    && Has(pkgs, i, p) && Has(pkgs, j, q) && i < j && i < cutoff
    && Path(pkgs[i].value, p) == Path(pkgs[j].value, q)
    && var f, g := pkgs[i].value.files[p], pkgs[j].value.files[q];
       Clash(usecolors, Digest32(f.digest), f.color, Digest32(g.digest), g.color)
  }

  ghost function Report(pkgs: Packages, i: nat, p: nat, j: nat, q: nat): Conflict
    requires Has(pkgs, i, p) && Has(pkgs, j, q)
  {
    Conflict(Path(pkgs[i].value, p), i, Digest32(pkgs[i].value.files[p].digest), j,
             Digest32(pkgs[j].value.files[q].digest))
  }
}
