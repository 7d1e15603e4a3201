/** Dependencies, providers and literal blocks: what the normaliser's queue contents mean. */
module DepBlocks {

  /** A dependency. `Simple` covers every name and every relation other than the five named ones. */
  datatype Dep =
    | Simple(id: nat)
    | And(name: Dep, evr: Dep)
    | Or(name: Dep, evr: Dep)
    | Cond(name: Dep, evr: Dep)
    | Unless(name: Dep, evr: Dep)
    | Else(name: Dep, evr: Dep)

  ghost function Size(d: Dep): (n: nat)
    ensures n > 0
  {
    match d
    case Simple(_) => 1
    case And(a, b) => 1 + Size(a) + Size(b)
    case Or(a, b) => 1 + Size(a) + Size(b)
    case Cond(a, b) => 1 + Size(a) + Size(b)
    case Unless(a, b) => 1 + Size(a) + Size(b)
    case Else(a, b) => 1 + Size(a) + Size(b)
  }

  /** Complex dependencies are AND, COND and UNLESS, and any OR holding one. */
  predicate Complex(d: Dep) {
    match d
    case Simple(_) => false
    case And(_, _) => true
    case Or(a, b) => Complex(a) || Complex(b)
    case Cond(_, _) => true
    case Unless(_, _) => true
    case Else(_, _) => false
  }

  const SYSTEMSOLVABLE := 1

  /** The provider table: `whatprovides` is an offset into the zero-terminated lists in `data`. */
  datatype Pool = Pool(nsolvables: int, data: seq<int>, whatprovides: Dep -> int, matches: (int, Dep) -> bool)

  /** The zero-terminated list at offset dp. */
  function List(data: seq<int>, dp: int): seq<int>
    requires 0 <= dp
    decreases |data| - dp
  {
    if dp >= |data| || data[dp] == 0 then [] else [data[dp]] + List(data, dp + 1)
  }

  lemma ListStep(data: seq<int>, i: nat)
    ensures i >= |data| || data[i] == 0 ==> List(data, i) == []
    ensures i < |data| && data[i] != 0 ==> List(data, i) == [data[i]] + List(data, i + 1)
  {
  }

  ghost predicate Ascending(s: seq<int>) {
    forall i, j :: 0 <= i < j < |s| ==> s[i] < s[j]
  }

  ghost predicate Valid(pool: Pool) {
    && pool.nsolvables > 1
    && |pool.data| >= 4 && pool.data[|pool.data| - 1] == 0
    && pool.data[0] == 0 && pool.data[1] == 0 && pool.data[2] == SYSTEMSOLVABLE && pool.data[3] == 0
    && forall d :: ValidList(pool, pool.whatprovides(d))
  }

  ghost predicate ValidList(pool: Pool, dp: int) {
    && 0 <= dp < |pool.data|
    && Ascending(List(pool.data, dp))
    && forall p :: p in List(pool.data, dp) ==> 0 < p < pool.nsolvables
  }

  function Providers(pool: Pool, d: Dep): seq<int>
    requires pool.whatprovides(d) >= 0
  {
    List(pool.data, pool.whatprovides(d))
  }

  // ----- what a dependency means under a set of chosen packages -----

  /** A provider list that starts with the system solvable always holds; otherwise a provider must be chosen. */
  ghost predicate LeafHolds(pool: Pool, d: Dep, named: bool, chosen: set<int>)
    requires Valid(pool)
  {
    var l := Providers(pool, d);
    (l != [] && l[0] == SYSTEMSOLVABLE) || exists p :: p in l && p in chosen && (named ==> pool.matches(p, d))
  }

  ghost predicate Holds(pool: Pool, d: Dep, named: bool, chosen: set<int>)
    requires Valid(pool)
    decreases d
  {
    if !Complex(d) then LeafHolds(pool, d, named, chosen)
    else match d
      case And(a, b) => Holds(pool, a, named, chosen) && Holds(pool, b, named, chosen)
      case Or(a, b) => Holds(pool, a, named, chosen) || Holds(pool, b, named, chosen)
      case Cond(a, Else(b, c)) =>
        if Holds(pool, b, named, chosen) then Holds(pool, a, named, chosen) else Holds(pool, c, named, chosen)
      case Cond(a, b) => Holds(pool, b, named, chosen) ==> Holds(pool, a, named, chosen)
      case Unless(a, Else(b, c)) =>
        if Holds(pool, b, named, chosen) then Holds(pool, c, named, chosen) else Holds(pool, a, named, chosen)
      case Unless(a, b) => Holds(pool, a, named, chosen) && !Holds(pool, b, named, chosen)
  }

  // ----- literals and blocks -----

  predicate LitTrue(x: int, chosen: set<int>) {
    if x > 0 then x in chosen else -x !in chosen
  }

  ghost predicate AnyTrue(l: seq<int>, chosen: set<int>) {
    exists x :: x in l && LitTrue(x, chosen)
  }

  ghost predicate AllTrue(l: seq<int>, chosen: set<int>) {
    forall x :: x in l ==> LitTrue(x, chosen)
  }

  /** A literal list with no complementary pair. */
  ghost predicate Clash(l: seq<int>) {
    exists x :: x in l && -x in l
  }

  ghost predicate GoodLits(ns: int, l: seq<int>) {
    && l != [] && Ascending(l) && !Clash(l)
    && forall x :: x in l ==> x != 0 && -ns < x < ns
  }

  /** A block in the queue: literals, or a not yet expanded marker with a list offset. */
  datatype Block = Lits(l: seq<int>) | Marker(dp: int)

  function BlockLits(pool: Pool, b: Block): seq<int>
    requires b.Marker? ==> b.dp >= 0
  {
    match b
    case Lits(l) => l
    case Marker(dp) => List(pool.data, dp)
  }

  ghost predicate GoodBlock(pool: Pool, b: Block) {
    (b.Marker? ==> 0 < b.dp < |pool.data|) && GoodLits(pool.nsolvables, BlockLits(pool, b))
  }

  ghost predicate GoodBlocks(pool: Pool, bs: seq<Block>) {
    forall i :: 0 <= i < |bs| ==> GoodBlock(pool, bs[i])
  }

  /** The literal lists of blocks. */
  ghost function Plain(pool: Pool, bs: seq<Block>): (ls: seq<seq<int>>)
    requires GoodBlocks(pool, bs)
    ensures |ls| == |bs|
    ensures forall i :: 0 <= i < |bs| ==> ls[i] == BlockLits(pool, bs[i])
  {
    seq(|bs|, i requires 0 <= i < |bs| => BlockLits(pool, bs[i]))
  }

  ghost predicate GoodLists(ns: int, ls: seq<seq<int>>) {
    forall i :: 0 <= i < |ls| ==> GoodLits(ns, ls[i])
  }

  ghost function Wrap(ls: seq<seq<int>>): (bs: seq<Block>)
    ensures |bs| == |ls|
    ensures forall i :: 0 <= i < |ls| ==> bs[i] == Lits(ls[i])
  {
    seq(|ls|, i requires 0 <= i < |ls| => Lits(ls[i]))
  }

  /** Literal lists read as a conjunction of disjunctions, or the other way round. */
  ghost predicate Reads(ls: seq<seq<int>>, dnf: bool, chosen: set<int>) {
    if dnf then exists i :: 0 <= i < |ls| && AllTrue(ls[i], chosen)
    else forall i :: 0 <= i < |ls| ==> AnyTrue(ls[i], chosen)
  }

  // ----- the queue encoding -----

  function EncodeBlock(ns: int, b: Block): seq<int> {
    match b
    case Lits(l) => l + [0]
    case Marker(dp) => [ns, dp, 0]
  }

  ghost function Encode(ns: int, bs: seq<Block>): seq<int> {
    if bs == [] then [] else EncodeBlock(ns, bs[0]) + Encode(ns, bs[1..])
  }

  ghost function EncodeLists(ls: seq<seq<int>>): seq<int> {
    if ls == [] then [] else ls[0] + [0] + EncodeLists(ls[1..])
  }

  lemma Joined(x: seq<int>, y: seq<int>, z: seq<int>)
    ensures x + y + z == x + (y + z)
  {
  }

  lemma {:induction false} EncodeAppend(ns: int, a: seq<Block>, b: seq<Block>)
    ensures Encode(ns, a + b) == Encode(ns, a) + Encode(ns, b)
    decreases |a|
  {
    hide EncodeBlock;
    if a == [] {
      assert a + b == b;
    } else {
      EncodeAppend(ns, a[1..], b);
      assert (a + b)[1..] == a[1..] + b;
      Joined(EncodeBlock(ns, a[0]), Encode(ns, a[1..]), Encode(ns, b));
    }
  }

  lemma {:induction false} EncodeListsAppend(a: seq<seq<int>>, b: seq<seq<int>>)
    ensures EncodeLists(a + b) == EncodeLists(a) + EncodeLists(b)
    decreases |a|
  {
    if a == [] {
      assert a + b == b;
    } else {
      EncodeListsAppend(a[1..], b);
      assert (a + b)[1..] == a[1..] + b;
      Joined(a[0] + [0], EncodeLists(a[1..]), EncodeLists(b));
    }
  }

  lemma {:induction false} EncodeWrap(ns: int, ls: seq<seq<int>>)
    ensures Encode(ns, Wrap(ls)) == EncodeLists(ls)
    decreases |ls|
  {
    if ls != [] {
      EncodeWrap(ns, ls[1..]);
      assert Wrap(ls)[1..] == Wrap(ls[1..]);
    }
  }

  // ----- expansion of markers on the flat queue -----

  /** A run of whole tokens: every marker is followed by its offset. */
  ghost predicate WholeTokens(ns: int, s: seq<int>) {
    s == [] || (if s[0] == ns then |s| >= 2 && s[1] >= 0 && WholeTokens(ns, s[2..]) else WholeTokens(ns, s[1..]))
  }

  /** The queue contents with every marker replaced by its provider list. */
  ghost function Expanded(pool: Pool, s: seq<int>): seq<int>
    requires WholeTokens(pool.nsolvables, s)
  {
    if s == [] then []
    else if s[0] == pool.nsolvables then List(pool.data, s[1]) + Expanded(pool, s[2..])
    else [s[0]] + Expanded(pool, s[1..])
  }

  /** Literals pass through expansion unchanged. */
  lemma {:induction false} ExpandedLits(pool: Pool, l: seq<int>, s: seq<int>)
    requires pool.nsolvables > 0 && forall x :: x in l ==> -pool.nsolvables < x < pool.nsolvables
    requires WholeTokens(pool.nsolvables, s)
    ensures WholeTokens(pool.nsolvables, l + s)
    ensures Expanded(pool, l + s) == l + Expanded(pool, s)
    decreases |l|
  {
    if l == [] {
      assert l + s == s;
    } else {
      assert forall x :: x in l[1..] ==> x in l;
      ExpandedLits(pool, l[1..], s);
      assert l[0] in l;
      assert (l + s)[1..] == l[1..] + s;
    }
  }

  /** Expanding encoded blocks gives the encoding of their literal lists. */
  lemma {:induction false} ExpandedEncode(pool: Pool, bs: seq<Block>)
    requires pool.nsolvables > 1 && GoodBlocks(pool, bs)
    ensures WholeTokens(pool.nsolvables, Encode(pool.nsolvables, bs))
    ensures Expanded(pool, Encode(pool.nsolvables, bs)) == EncodeLists(Plain(pool, bs))
    decreases |bs|
  {
    hide GoodLits, WholeTokens, Expanded;
    if bs == [] {
      ExpandedEmpty(pool);
    } else {
      ExpandedEncode(pool, bs[1..]);
      assert Plain(pool, bs)[1..] == Plain(pool, bs[1..]);
      assert GoodBlock(pool, bs[0]);
      ExpandedBlock(pool, bs[0], Encode(pool.nsolvables, bs[1..]));
    }
  }

  lemma ExpandedEmpty(pool: Pool)
    ensures WholeTokens(pool.nsolvables, []) && Expanded(pool, []) == []
  {
  }

  /** A marker expands to its list. */
  lemma ExpandedMarker(pool: Pool, dp: int, rest: seq<int>)
    requires pool.nsolvables > 1 && 0 < dp && WholeTokens(pool.nsolvables, rest)
    ensures WholeTokens(pool.nsolvables, [pool.nsolvables, dp] + rest)
    ensures Expanded(pool, [pool.nsolvables, dp] + rest) == List(pool.data, dp) + Expanded(pool, rest)
  {
    hide List;
    assert ([pool.nsolvables, dp] + rest)[2..] == rest;
  }

  lemma ExpandedBlock(pool: Pool, b: Block, rest: seq<int>)
    requires pool.nsolvables > 1 && GoodBlock(pool, b) && WholeTokens(pool.nsolvables, rest)
    ensures WholeTokens(pool.nsolvables, EncodeBlock(pool.nsolvables, b) + rest)
    ensures Expanded(pool, EncodeBlock(pool.nsolvables, b) + rest) == BlockLits(pool, b) + [0] + Expanded(pool, rest)
  {
    hide WholeTokens, Expanded, List;
    match b {
      case Lits(l) =>
        ExpandedLits(pool, l + [0], rest);
      case Marker(dp) =>
        ExpandedLits(pool, [0], rest);
        ExpandedMarker(pool, dp, [0] + rest);
        assert EncodeBlock(pool.nsolvables, b) + rest == [pool.nsolvables, dp] + ([0] + rest);
        Joined(List(pool.data, dp), [0], Expanded(pool, rest));
    }
  }
}
