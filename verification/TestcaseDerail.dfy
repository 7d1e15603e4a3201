/** A printed dependency with an operator that is not known or a name that does not end where it was printed to end: it
    is refused, or the names that come back are other ones. */
module TestcaseDerail {
  import opened Common
  import opened TestcaseText
  import opened TestcaseWords
  import opened TestcaseOperators
  import opened TestcaseReread

  // ----- the names of a dependency in their order -----

  datatype Name = Plain(id: Id) | WithAny(id: Id)

  function Names(d: Dep): seq<Name> {
    if d.Leaf? then [Plain(d.id)] else if IsAny(d) then [WithAny(d.name.id)] else Names(d.name) + Names(d.evr)
  }

  /** The lists are different at some place they both have. */
  ghost predicate Differ(a: seq<Name>, b: seq<Name>) {
    exists i :: 0 <= i < |a| && i < |b| && a[i] != b[i]
  }

  ghost predicate Like(a: seq<Name>, b: seq<Name>) {
    a == b || Differ(a, b)
  }

  lemma DifferMore(a: seq<Name>, b: seq<Name>, x: seq<Name>, y: seq<Name>)
    requires Differ(a, b)
    ensures Differ(a + x, b + y)
  {
    var i :| 0 <= i < |a| && i < |b| && a[i] != b[i];
    assert (a + x)[i] == a[i] && (b + y)[i] == b[i];
  }

  lemma LikeDiffer(a: seq<Name>, b: seq<Name>, x: seq<Name>, y: seq<Name>)
    requires Like(a, b) && Differ(x, y)
    ensures Differ(a + x, b + y)
  {
    if a == b {
      var i :| 0 <= i < |x| && i < |y| && x[i] != y[i];
      assert (a + x)[|a| + i] == x[i] && (b + y)[|a| + i] == y[i];
    } else {
      DifferMore(a, b, x, y);
    }
  }

  lemma LikeBoth(a: seq<Name>, b: seq<Name>, x: seq<Name>, y: seq<Name>)
    requires Like(a, b) && Like(x, y)
    ensures Like(a + x, b + y)
  {
    if Differ(x, y) { LikeDiffer(a, b, x, y); } else if Differ(a, b) { DifferMore(a, b, x, y); }
  }

  lemma FirstDiffers(a: seq<Name>, b: seq<Name>)
    requires a != [] && b != [] && a[0] != b[0]
    ensures Differ(a, b)
  {
  }

  // ----- rereading keeps the names, or they differ -----

  lemma PlainRelation(d: Dep)
    requires d.Rel? && !IsAny(d)
    ensures Names(d) == Names(d.name) + Names(d.evr)
  {
  }

  lemma VersionLike(d: Dep)
    requires Like(Names(Reread(d)), Names(d))
    ensures Like(Names(VersionName(d)), Names(d))
  {
    if IsAny(d) { FirstDiffers(Names(VersionName(d)), Names(d)); }
  }

  lemma LeafLike(x: Id)
    ensures Like(Names(LeafAsName(x)), [Plain(x)])
  {
    hide Id2Str;
    if LeafAsName(x).Rel? { FirstDiffers(Names(LeafAsName(x)), [Plain(x)]); }
  }

  lemma RereadKinds(d: Dep)
    ensures d.Leaf? <==> Reread(d).Leaf?
    ensures d.Leaf? ==> Reread(d) == d
    ensures d.Rel? && !IsRelop(d.flags) && RereadRight(d).Leaf? ==> d.evr == RereadRight(d)
  {
  }

  lemma RereadLike(d: Dep)
    ensures Like(Names(Reread(d)), Names(d))
    decreases d, 1
  {
    hide Like, Names, LeafAsName, VersionName, RereadRight, Attach;
    if IsAtom(d) {
      if IsNamespace(d) {
        RereadLike(d.evr);
        NamespaceLike(d);
      } else {
        SameLike(Names(d));
      }
    } else {
      RightLike(d);
      if OpenLeft(d) {
        AttachLike(d.name, d.flags, RereadRight(d), Names(d.evr));
        PlainRelation(d);
        OpenReread(d);
      } else {
        RereadLike(d.name);
        LikeBoth(Names(Reread(d.name)), Names(d.name), Names(RereadRight(d)), Names(d.evr));
        PlainRelation(d);
        StillPlain(d);
      }
    }
  }

  lemma SameLike(a: seq<Name>)
    ensures Like(a, a)
  {
  }

  lemma NamespaceLike(d: Dep)
    requires IsNamespace(d) && Like(Names(Reread(d.evr)), Names(d.evr))
    ensures Like(Names(Reread(d)), Names(d))
  {
    hide Like;
    SameLike([Plain(d.name.id)]);
    LikeBoth([Plain(d.name.id)], [Plain(d.name.id)], Names(Reread(d.evr)), Names(d.evr));
  }

  lemma OpenReread(d: Dep)
    requires OpenLeft(d) && !IsAtom(d)
    ensures Reread(d) == Attach(d.name, d.flags, RereadRight(d))
  {
  }

  lemma StillPlain(d: Dep)
    requires !IsAtom(d) && !OpenLeft(d)
    ensures Names(Reread(d)) == Names(Reread(d.name)) + Names(RereadRight(d))
  {
    RereadKinds(d.name);
    RereadKinds(d);
    assert Reread(d) == Rel(Reread(d.name), RereadRight(d), d.flags);
    assert !IsAny(Reread(d));
  }

  lemma RightLike(d: Dep)
    requires d.Rel?
    ensures Like(Names(RereadRight(d)), Names(d.evr))
    decreases d.evr, 3
  {
    hide Like, Names, LeafAsName, VersionName;
    if TakesTail(d) {
      var c := d.evr;
      RereadLike(c.name);
      VersionLike(c.name);
      RightLike(c);
      LikeBoth(Names(VersionName(c.name)), Names(c.name), Names(RereadRight(c)), Names(c.evr));
      PlainRelation(c);
      PlainRelation(RereadRight(d));
    } else if IsRelop(d.flags) {
      RereadLike(d.evr);
      VersionLike(d.evr);
    } else if d.evr.Leaf? {
      LeafLike(d.evr.id);
      LeafNames(d.evr);
    } else {
      RereadLike(d.evr);
    }
  }

  lemma LeafNames(d: Dep)
    requires d.Leaf?
    ensures Names(d) == [Plain(d.id)]
  {
  }

  lemma AttachLike(d: Dep, f: int, r: Dep, y: seq<Name>)
    requires Swallows(d) && Like(Names(r), y)
    ensures Like(Names(Attach(d, f, r)), Names(d) + y)
    decreases d, 2
  {
    hide Like, Names, LeafAsName, VersionName, Reread, RereadRight, AttachEnd;
    RereadLike(d.name);
    if TakesTail(d) {
      var c := d.evr;
      RereadLike(c.name);
      VersionLike(c.name);
      AttachEndLike(c, f, r, y);
      Three(d, Reread(d.name), VersionName(c.name), AttachEnd(c, f, r), y);
    } else {
      RightLike(d);
      EndLike(d, f, r, y);
      Two(d, Reread(d.name), Rel(RereadRight(d), r, f), y);
    }
  }

  /** The names of an operator with negative flags, whatever its right-hand side becomes. */
  lemma Two(d: Dep, a: Dep, e: Dep, y: seq<Name>)
    requires d.Rel? && d.flags < 0 && Like(Names(a), Names(d.name)) && Like(Names(e), Names(d.evr) + y)
    ensures Like(Names(Rel(a, e, d.flags)), Names(d) + y)
    ensures Differ(Names(e), Names(d.evr) + y) ==> Differ(Names(Rel(a, e, d.flags)), Names(d) + y)
  {
    hide Like, Names, Differ;
    PlainRelation(d);
    PlainRelation(Rel(a, e, d.flags));
    LikeBoth(Names(a), Names(d.name), Names(e), Names(d.evr) + y);
    if Differ(Names(e), Names(d.evr) + y) { LikeDiffer(Names(a), Names(d.name), Names(e), Names(d.evr) + y); }
    assert Names(d) + y == Names(d.name) + (Names(d.evr) + y);
  }

  /** A right-hand side that takes what follows. */
  lemma EndLike(d: Dep, f: int, r: Dep, y: seq<Name>)
    requires d.Rel? && !IsRelop(d.flags) && Like(Names(r), y) && Like(Names(RereadRight(d)), Names(d.evr))
    ensures Like(Names(Rel(RereadRight(d), r, f)), Names(d.evr) + y)
  {
    hide Like, Names, LeafAsName, VersionName, Reread, Attach;
    var e := Rel(RereadRight(d), r, f);
    if IsAny(e) {
      RereadKinds(d);
      BecomesAny(e, y);
    } else {
      PlainRelation(e);
      LikeBoth(Names(RereadRight(d)), Names(d.evr), Names(r), y);
    }
  }

  /** The names of a comparison with a compat version, whatever its right-hand side becomes. */
  lemma Three(d: Dep, a: Dep, v: Dep, e: Dep, y: seq<Name>)
    requires TakesTail(d) && Like(Names(a), Names(d.name)) && Like(Names(v), Names(d.evr.name))
    requires Like(Names(e), Names(d.evr.evr) + y)
    ensures Like(Names(Rel(a, Rel(v, e, REL_COMPAT), d.flags)), Names(d) + y)
    ensures Differ(Names(e), Names(d.evr.evr) + y) ==>
      Differ(Names(Rel(a, Rel(v, e, REL_COMPAT), d.flags)), Names(d) + y)
  {
    hide Like, Names, Differ;
    var c := d.evr;
    var inner := Rel(v, e, REL_COMPAT);
    var r := Names(c.evr) + y;
    PlainRelation(d);
    PlainRelation(c);
    PlainRelation(inner);
    PlainRelation(Rel(a, inner, d.flags));
    LikeBoth(Names(v), Names(c.name), Names(e), r);
    LikeBoth(Names(a), Names(d.name), Names(inner), Names(c.name) + r);
    if Differ(Names(e), r) {
      LikeDiffer(Names(v), Names(c.name), Names(e), r);
      LikeDiffer(Names(a), Names(d.name), Names(inner), Names(c.name) + r);
    }
    assert Names(d) + y == Names(d.name) + (Names(c.name) + r);
  }

  lemma AttachEndLike(d: Dep, f: int, r: Dep, y: seq<Name>)
    requires d.Rel? && d.flags == REL_COMPAT && Like(Names(r), y)
    ensures Like(Names(AttachEnd(d, f, r)), Names(d.evr) + y)
    decreases d, 0
  {
    hide Like, Names, LeafAsName, VersionName, Reread, Attach;
    if Swallows(d.evr) {
      AttachLike(d.evr, f, r, y);
    } else {
      RightLike(d);
      EndLike(d, f, r, y);
    }
  }

  lemma BecomesAny(e: Dep, y: seq<Name>)
    requires IsAny(e)
    ensures Like(Names(e), Names(e.name) + y)
  {
    FirstDiffers(Names(e), Names(e.name) + y);
  }

  // ----- refused, or other names -----

  /** Nothing is read, or a relation with other names. */
  ghost predicate Off(r: Option<(Dep, string)>, y: seq<Name>) {
    r.Some? ==> r.value.0.Rel? && Differ(Names(r.value.0), y)
  }

  lemma OffMore(r: Option<(Dep, string)>, y: seq<Name>, z: seq<Name>)
    requires Off(r, y)
    ensures Off(r, y + z)
  {
    if r.Some? {
      DifferMore(Names(r.value.0), y, [], z);
      assert Names(r.value.0) + [] == Names(r.value.0);
    }
  }

  /** Operators only add names. */
  lemma {:induction false} OpsOff(id: Dep, t: string, relop: bool, y: seq<Name>)
    requires id.Rel? && Differ(Names(id), y)
    ensures Off(ParseOps(id, t, relop), y)
    decreases |t|
  {
    hide ParseComplex, ParseOp, HasPrefix, Differ, Names;
    var s := SkipBlanks(t);
    if s != "" && s[0] != ')' && !(relop && !HasPrefix(s, "compat >= ")) && ParseOp(s).Some? {
      var op := ParseOp(s).value;
      if ParseComplex(s[op.1..], IsRelop(op.0)).Some? {
        var right := ParseComplex(s[op.1..], IsRelop(op.0)).value;
        var more := Rel(id, right.0, op.0);
        PlainRelation(more);
        DifferMore(Names(id), y, Names(right.0), []);
        assert y + [] == y;
        OpsOff(more, right.1, relop, y);
      }
    }
  }

  lemma OperandOff(t: string, relop: bool, y: seq<Name>)
    requires Off(ParseOperand(t, relop), y)
    ensures Off(ParseComplex(t, relop), y)
  {
    hide ParseOperand, ParseOps, Differ, Names;
    var r := ParseOperand(t, relop);
    if r.Some? { OpsOff(r.value.0, r.value.1, relop, y); }
  }

  /** After any name, an operator whose right-hand side is off. */
  lemma ThenOff(id: Dep, y: seq<Name>, flags: int, right: Option<(Dep, string)>, relop: bool, z: seq<Name>)
    requires Like(Names(id), y) && Off(right, z)
    ensures Off(OpThen(id, flags, right, relop), y + z)
  {
    hide ParseOps, Differ, Names, Like;
    if right.Some? {
      var e := Rel(id, right.value.0, flags);
      PlainRelation(e);
      LikeDiffer(Names(id), y, Names(right.value.0), z);
      OpsOff(e, right.value.1, relop, y + z);
    }
  }

  lemma CloseOff(inner: Option<(Dep, string)>, y: seq<Name>)
    requires Off(inner, y)
    ensures Off(Close(inner), y)
  {
  }

  lemma NamedOff(n: string, arg: Option<(Dep, string)>, y: seq<Name>)
    requires Off(arg, y)
    ensures Off(Named(n, arg), [Plain(Str(n))] + y)
  {
    hide Differ;
    if arg.Some? {
      NamespaceArg(n, arg.value.0);
      LikeDiffer([Plain(Str(n))], [Plain(Str(n))], Names(arg.value.0), y);
    }
  }

  lemma NamespaceArg(n: string, x: Dep)
    ensures Names(Rel(Leaf(Str(n)), x, REL_NAMESPACE)) == [Plain(Str(n))] + Names(x)
  {
  }

  // ----- the induction -----

  /** The namespace that is read when the name up to the parenthesis is not the one printed. */
  lemma CutOff(t: string, relop: bool, y: seq<Name>)
    requires HasPrefix(t, "namespace:") && '(' in t && y != [] && y[0] != Plain(Str(t[..IndexOf(t, '(', 10)]))
    ensures Off(ParseOperand(t, relop), y)
  {
    hide ParseComplex, Names;
    PrefixAt(t, 0);
    NoBlank(t);
    var p := IndexOf(t, '(', 10);
    ParenAfterPrefix(t);
    assert t[p..][0] == '(';
    if ParseOperand(t, relop).Some? {
      var r := ParseOperand(t, relop).value.0;
      CutNames(r, t[..p]);
      FirstDiffers(Names(r), y);
    }
  }

  lemma CutNames(r: Dep, n: string)
    requires r.Rel? && r.name == Leaf(Str(n)) && r.flags == REL_NAMESPACE
    ensures Names(r) != [] && Names(r)[0] == Plain(Str(n))
  {
  }

  lemma ParenAfterPrefix(t: string)
    requires HasPrefix(t, "namespace:") && '(' in t
    ensures IndexOf(t, '(', 10) < |t|
  {
    var m :| 0 <= m < |t| && t[m] == '(';
    if m < 10 { PrefixAt(t, m); }
  }

  lemma AtomOff(d: Dep, k: string, relop: bool)
    requires IsAtom(d) && WellTyped(d) && !Readable(d, '(' in k)
    ensures Off(ParseOperand(Dep2Str(d, false) + k, relop), Names(d))
    decreases d, 0
  {
    hide ParseOperand, ParseComplex, Dep2Str, HasPrefix, Off;
    var t := Dep2Str(d, false) + k;
    if IsAny(d) {
      NamespaceAnyText(k);
      NamespaceAnyCut(k);
      CutOff(t, relop, Names(d));
    } else {
      NamespaceText(d, k);
      var n, u := d.name.id.s, Dep2Str(d.evr, false) + (")" + k);
      NamespaceNames(d);
      if '(' in n {
        NameCut(n, "(" + u);
        assert t == n + ("(" + u);
        CutOff(t, relop, Names(d));
      } else {
        ChainOff(d.evr, ")" + k);
        NamespaceRead(n, u, relop);
        CloseOff(ParseComplex(u, false), Names(d.evr));
        NamedOff(n, Close(ParseComplex(u, false)), Names(d.evr));
      }
    }
  }

  lemma NamespaceNames(d: Dep)
    requires IsNamespace(d)
    ensures Names(d) == [Plain(Str(d.name.id.s))] + Names(d.evr) && Names(d)[0] == Plain(Str(d.name.id.s))
  {
  }

  /** The name read ends before its first parenthesis. */
  lemma NameCut(n: string, r: string)
    requires HasPrefix(n, "namespace:") && '(' in n
    ensures HasPrefix(n + r, "namespace:") && '(' in n + r && (n + r)[..IndexOf(n + r, '(', 10)] != n
  {
    var t := n + r;
    assert t[..10] == n[..10];
    var m :| 0 <= m < |n| && n[m] == '(';
    if m < 10 { PrefixAt(n, m); }
    assert t[m] == '(' && IndexOf(t, '(', 10) <= m < |n|;
    assert |t[..IndexOf(t, '(', 10)]| < |n|;
  }

  lemma NamespaceAnyText(k: string)
    ensures Dep2Str(Rel(Leaf(Str("namespace")), ARCH_ANY, REL_MULTIARCH), false) + k == "namespace:" + ("any" + k)
  {
    hide Id2Str, Dep2Str;
    NamespaceAny();
  }

  lemma NamespaceAny()
    ensures Dep2Str(Rel(Leaf(Str("namespace")), ARCH_ANY, REL_MULTIARCH), false) == "namespace" + ":any"
  {
    hide Id2Str;
    var s := "namespace";
    assert s[|s| - 4..] == "pace" && "pace"[0] != ":any"[0];
    forall i | 0 <= i < |s| ensures !IsBad(s[i]) {
      assert i == 0 || i == 1 || i == 2 || i == 3 || i == 4 || i == 5 || i == 6 || i == 7 || i == 8;
    }
    PlainName(s);
  }

  lemma {:induction false} TallyPlain(t: Tally, s: string)
    requires forall i :: 0 <= i < |s| ==> !IsBad(s[i])
    ensures TallyAll(t, s) == t
    decreases |s|
  {
    if s != "" { TallyPlain(TallyStep(t, s[0]), s[1..]); }
  }

  lemma PlainName(s: string)
    requires s != "" && !IsSpecial(s[0]) && !HasPrefix(s, "namespace:") && !EndsAny(s)
    requires forall i :: 0 <= i < |s| ==> !IsBad(s[i])
    ensures Id2Str(Str(s), true) == s
  {
    TallyPlain(Tally(0, 0, 0), s);
    assert s[0..] == s;
  }

  lemma NamespaceAnyCut(k: string)
    requires '(' in k
    ensures HasPrefix("namespace:" + ("any" + k), "namespace:") && '(' in "namespace:" + ("any" + k)
    ensures Names(Rel(Leaf(Str("namespace")), ARCH_ANY, REL_MULTIARCH)) == [WithAny(Str("namespace"))]
  {
    IsPrefix("namespace:", "any" + k);
  }

  lemma ChainOff(d: Dep, k: string)
    requires WellTyped(d) && !Readable(d, '(' in k) && End(k)
    ensures Off(ParseComplex(Dep2Str(d, false) + k, false), Names(d))
    decreases d, 3
  {
    hide ParseOperand, ParseComplex, Dep2Str, Readable, Off, Names;
    if IsAtom(d) {
      AtomOff(d, k, false);
      OperandOff(Dep2Str(d, false) + k, false, Names(d));
    } else {
      GeneralOff(d, k);
    }
  }

  lemma ParensOff(d: Dep, k: string, relop: bool)
    requires WellTyped(d) && !IsAtom(d) && !Readable(d, '(' in k)
    ensures Off(ParseOperand(Dep2Str(d, true) + k, relop), Names(d))
    decreases d, 4
  {
    hide ParseOperand, ParseComplex, Dep2Str, Readable, Off, Names;
    GeneralText(d);
    var u := Dep2Str(d, false) + (")" + k);
    ParensText(Dep2Str(d, false), k);
    ChainOff(d, ")" + k);
    Parenthesised(u, relop);
    CloseOff(ParseComplex(u, false), Names(d));
  }

  lemma GeneralOff(d: Dep, k: string)
    requires WellTyped(d) && !IsAtom(d) && !Readable(d, '(' in k)
    requires End(k) || ((IsRelop(d.flags) || d.flags < 0) && AfterVersion(k))
    ensures Off(ParseComplex(Dep2Str(d, false) + k, false), Names(d))
    decreases d, 2
  {
    hide ParseOperand, ParseComplex, ParseOps, Dep2Str, OpName, AfterVersion, RightText, Onward, Tail, Reread, Off,
         Names, Like;
    SplitText(d, k);
    TailShape(d, k);
    PlainRelation(d);
    if Readable(d.name, '(' in Tail(d, k)) {
      LeftRead(d, Tail(d, k));
      if d.flags == -1 {
        MinusOneOff(d, k);
        return;
      }
      RightOff(d, k);
      if OpenLeft(d) {
        OnwardOff(d.name, d, k);
      } else {
        RereadLike(d.name);
        TailOff(d, k, Reread(d.name), Names(d.name));
      }
    } else {
      LeftOff(d, Tail(d, k));
      OffMore(ParseComplex(Dep2Str(d.name, NameParens(d)) + Tail(d, k), false), Names(d.name), Names(d.evr));
    }
  }

  lemma MinusOneOff(d: Dep, k: string)
    requires d.Rel? && d.flags == -1
    ensures ParseOps(Reread(d.name), Tail(d, k), false) == None
    ensures Off(None, Names(d))
  {
    hide ParseOps, OpName, RightText, Reread;
    MinusOneOp(Reread(d.name), RightText(d) + k);
  }

  lemma LeftOff(d: Dep, t: string)
    requires WellTyped(d) && !IsAtom(d) && !Readable(d.name, '(' in t) && Stop(t)
    requires d.flags != REL_COMPAT ==> AfterVersion(t)
    ensures Off(ParseComplex(Dep2Str(d.name, NameParens(d)) + t, false), Names(d.name))
    decreases d, 1
  {
    hide ParseOperand, ParseComplex, Dep2Str, AfterVersion, Readable, Off, Names;
    if IsAtom(d.name) {
      AtomParens(d.name, NameParens(d));
      AtomOff(d.name, t, false);
      OperandOff(Dep2Str(d.name, false) + t, false, Names(d.name));
    } else if NameParens(d) {
      ParensOff(d.name, t, false);
      OperandOff(Dep2Str(d.name, true) + t, false, Names(d.name));
    } else {
      GeneralOff(d.name, t);
    }
  }

  lemma TailOff(d: Dep, k: string, id: Dep, y: seq<Name>)
    requires d.Rel? && IsFlags(d.flags) && d.flags != -1
    requires Off(ParseComplex(RightText(d) + k, IsRelop(d.flags)), Names(d.evr)) && Like(Names(id), y)
    ensures Off(ParseOps(id, Tail(d, k), false), y + Names(d.evr))
  {
    hide ParseComplex, ParseOps, RightText, OpName, OpThen, Off, Names, Like;
    OneOp(id, d.flags, RightText(d) + k, false);
    ThenOff(id, y, d.flags, ParseComplex(RightText(d) + k, IsRelop(d.flags)), false, Names(d.evr));
  }

  /** The same after a relation that hands the tail on. */
  lemma OnwardOff(c: Dep, d: Dep, k: string)
    requires c.Rel? && d.Rel? && IsFlags(d.flags) && d.flags != -1
    requires Off(ParseComplex(RightText(d) + k, IsRelop(d.flags)), Names(d.evr))
    ensures Swallows(c) ==> Off(Onward(c, Tail(d, k)), Names(c) + Names(d.evr))
    ensures c.flags == REL_COMPAT ==> Off(OnwardEnd(c, Tail(d, k)), Names(c.evr) + Names(d.evr))
    decreases c
  {
    hide ParseComplex, ParseOps, RightText, Tail, Reread, RereadRight, VersionName, Off, Names, Like;
    var t, z := Tail(d, k), Names(d.evr);
    RightLike(c);
    TailOff(d, k, RereadRight(c), Names(c.evr));
    if c.evr.Rel? { OnwardOff(c.evr, d, k); }
    if TakesTail(c) {
      RereadLike(c.name);
      RereadLike(c.evr.name);
      VersionLike(c.evr.name);
      ComparedOff(c, OnwardEnd(c.evr, t), z);
    } else if Swallows(c) {
      RereadLike(c.name);
      SwallowedOff(c, OnwardEnd(c, t), z);
    }
  }

  lemma SwallowedOff(c: Dep, inner: Option<(Dep, string)>, z: seq<Name>)
    requires c.Rel? && c.flags < 0 && Off(inner, Names(c.evr) + z) && Like(Names(Reread(c.name)), Names(c.name))
    ensures Off(Swallowed(c, inner), Names(c) + z)
  {
    hide Reread, Names, Differ;
    if inner.Some? { Two(c, Reread(c.name), inner.value.0, z); }
  }

  lemma ComparedOff(c: Dep, inner: Option<(Dep, string)>, z: seq<Name>)
    requires TakesTail(c) && Off(inner, Names(c.evr.evr) + z)
    requires Like(Names(Reread(c.name)), Names(c.name)) && Like(Names(VersionName(c.evr.name)), Names(c.evr.name))
    ensures Off(Compared(c, inner), Names(c) + z)
  {
    hide Reread, VersionName, Names, Differ;
    if inner.Some? { Three(c, Reread(c.name), VersionName(c.evr.name), inner.value.0, z); }
  }

  lemma RightOff(d: Dep, k: string)
    requires WellTyped(d) && !IsAtom(d) && !Readable(d.evr, '(' in k) && Fits(d, k)
    ensures Off(ParseComplex(RightText(d) + k, IsRelop(d.flags)), Names(d.evr))
    decreases d, 1
  {
    hide ParseOperand, ParseComplex, Dep2Str, OpName, Id2Str, Word, HasPrefix, Readable, AfterVersion, Off, Names;
    if End(k) { EndIsStop(k); }
    var relop, t := IsRelop(d.flags), RightText(d);
    LeafReadable(d.evr, '(' in k);
    if IsAtom(d.evr) {
      AtomParens(d.evr, EvrParens(d));
      AtomOff(d.evr, k, relop);
      OperandOff(t + k, relop, Names(d.evr));
    } else if EvrParens(d) {
      ParensOff(d.evr, k, relop);
      OperandOff(t + k, relop, Names(d.evr));
    } else if TakesTail(d) {
      VersionOff(d, k);
    } else {
      GeneralOff(d.evr, k);
    }
  }

  lemma LeafReadable(d: Dep, paren: bool)
    ensures d.Leaf? ==> Readable(d, paren)
  {
  }

  lemma VersionOff(d: Dep, k: string)
    requires WellTyped(d) && TakesTail(d) && !Readable(d.evr, '(' in k) && Fits(d, k)
    ensures Off(ParseComplex(RightText(d) + k, true), Names(d.evr))
    decreases d, 0
  {
    hide ParseOperand, ParseComplex, ParseOps, Dep2Str, OpName, HasPrefix, Reread, AfterVersion, RightText, Tail, Off,
         Names, Like, OpThen;
    var c := d.evr;
    UnparenthesisedVersion(d);
    SplitText(c, k);
    TailShape(c, k);
    PlainRelation(c);
    if End(k) { EndIsStop(k); }
    if Readable(c.name, '(' in Tail(c, k)) {
      if IsAtom(c.name) {
        AtomParens(c.name, NameParens(c));
        AtomRead(c.name, Tail(c, k), true);
      } else {
        ParensRead(c.name, Tail(c, k), true);
      }
      RightOff(c, k);
      RereadLike(c.name);
      VersionLike(c.name);
      VersionTailOff(d, k);
    } else {
      if IsAtom(c.name) {
        AtomParens(c.name, NameParens(c));
        AtomOff(c.name, Tail(c, k), true);
      } else {
        ParensOff(c.name, Tail(c, k), true);
      }
      OperandOff(RightText(d) + k, true, Names(c.name));
      OffMore(ParseComplex(RightText(d) + k, true), Names(c.name), Names(c.evr));
    }
  }

  lemma VersionTailOff(d: Dep, k: string)
    requires TakesTail(d) && ParseOperand(RightText(d) + k, true) == Some((VersionName(d.evr.name), Tail(d.evr, k)))
    requires Off(ParseComplex(RightText(d.evr) + k, false), Names(d.evr.evr))
    requires Like(Names(VersionName(d.evr.name)), Names(d.evr.name))
    ensures Off(ParseComplex(RightText(d) + k, true), Names(d.evr.name) + Names(d.evr.evr))
  {
    hide ParseOperand, ParseComplex, ParseOps, OpName, VersionName, RightText, Off, Names, Like, OpThen;
    var v, r := VersionName(d.evr.name), RightText(d.evr) + k;
    FromOperand(RightText(d) + k, true, v, Tail(d.evr, k));
    OneOp(v, REL_COMPAT, r, true);
    ThenOff(v, Names(d.evr.name), REL_COMPAT, ParseComplex(r, false), true, Names(d.evr.evr));
  }

  /** What can not be read is refused, or other names come back. */
  lemma Derailed(d: Dep)
    requires WellTyped(d) && !Readable(d, false)
    ensures Off(ParseComplex(Dep2Str(d, false), false), Names(d)) && Str2Dep(Dep2Str(d, false)) != d
  {
    hide Dep2Str, ParseComplex, Readable, Names;
    ChainOff(d, "");
    LeafReadable(d, false);
    assert Dep2Str(d, false) + "" == Dep2Str(d, false);
  }
}
