/** What parsing makes of a printed dependency whose names end where they were printed to end. */
module TestcaseReread {
  import opened Common
  import opened TestcaseText
  import opened TestcaseWords
  import opened TestcaseOperators

  // ----- what comes back -----

  /** No parentheses are printed around these in any case. */
  predicate IsAtom(d: Dep) { d.Leaf? || IsNamespace(d) || IsAny(d) }

  /** C strings, and the flags an int. */
  predicate WellTyped(d: Dep) {
    match d
    case Leaf(x) => x.Str? ==> NoNul(x.s)
    case Rel(name, evr, flags) => IsFlags(flags) && WellTyped(name) && WellTyped(evr)
  }

  /** A comparison with a version that has a compat relation of its own: it is printed without parentheses. */
  predicate TakesTail(d: Dep) {
    d.Rel? && IsRelop(d.flags) && d.evr.Rel? && d.evr.flags == REL_COMPAT
  }

  /** Without parentheses around it, the right-hand side of such a relation takes what follows: a comparison as above,
      or an operator with negative flags. */
  predicate Swallows(d: Dep) {
    TakesTail(d) || (d.Rel? && d.flags < 0)
  }

  /** Such a relation on the left of an operator, printed without parentheses. */
  predicate OpenLeft(d: Dep) {
    d.Rel? && d.flags > 7 && d.flags != REL_COMPAT && Swallows(d.name)
  }

  /** The name in front of such a compat relation is read as a version. */
  function VersionName(d: Dep): Dep
    decreases d, 1
  {
    if IsAny(d) then Leaf(AnyAsVersion(d.name.id)) else Reread(d)
  }

  /** What parsing makes of a printed dependency. */
  function Reread(d: Dep): Dep
    decreases d, 0
  {
    if d.Leaf? || IsAny(d) then d
    else if IsNamespace(d) then Rel(d.name, Reread(d.evr), d.flags)
    else if OpenLeft(d) then Attach(d.name, d.flags, RereadRight(d))
    else Rel(Reread(d.name), RereadRight(d), d.flags)
  }

  function RereadRight(d: Dep): Dep
    requires d.Rel?
    decreases d.evr, 3
  {
    if TakesTail(d) then Rel(VersionName(d.evr.name), RereadRight(d.evr), REL_COMPAT)
    else if IsRelop(d.flags) then VersionName(d.evr)
    else if d.evr.Leaf? then LeafAsName(d.evr.id) else Reread(d.evr)
  }

  /** The tail, operator f and right-hand side r, goes to the right-hand side or its compat relation. */
  function Attach(d: Dep, f: int, r: Dep): Dep
    requires Swallows(d)
    decreases d, 0
  {
    if TakesTail(d) then
      Rel(Reread(d.name), Rel(VersionName(d.evr.name), AttachEnd(d.evr, f, r), REL_COMPAT), d.flags)
    else Rel(Reread(d.name), Rel(RereadRight(d), r, f), d.flags)
  }

  function AttachEnd(d: Dep, f: int, r: Dep): Dep
    requires d.Rel? && d.flags == REL_COMPAT
    decreases d, 0
  {
    if Swallows(d.evr) then Attach(d.evr, f, r) else Rel(RereadRight(d), r, f)
  }

  /** Every operator is known to the parser, which takes -1 for none, and every name ends where it was printed to end:
      no namespace has a parenthesis in its name, and no package "namespace" with any architecture has one behind it.
      `paren` tells of the text that follows. */
  predicate Readable(d: Dep, paren: bool) {
    if d.Leaf? then true
    else if IsNamespace(d) then '(' !in d.name.id.s && Readable(d.evr, paren)
    else if IsAny(d) then !(d.name.id == Str("namespace") && paren)
    else d.flags != -1 && Readable(d.name, paren || '(' in RightText(d)) && Readable(d.evr, paren)
  }

  function RightText(d: Dep): string
    requires d.Rel?
  {
    if d.evr.Leaf? then Id2Str(d.evr.id, false) else Dep2Str(d.evr, EvrParens(d))
  }

  // ----- dependencies -----

  predicate End(k: string) { k == "" || k[0] == ')' }

  /** What follows can not continue a version. */
  predicate AfterVersion(k: string) { Stop(k) && !HasPrefix(SkipBlanks(k), "compat >= ") }

  lemma SkipOne(t: string)
    ensures SkipBlanks(" " + t) == SkipBlanks(t)
  {
    assert (" " + t)[1..] == t;
  }

  lemma SkipTwice(t: string)
    ensures SkipBlanks(SkipBlanks(t)) == SkipBlanks(t)
  {
    NoBlank(SkipBlanks(t));
  }

  /** Leading blanks do not matter. */
  lemma BlankFirst(t: string, relop: bool)
    ensures ParseComplex(" " + t, relop) == ParseComplex(t, relop)
  {
    SkipOne(t);
    OperandBlank(t, relop);
  }

  lemma OperandBlank(t: string, relop: bool)
    ensures ParseOperand(" " + t, relop) == ParseOperand(t, relop)
  {
    SkipOne(t);
  }

  lemma OpsBlank(id: Dep, t: string, relop: bool)
    ensures ParseOps(id, SkipBlanks(t), relop) == ParseOps(id, t, relop)
  {
    SkipTwice(t);
  }

  /** A version ends where it is followed by anything but a compat relation. */
  lemma VersionEnds(id: Dep, k: string)
    requires AfterVersion(k)
    ensures ParseOps(id, k, true) == Some((id, SkipBlanks(k)))
  {
  }

  lemma OpsEnd(id: Dep, k: string, relop: bool)
    requires End(k)
    ensures ParseOps(id, k, relop) == Some((id, k))
  {
    NoBlank(k);
  }

  lemma EndIsStop(k: string)
    requires End(k)
    ensures Stop(k) && AfterVersion(k) && SkipBlanks(k) == k
  {
    NoBlank(k);
    if k != "" { NoPrefix(k, "compat >= ", 0); }
  }

  lemma FromOperand(t: string, relop: bool, id: Dep, k: string)
    requires ParseOperand(t, relop) == Some((id, k))
    ensures ParseComplex(t, relop) == ParseOps(id, k, relop)
  {
  }

  /** What follows `id`, once its operator and the result of the right-hand side are known. */
  function OpThen(id: Dep, flags: int, right: Option<(Dep, string)>, relop: bool): Option<(Dep, string)> {
    if right.None? then None else ParseOps(Rel(id, right.value.0, flags), right.value.1, relop)
  }

  /** One operator. After a version only a compat relation goes on. */
  lemma OneOp(id: Dep, flags: int, r: string, relop: bool)
    requires IsFlags(flags) && flags != -1 && (relop ==> flags == REL_COMPAT)
    ensures ParseOps(id, " " + OpName(flags, 0) + " " + r, relop)
      == OpThen(id, flags, ParseComplex(r, IsRelop(flags)), relop)
  {
    hide OpName, ParseOp, ParseComplex, HasPrefix;
    var op := OpName(flags, 0);
    var s := op + " " + r;
    OpPrinted(flags, r);
    OpShape(flags, r);
    if relop { CompatText(s, r); }
    assert " " + op + " " + r == " " + s;
    SkipOne(s);
    NoBlank(s);
    assert s[|op|..] == " " + r;
    BlankFirst(r, IsRelop(flags));
  }

  /** The operator -1 is refused. */
  lemma MinusOneOp(id: Dep, r: string)
    ensures ParseOps(id, " " + OpName(-1, 0) + " " + r, false) == None
  {
    hide OpName, ParseOp, ParseComplex, HasPrefix;
    var s := OpName(-1, 0) + " " + r;
    OpPrinted(-1, r);
    OpShape(-1, r);
    assert " " + OpName(-1, 0) + " " + r == " " + s;
    SkipOne(s);
    NoBlank(s);
  }

  lemma CompatText(s: string, r: string)
    requires s == OpName(REL_COMPAT, 0) + " " + r
    ensures HasPrefix(s, "compat >= ")
  {
    hide OpName, HasPrefix;
    var j := FindName(REL_COMPAT, 0);
    assert OpEntry(15).0 == REL_COMPAT;
    assert "compat >=" + " " + r == "compat >= " + r;
    IsPrefix("compat >= ", r);
  }

  /** What a closing parenthesis makes of the text before it. */
  function Close(inner: Option<(Dep, string)>): Option<(Dep, string)> {
    if inner.None? || inner.value.1 == "" || inner.value.1[0] != ')' then None
    else Some((inner.value.0, inner.value.1[1..]))
  }

  /** Something in parentheses. */
  lemma Parenthesised(u: string, relop: bool)
    ensures ParseOperand("(" + u, relop) == Close(ParseComplex(u, false))
  {
    hide ParseComplex;
    var s := "(" + u;
    NoBlank(s);
    NoPrefix(s, "namespace:", 0);
    assert s[1..] == u;
  }

  function Named(n: string, arg: Option<(Dep, string)>): Option<(Dep, string)> {
    if arg.None? then None else Some((Rel(Leaf(Str(n)), arg.value.0, REL_NAMESPACE), arg.value.1))
  }

  lemma {:induction false} IndexIs(s: string, c: char, i: nat, p: nat)
    requires i <= p < |s| && s[p] == c && forall m :: i <= m < p ==> s[m] != c
    ensures IndexOf(s, c, i) == p
    decreases p - i
  {
    if i < p { IndexIs(s, c, i + 1, p); }
  }

  /** A namespace and its argument: the name ends at the first parenthesis. */
  lemma NamespaceRead(n: string, u: string, relop: bool)
    requires HasPrefix(n, "namespace:") && '(' !in n
    ensures ParseOperand(n + "(" + u, relop) == Named(n, Close(ParseComplex(u, false)))
  {
    hide ParseComplex;
    var s := n + "(" + u;
    PrefixAt(n, 0);
    NoBlank(s);
    assert s[..10] == n[..10];
    IndexIs(s, '(', 10, |n|);
    assert s[|n|..][1..] == u && s[..|n|] == n;
    assert s[|n|..][0] == '(';
  }

  // ----- the printed text -----

  lemma GeneralText(d: Dep)
    requires !IsAtom(d)
    ensures Dep2Str(d, false) == Dep2Str(d.name, NameParens(d)) + " " + OpName(d.flags, 0) + " " + RightText(d)
    ensures Dep2Str(d, true) == "(" + Dep2Str(d, false) + ")"
  {
    hide Id2Str, OpName, Dep2Str, RightText;
    var l, o, r := Dep2Str(d.name, NameParens(d)), OpName(d.flags, 0), RightText(d);
    PrintedAs(d, false);
    PrintedAs(d, true);
    assert "" + l + " " + o + " " + r + "" == l + " " + o + " " + r;
    assert "(" + l + " " + o + " " + r + ")" == "(" + (l + " " + o + " " + r) + ")";
  }

  lemma PrintedAs(d: Dep, addparens: bool)
    requires !IsAtom(d)
    ensures Dep2Str(d, addparens)
      == (if addparens then "(" else "") + Dep2Str(d.name, NameParens(d)) + " " + OpName(d.flags, 0) + " " +
            RightText(d) + (if addparens then ")" else "")
  {
    hide Id2Str, OpName;
  }

  lemma AtomParens(d: Dep, addparens: bool)
    requires IsAtom(d)
    ensures Dep2Str(d, addparens) == Dep2Str(d, false)
  {
  }

  lemma NamespaceText(d: Dep, k: string)
    requires IsNamespace(d)
    ensures Dep2Str(d, false) + k == d.name.id.s + "(" + (Dep2Str(d.evr, false) + (")" + k))
  {
    hide Dep2Str;
    NamespacePrinted(d);
  }

  lemma NamespacePrinted(d: Dep)
    requires IsNamespace(d)
    ensures Dep2Str(d, false) == d.name.id.s + "(" + Dep2Str(d.evr, false) + ")"
  {
  }

  lemma ParensText(t: string, k: string)
    ensures "(" + t + ")" + k == "(" + (t + (")" + k))
  {
  }

  /** The text after the left-hand side. */
  function Tail(d: Dep, k: string): string
    requires d.Rel?
  {
    " " + OpName(d.flags, 0) + " " + (RightText(d) + k)
  }

  lemma SplitText(d: Dep, k: string)
    requires !IsAtom(d)
    ensures Dep2Str(d, false) + k == Dep2Str(d.name, NameParens(d)) + Tail(d, k)
  {
    hide OpName, Dep2Str, RightText;
    GeneralText(d);
  }

  /** The text after the left-hand side ends its last name, and it is no compat relation if a version comes before. */
  lemma TailShape(d: Dep, k: string)
    requires d.Rel? && IsFlags(d.flags)
    ensures Stop(Tail(d, k)) && (d.flags != REL_COMPAT ==> AfterVersion(Tail(d, k)))
    ensures '(' in Tail(d, k) <==> '(' in k || '(' in RightText(d)
  {
    hide OpName, RightText, HasPrefix;
    var o, u := OpName(d.flags, 0), RightText(d) + k;
    OpShape(d.flags, u);
    assert Tail(d, k) == " " + (o + " " + u);
    SkipOne(o + " " + u);
    NoBlank(o + " " + u);
  }

  /** Where a printed dependency may stand: at the end, or, if it is printed without parentheses on the left of another
      operator or in a version, in front of that operator. */
  predicate Fits(d: Dep, k: string) {
    End(k) || (d.Rel? && (IsRelop(d.flags) || d.flags < 0 || d.flags == REL_COMPAT) && AfterVersion(k))
  }

  // ----- how the parser goes on after it -----

  /** What reading a relation and then k gives: k goes to the right-hand side that takes it. */
  function Onward(d: Dep, k: string): Option<(Dep, string)>
    decreases d, 1
  {
    if TakesTail(d) then Compared(d, OnwardEnd(d.evr, k))
    else if Swallows(d) then Swallowed(d, OnwardEnd(d, k))
    else ParseOps(Reread(d), k, false)
  }

  function OnwardEnd(d: Dep, k: string): Option<(Dep, string)>
    requires d.Rel?
    decreases d, 0
  {
    if d.flags > 7 && Swallows(d.evr) then Onward(d.evr, k) else ParseOps(RereadRight(d), k, false)
  }

  function Swallowed(d: Dep, inner: Option<(Dep, string)>): Option<(Dep, string)>
    requires d.Rel?
  {
    if inner.None? then None else Some((Rel(Reread(d.name), inner.value.0, d.flags), inner.value.1))
  }

  /** The version that is read once the right-hand side of its compat relation is known. */
  function Versioned(d: Dep, inner: Option<(Dep, string)>): Option<(Dep, string)>
    requires TakesTail(d)
  {
    if inner.None? then None else Some((Rel(VersionName(d.evr.name), inner.value.0, REL_COMPAT), inner.value.1))
  }

  function Compared(d: Dep, inner: Option<(Dep, string)>): Option<(Dep, string)>
    requires TakesTail(d)
  {
    var v := Versioned(d, inner);
    if v.None? then None else Some((Rel(Reread(d.name), v.value.0, d.flags), v.value.1))
  }

  /** Names are read up to the end or a closing parenthesis. */
  lemma {:induction false} OpsRest(id: Dep, t: string)
    ensures ParseOps(id, t, false).Some? ==> End(ParseOps(id, t, false).value.1)
    decreases |t|
  {
    hide ParseComplex, ParseOp, HasPrefix;
    var s := SkipBlanks(t);
    if s != "" && s[0] != ')' {
      var op := ParseOp(s);
      if op.Some? {
        var right := ParseComplex(s[op.value.1..], IsRelop(op.value.0));
        if right.Some? { OpsRest(Rel(id, right.value.0, op.value.0), right.value.1); }
      }
    }
  }

  lemma {:induction false} OnwardRest(d: Dep, k: string)
    requires d.Rel?
    ensures Onward(d, k).Some? ==> End(Onward(d, k).value.1)
    ensures OnwardEnd(d, k).Some? ==> End(OnwardEnd(d, k).value.1)
    decreases d
  {
    hide ParseOps, Reread, RereadRight, VersionName;
    OpsRest(Reread(d), k);
    OpsRest(RereadRight(d), k);
    if d.evr.Rel? { OnwardRest(d.evr, k); }
  }

  /** At the end nothing is left to go on with. */
  lemma {:induction false} OnwardStops(d: Dep, k: string)
    requires !IsAtom(d) && End(k)
    ensures Onward(d, k) == Some((Reread(d), k))
    ensures !IsRelop(d.flags) ==> OnwardEnd(d, k) == Some((RereadRight(d), k))
    decreases d
  {
    hide ParseOps, VersionName;
    OpsEnd(Reread(d), k, false);
    OpsEnd(RereadRight(d), k, false);
    if Swallows(d.evr) || TakesTail(d) { OnwardStops(d.evr, k); }
  }

  /** A tail that every name takes the same way. */
  lemma {:induction false} Attached(d: Dep, f: int, r: Dep, t: string, k: string)
    requires d.Rel? && End(k) && forall x :: ParseOps(x, t, false) == Some((Rel(x, r, f), k))
    ensures Swallows(d) ==> Onward(d, t) == Some((Attach(d, f, r), k))
    ensures d.flags == REL_COMPAT ==> OnwardEnd(d, t) == Some((AttachEnd(d, f, r), k))
    decreases d
  {
    hide ParseOps, Reread, RereadRight, VersionName;
    if d.evr.Rel? { Attached(d.evr, f, r, t, k); }
  }

  // ----- the induction -----

  /** How an atom reads on either side of an operator. */
  function AtomAs(d: Dep, relop: bool): Dep
    requires IsAtom(d)
  {
    if relop then VersionName(d) else Reread(d)
  }

  lemma NamespaceAs(d: Dep, relop: bool)
    requires IsNamespace(d)
    ensures AtomAs(d, relop) == Rel(Leaf(Str(d.name.id.s)), Reread(d.evr), REL_NAMESPACE)
  {
    assert VersionName(d) == Reread(d);
  }

  lemma AtomRead(d: Dep, k: string, relop: bool)
    requires IsAtom(d) && WellTyped(d) && Readable(d, '(' in k) && Stop(k)
    ensures ParseOperand(Dep2Str(d, false) + k, relop) == Some((AtomAs(d, relop), k))
    decreases d, 0
  {
    hide ParseOperand, ParseComplex, SimpleOf, Id2Str, Word, HasPrefix;
    if d.Leaf? {
      LeafReread(d);
      LeafWord(d.id, true);
      WordOperand(Id2Str(d.id, true), k, relop);
      NameRead(d.id);
      NameAsVersion(d.id);
    } else if IsNamespace(d) {
      NamespaceText(d, k);
      Chain(d.evr, ")" + k);
      NamespaceRead(d.name.id.s, Dep2Str(d.evr, false) + (")" + k), relop);
      assert (")" + k)[1..] == k;
      NamespaceAs(d, relop);
    } else {
      AnyOperand(d.name.id, k, relop);
      AnyRead(d.name.id);
    }
  }

  /** A printed dependency, up to the end or a closing parenthesis. */
  lemma Chain(d: Dep, k: string)
    requires WellTyped(d) && Readable(d, '(' in k) && End(k)
    ensures ParseComplex(Dep2Str(d, false) + k, false) == Some((Reread(d), k))
    decreases d, 3
  {
    hide ParseOperand, ParseComplex, ParseOps, Dep2Str, Reread, Readable;
    EndIsStop(k);
    OpsEnd(Reread(d), k, false);
    if IsAtom(d) {
      AtomRead(d, k, false);
      FromOperand(Dep2Str(d, false) + k, false, Reread(d), k);
    } else {
      GeneralRead(d, k);
      OnwardStops(d, k);
    }
  }

  /** One relation, when what follows ends it. */
  lemma GeneralRead(d: Dep, k: string)
    requires WellTyped(d) && !IsAtom(d) && Readable(d, '(' in k)
    requires End(k) || ((IsRelop(d.flags) || d.flags < 0) && AfterVersion(k))
    ensures ParseComplex(Dep2Str(d, false) + k, false) == Onward(d, k)
    decreases d, 2
  {
    hide ParseOperand, ParseComplex, ParseOps, Dep2Str, OpName, AfterVersion, RightText, Onward, OnwardEnd, Versioned,
         Tail, Reread;
    SplitText(d, k);
    TailShape(d, k);
    LeftRead(d, Tail(d, k));
    RightRead(d, k);
    if OpenLeft(d) { OpenRead(d, k); } else { ClosedRead(d, k); }
  }

  /** The result of the right-hand side. */
  function RightResult(d: Dep, k: string): Option<(Dep, string)>
    requires d.Rel?
  {
    if TakesTail(d) then Versioned(d, OnwardEnd(d.evr, k))
    else if IsRelop(d.flags) then Some((RereadRight(d), SkipBlanks(k)))
    else OnwardEnd(d, k)
  }

  /** The operator and what follows it, after any name. */
  lemma TailRead(d: Dep, k: string, id: Dep)
    requires d.Rel? && IsFlags(d.flags) && d.flags != -1
    requires ParseComplex(RightText(d) + k, IsRelop(d.flags)) == RightResult(d, k)
    ensures ParseOps(id, Tail(d, k), false) == OpThen(id, d.flags, RightResult(d, k), false)
  {
    hide ParseComplex, ParseOps, RightText, RightResult, OpName, OpThen;
    OneOp(id, d.flags, RightText(d) + k, false);
  }

  lemma ClosedRead(d: Dep, k: string)
    requires !IsAtom(d) && IsFlags(d.flags) && d.flags != -1 && !OpenLeft(d)
    requires ParseComplex(RightText(d) + k, IsRelop(d.flags)) == RightResult(d, k)
    requires End(k) || IsRelop(d.flags) || d.flags < 0
    ensures ParseOps(Reread(d.name), Tail(d, k), false) == Onward(d, k)
  {
    hide ParseComplex, ParseOps, RightText, OpName, VersionName, Tail;
    TailRead(d, k, Reread(d.name));
    if TakesTail(d) {
      OnwardRest(d.evr, k);
      var v := RightResult(d, k);
      if v.Some? { OpsEnd(Rel(Reread(d.name), v.value.0, d.flags), v.value.1, false); }
    } else if IsRelop(d.flags) {
      OpsBlank(Reread(d), k, false);
    } else if d.flags < 0 {
      OnwardRest(d, k);
      var v := OnwardEnd(d, k);
      if v.Some? { OpsEnd(Rel(Reread(d.name), v.value.0, d.flags), v.value.1, false); }
    } else {
      OnwardStops(d, k);
    }
  }

  lemma OpenRead(d: Dep, k: string)
    requires !IsAtom(d) && IsFlags(d.flags) && OpenLeft(d) && End(k)
    requires ParseComplex(RightText(d) + k, IsRelop(d.flags)) == RightResult(d, k)
    ensures Onward(d.name, Tail(d, k)) == Onward(d, k)
  {
    hide ParseComplex, ParseOps, RightText, OpName, VersionName, Tail, RereadRight, AttachEnd;
    OnwardStops(d, k);
    forall x ensures ParseOps(x, Tail(d, k), false) == Some((Rel(x, RereadRight(d), d.flags), k)) {
      TailRead(d, k, x);
      OpsEnd(Rel(x, RereadRight(d), d.flags), k, false);
    }
    Attached(d.name, d.flags, RereadRight(d), Tail(d, k), k);
  }

  /** The left-hand side, with or without parentheses. */
  lemma LeftRead(d: Dep, t: string)
    requires WellTyped(d) && !IsAtom(d) && Readable(d.name, '(' in t) && Stop(t)
    requires d.flags != REL_COMPAT ==> AfterVersion(t)
    ensures ParseComplex(Dep2Str(d.name, NameParens(d)) + t, false)
         == if OpenLeft(d) then Onward(d.name, t) else ParseOps(Reread(d.name), t, false)
    decreases d, 1
  {
    hide ParseOperand, ParseComplex, ParseOps, Dep2Str, AfterVersion, Readable, Reread;
    if IsAtom(d.name) {
      AtomParens(d.name, NameParens(d));
      AtomRead(d.name, t, false);
      FromOperand(Dep2Str(d.name, false) + t, false, Reread(d.name), t);
    } else if NameParens(d) {
      ParensRead(d.name, t, false);
      FromOperand(Dep2Str(d.name, true) + t, false, Reread(d.name), t);
    } else {
      GeneralRead(d.name, t);
    }
  }

  lemma ParensRead(d: Dep, k: string, relop: bool)
    requires WellTyped(d) && !IsAtom(d) && Readable(d, '(' in k)
    ensures ParseOperand(Dep2Str(d, true) + k, relop) == Some((Reread(d), k))
    decreases d, 4
  {
    hide ParseOperand, ParseComplex, ParseOps, Dep2Str, OpName, Reread, Readable;
    GeneralText(d);
    ParensText(Dep2Str(d, false), k);
    Chain(d, ")" + k);
    Parenthesised(Dep2Str(d, false) + (")" + k), relop);
    assert (")" + k)[1..] == k;
  }

  /** The right-hand side. */
  lemma RightRead(d: Dep, k: string)
    requires WellTyped(d) && !IsAtom(d) && Readable(d.evr, '(' in k) && Fits(d, k)
    ensures ParseComplex(RightText(d) + k, IsRelop(d.flags)) == RightResult(d, k)
    decreases d, 1
  {
    hide ParseOperand, ParseComplex, ParseOps, Dep2Str, OpName, SimpleOf, Id2Str, Word, HasPrefix, Reread, LeafAsName,
         Readable, AfterVersion;
    if End(k) { EndIsStop(k); }
    var relop, t := IsRelop(d.flags), RightText(d);
    if d.evr.Leaf? {
      LeafWord(d.evr.id, false);
      WordIsStop(k);
      WordOperand(t, k, relop);
      RightLeafRead(d.evr.id);
      LeafReread(d.evr);
      RightEnds(d, t, k);
    } else if IsAtom(d.evr) {
      AtomParens(d.evr, EvrParens(d));
      WordIsStop(k);
      AtomRead(d.evr, k, relop);
      RightEnds(d, t, k);
    } else if EvrParens(d) {
      ParensRead(d.evr, k, relop);
      RightEnds(d, t, k);
    } else if TakesTail(d) {
      VersionRead(d, k);
    } else {
      GeneralRead(d.evr, k);
      if !Swallows(d.evr) { OnwardPlain(d.evr, k); }
    }
  }

  lemma WordIsStop(k: string)
    requires AfterVersion(k)
    ensures Stop(k)
  {
  }

  lemma LeafReread(d: Dep)
    requires d.Leaf?
    ensures VersionName(d) == d
  {
  }

  lemma OnwardPlain(d: Dep, k: string)
    requires d.Rel? && !Swallows(d)
    ensures Onward(d, k) == ParseOps(Reread(d), k, false)
  {
  }

  lemma RightEnds(d: Dep, t: string, k: string)
    requires !IsAtom(d) && !TakesTail(d) && AfterVersion(k) && !(d.flags > 7 && Swallows(d.evr))
    requires ParseOperand(t + k, IsRelop(d.flags)) == Some((RereadRight(d), k))
    ensures ParseComplex(t + k, IsRelop(d.flags)) == RightResult(d, k)
  {
    hide ParseOperand, ParseComplex, ParseOps, RereadRight, AfterVersion;
    FromOperand(t + k, IsRelop(d.flags), RereadRight(d), k);
    if IsRelop(d.flags) {
      VersionEnds(RereadRight(d), k);
    }
  }

  /** A version with a compat relation, whose own right-hand side takes what follows. */
  lemma VersionRead(d: Dep, k: string)
    requires WellTyped(d) && TakesTail(d) && Readable(d.evr, '(' in k) && Fits(d, k)
    ensures ParseComplex(RightText(d) + k, true) == Versioned(d, OnwardEnd(d.evr, k))
    decreases d, 0
  {
    hide ParseOperand, ParseComplex, ParseOps, Dep2Str, OpName, HasPrefix, Reread, AfterVersion, OnwardEnd, RightText,
         Tail;
    var c := d.evr;
    UnparenthesisedVersion(d);
    SplitText(c, k);
    TailShape(c, k);
    if End(k) { EndIsStop(k); }
    if IsAtom(c.name) {
      AtomParens(c.name, NameParens(c));
      AtomRead(c.name, Tail(c, k), true);
    } else {
      ParensRead(c.name, Tail(c, k), true);
    }
    RightRead(c, k);
    VersionTail(d, k);
  }

  lemma UnparenthesisedVersion(d: Dep)
    requires TakesTail(d)
    ensures RightText(d) == Dep2Str(d.evr, false) && !IsAtom(d.evr)
    ensures !IsAtom(d.evr.name) ==> NameParens(d.evr) && VersionName(d.evr.name) == Reread(d.evr.name)
  {
    hide Dep2Str, Reread;
  }

  lemma VersionTail(d: Dep, k: string)
    requires TakesTail(d) && ParseComplex(RightText(d.evr) + k, false) == OnwardEnd(d.evr, k)
    requires ParseOperand(RightText(d) + k, true) == Some((VersionName(d.evr.name), Tail(d.evr, k)))
    ensures ParseComplex(RightText(d) + k, true) == Versioned(d, OnwardEnd(d.evr, k))
  {
    hide ParseOperand, ParseComplex, ParseOps, OpName, VersionName, RightText, OnwardEnd;
    var v, inner := VersionName(d.evr.name), OnwardEnd(d.evr, k);
    FromOperand(RightText(d) + k, true, v, Tail(d.evr, k));
    OneOp(v, REL_COMPAT, RightText(d.evr) + k, true);
    if inner.Some? {
      OnwardRest(d.evr, k);
      OpsEnd(Rel(v, inner.value.0, REL_COMPAT), inner.value.1, true);
    }
  }

  /** Parsing what was printed gives the dependency as reread. */
  lemma PrintThenParse(d: Dep)
    requires WellTyped(d) && Readable(d, false)
    ensures Str2Dep(Dep2Str(d, false)) == Reread(d)
  {
    hide Dep2Str, Reread, ParseComplex, Readable;
    Chain(d, "");
    assert Dep2Str(d, false) + "" == Dep2Str(d, false);
  }
}
