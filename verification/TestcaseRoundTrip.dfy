/** Parsing what was printed gives the same dependency back: exactly when. */
module TestcaseRoundTrip {
  import opened Common
  import opened TestcaseText
  import opened TestcaseWords
  import opened TestcaseOperators
  import opened TestcaseReread
  import opened TestcaseDerail

  /** Every word is read as what it was printed for, and every operator takes what it was printed with: no version that
      is a name with architecture, neither alone nor in front of a compat relation; no string that reads as one where a
      name stands; and no operator right behind a relation that takes it, a comparison whose version has a compat
      relation or an operator with negative flags. */
  predicate Clean(d: Dep) {
    d.Rel? ==>
      && Clean(d.name) && Clean(d.evr)
      && (IsRelop(d.flags) ==> !IsAny(d.evr) && (TakesTail(d) ==> !IsAny(d.evr.name)))
      && (!IsAtom(d) && !IsRelop(d.flags) && d.evr.Leaf? && d.evr.id.Str? && d.evr.id.s != "" ==>
           !EndsAny(Id2Str(d.evr.id, false)))
      && !OpenLeft(d)
  }

  lemma VersionSame(d: Dep)
    requires Reread(d) == d <==> Clean(d)
    ensures VersionName(d) == d <==> Clean(d) && !IsAny(d)
  {
    hide Clean;
  }

  /** Rereading changes nothing if and only if the dependency is clean. */
  lemma RereadSame(d: Dep)
    ensures Reread(d) == d <==> Clean(d)
    decreases d, 1
  {
    hide Clean, LeafAsName, VersionName, RereadRight, Attach;
    if d.Rel? {
      CleanParts(d);
      RereadSame(d.name);
      RereadSame(d.evr);
      if !IsAtom(d) {
        RightSame(d);
        if OpenLeft(d) { OpenDiffers(d); }
      }
    } else {
      CleanLeaf(d);
    }
  }

  lemma OpenDiffers(d: Dep)
    requires OpenLeft(d) && !IsAtom(d)
    ensures Reread(d) != d
  {
    hide RereadRight, AttachEnd, VersionName;
  }

  lemma CleanLeaf(d: Dep)
    requires d.Leaf?
    ensures Clean(d)
  {
  }

  /** What the right-hand side needs. */
  predicate CleanRight(d: Dep)
    requires d.Rel?
  {
    && Clean(d.evr)
    && (IsRelop(d.flags) ==> !IsAny(d.evr) && (TakesTail(d) ==> !IsAny(d.evr.name)))
    && (!IsRelop(d.flags) && d.evr.Leaf? && d.evr.id.Str? && d.evr.id.s != "" ==> !EndsAny(Id2Str(d.evr.id, false)))
  }

  lemma CleanParts(d: Dep)
    requires d.Rel?
    ensures !IsAtom(d) ==> (Clean(d) <==> Clean(d.name) && CleanRight(d) && !OpenLeft(d))
    ensures IsNamespace(d) ==> (Clean(d) <==> Clean(d.evr))
    ensures IsAny(d) ==> Clean(d)
  {
    hide Id2Str, EndsAny;
  }

  lemma RightSame(d: Dep)
    requires d.Rel?
    ensures RereadRight(d) == d.evr <==> CleanRight(d)
    decreases d.evr, 3
  {
    hide Clean, LeafAsName, VersionName, Reread;
    RereadSame(d.evr);
    VersionSame(d.evr);
    if TakesTail(d) {
      var c := d.evr;
      CleanParts(c);
      RereadSame(c.name);
      VersionSame(c.name);
      RightSame(c);
    } else if !IsRelop(d.flags) && d.evr.Leaf? {
      LeafSame(d.evr.id);
      CleanLeaf(d.evr);
    }
  }

  lemma LeafSame(x: Id)
    ensures LeafAsName(x) == Leaf(x) <==> !(x.Str? && x.s != "" && EndsAny(Id2Str(x, false)))
  {
    hide Id2Str, EndsAny;
  }

  /** The round trip, for every dependency: it is exact if and only if every operator is known, every name ends where it
      was printed to end, and the dependency is clean. */
  lemma RoundTrip(d: Dep)
    requires WellTyped(d)
    ensures Str2Dep(Dep2Str(d, false)) == d <==> Readable(d, false) && Clean(d)
  {
    hide Dep2Str, Reread, Str2Dep, Clean, Readable, WellTyped;
    if Readable(d, false) {
      PrintThenParse(d);
      RereadSame(d);
    } else {
      Derailed(d);
    }
  }

  // ----- the ways in which it fails -----

  /** Somewhere there is a namespace with a parenthesis in its name. */
  predicate CutSomewhere(d: Dep) {
    (IsNamespace(d) && '(' in d.name.id.s) || (d.Rel? && (CutSomewhere(d.name) || CutSomewhere(d.evr)))
  }

  /** Somewhere there is a package "namespace" with any architecture, and a parenthesis in the text behind it. */
  predicate RunsOnSomewhere(d: Dep, paren: bool) {
    if d.Leaf? then false
    else if IsNamespace(d) then RunsOnSomewhere(d.evr, paren)
    else if IsAny(d) then d.name.id == Str("namespace") && paren
    else RunsOnSomewhere(d.name, paren || '(' in RightText(d)) || RunsOnSomewhere(d.evr, paren)
  }

  /** Somewhere there is an operator with the flags -1, which is the parser's own mark for no operator. */
  predicate MinusOneSomewhere(d: Dep) {
    d.Rel? && (d.flags == -1 || MinusOneSomewhere(d.name) || MinusOneSomewhere(d.evr))
  }

  lemma LeafClear(d: Dep, paren: bool)
    requires d.Leaf?
    ensures Readable(d, paren) && !MinusOneSomewhere(d) && !CutSomewhere(d) && !RunsOnSomewhere(d, paren)
  {
  }

  lemma AtomClear(d: Dep, paren: bool)
    requires IsAny(d)
    ensures !MinusOneSomewhere(d) && !CutSomewhere(d)
    ensures Readable(d, paren) <==> !RunsOnSomewhere(d, paren)
  {
    hide Dep2Str, Id2Str, RightText;
    LeafClear(d.name, paren);
    LeafClear(d.evr, paren);
  }

  lemma NamespaceParts(d: Dep, paren: bool)
    requires IsNamespace(d)
    ensures MinusOneSomewhere(d) <==> MinusOneSomewhere(d.evr)
    ensures CutSomewhere(d) <==> '(' in d.name.id.s || CutSomewhere(d.evr)
    ensures RunsOnSomewhere(d, paren) <==> RunsOnSomewhere(d.evr, paren)
    ensures Readable(d, paren) <==> '(' !in d.name.id.s && Readable(d.evr, paren)
  {
    hide Dep2Str, Id2Str, RightText;
    LeafClear(d.name, paren);
  }

  lemma GeneralParts(d: Dep, paren: bool)
    requires !IsAtom(d)
    ensures var p := paren || '(' in RightText(d);
      && (MinusOneSomewhere(d) <==> d.flags == -1 || MinusOneSomewhere(d.name) || MinusOneSomewhere(d.evr))
      && (CutSomewhere(d) <==> CutSomewhere(d.name) || CutSomewhere(d.evr))
      && (RunsOnSomewhere(d, paren) <==> RunsOnSomewhere(d.name, p) || RunsOnSomewhere(d.evr, paren))
      && (Readable(d, paren) <==> d.flags != -1 && Readable(d.name, p) && Readable(d.evr, paren))
  {
    hide Dep2Str, Id2Str, RightText;
  }

  /** Apart from that operator these are the only two ways not to be readable: to misjudge where a name ends. */
  lemma {:induction false} ReadableMeans(d: Dep, paren: bool)
    ensures Readable(d, paren) <==> !MinusOneSomewhere(d) && !CutSomewhere(d) && !RunsOnSomewhere(d, paren)
    decreases d
  {
    hide Dep2Str, Id2Str, RightText, Readable, MinusOneSomewhere, CutSomewhere, RunsOnSomewhere;
    if d.Leaf? {
      LeafClear(d, paren);
    } else if IsNamespace(d) {
      NamespaceParts(d, paren);
      ReadableMeans(d.evr, paren);
    } else if IsAny(d) {
      AtomClear(d, paren);
    } else {
      GeneralParts(d, paren);
      ReadableMeans(d.name, paren || '(' in RightText(d));
      ReadableMeans(d.evr, paren);
    }
  }

  /** A namespace with a parenthesis in its name, wherever it stands, keeps a dependency from coming back. */
  lemma NamespaceParenFails(d: Dep)
    requires WellTyped(d) && CutSomewhere(d)
    ensures Str2Dep(Dep2Str(d, false)) != d
  {
    hide Dep2Str, Str2Dep, Clean, Readable, WellTyped;
    ReadableMeans(d, false);
    RoundTrip(d);
  }

  /** A package "namespace" with any architecture is taken for a namespace if and only if a parenthesis comes behind
      it: then the dependency does not come back, and otherwise this is no obstacle. */
  lemma NamespaceAnyExact(d: Dep)
    requires WellTyped(d) && Clean(d) && !CutSomewhere(d) && !MinusOneSomewhere(d)
    ensures Str2Dep(Dep2Str(d, false)) != d <==> RunsOnSomewhere(d, false)
  {
    hide Dep2Str, Str2Dep, Clean, Readable, WellTyped;
    ReadableMeans(d, false);
    RoundTrip(d);
  }

  /** The operator -1, wherever it stands, keeps a dependency from coming back. */
  lemma MinusOneFails(d: Dep)
    requires WellTyped(d) && MinusOneSomewhere(d)
    ensures Str2Dep(Dep2Str(d, false)) != d
  {
    hide Dep2Str, Str2Dep, Clean, Readable, WellTyped;
    ReadableMeans(d, false);
    RoundTrip(d);
  }

  /** An operator right behind a comparison whose version has a compat relation goes to that relation, and one behind an
      operator with negative flags to the right-hand side of that one. */
  lemma TailTaken(d: Dep)
    requires WellTyped(d) && Readable(d, false) && OpenLeft(d)
    ensures Str2Dep(Dep2Str(d, false)) == Attach(d.name, d.flags, RereadRight(d)) != d
  {
    hide Dep2Str, Str2Dep, Readable, WellTyped, RereadRight, AttachEnd;
    PrintThenParse(d);
    OpenIsGeneral(d);
  }

  lemma OpenIsGeneral(d: Dep)
    requires OpenLeft(d)
    ensures !IsAtom(d)
  {
  }

  const COMPAT_EXAMPLE :=
    Rel(Rel(Leaf(Str("a")), Rel(Leaf(Str("1")), Leaf(Str("2")), REL_COMPAT), 2), Leaf(Str("b")), REL_AND)

  const NEGATIVE_EXAMPLE := Rel(Rel(Leaf(Str("a")), Leaf(Str("b")), -2), Leaf(Str("c")), REL_AND)

  const NAMESPACE_EXAMPLE :=
    Rel(Rel(Leaf(Str("namespace")), ARCH_ANY, REL_MULTIARCH), Rel(Leaf(Str("x")), Leaf(Str("y")), REL_OR), REL_AND)

  const PAREN_EXAMPLE := Rel(Leaf(Str("namespace:a(b")), Leaf(Str("c")), REL_NAMESPACE)

  /** "a = 1 compat >= 2 & b" does not come back. */
  lemma CompatExample()
    ensures Str2Dep(Dep2Str(COMPAT_EXAMPLE, false)) != COMPAT_EXAMPLE
  {
    hide Dep2Str, Str2Dep, Id2Str;
    RoundTrip(COMPAT_EXAMPLE);
  }

  /** "a <4294967294> b & c", the relation with the flags -2 on the left, does not come back. */
  lemma NegativeExample()
    ensures Str2Dep(Dep2Str(NEGATIVE_EXAMPLE, false)) != NEGATIVE_EXAMPLE
  {
    hide Dep2Str, Str2Dep, Id2Str;
    RoundTrip(NEGATIVE_EXAMPLE);
  }

  /** "namespace:any & (x | y)" does not come back. */
  lemma NamespaceExample()
    ensures Str2Dep(Dep2Str(NAMESPACE_EXAMPLE, false)) != NAMESPACE_EXAMPLE
  {
    hide Dep2Str, Str2Dep, Id2Str, Clean;
    var r := NAMESPACE_EXAMPLE.evr;
    GeneralText(r);
    assert RightText(NAMESPACE_EXAMPLE) == "(" + Dep2Str(r, false) + ")";
    assert ("(" + Dep2Str(r, false) + ")")[0] == '(';
    RoundTrip(NAMESPACE_EXAMPLE);
  }

  /** "namespace:a(b(c)" does not come back. */
  lemma ParenExample()
    ensures Str2Dep(Dep2Str(PAREN_EXAMPLE, false)) != PAREN_EXAMPLE
  {
    hide Dep2Str, Str2Dep, Id2Str;
    assert "namespace:a(b"[11] == '(' && HasPrefix("namespace:a(b", "namespace:");
    NamespaceParenFails(PAREN_EXAMPLE);
  }
}
