/** Printed operators and names read back. */
module TestcaseOperators {
  import opened Common
  import opened TestcaseText
  import opened TestcaseWords

  /** The name of x:any read as a version, where the suffix is no suffix. */
  function AnyAsVersion(x: Id): Id {
    if x.Null? then Str("<NULL>:any") else if x.s == "" then Str("") else Str(x.s + ":any")
  }

  /** The right-hand side of an operator that takes names: a string that prints with ":any" at its end loses it. */
  function LeafAsName(x: Id): Dep {
    if x.Str? && x.s != "" && EndsAny(Id2Str(x, false)) then
      PrintedSpells(x.s, false);
      EncodesAny(Id2Str(x, false), x.s);
      Rel(Leaf(Str(x.s[..|x.s| - 4])), ARCH_ANY, REL_MULTIARCH) else Leaf(x)
  }

  // ----- operators -----

  lemma {:induction false} DigitsOf(n: nat)
    ensures forall i :: 0 <= i < |Dec(n)| ==> IsDigit(Dec(n)[i])
    ensures Value(Dec(n)) == n
  {
    if n >= 10 {
      DigitsOf(n / 10);
      assert Dec(n)[..|Dec(n)| - 1] == Dec(n / 10);
    }
  }

  lemma {:induction false} DigitsStop(t: string, k: string)
    requires (forall i :: 0 <= i < |t| ==> IsDigit(t[i])) && (k != "" ==> !IsDigit(k[0]))
    ensures Digits(t + k) == |t|
  {
    if t == "" {
      assert t + k == k;
    } else {
      assert (t + k)[1..] == t[1..] + k;
      DigitsStop(t[1..], k);
    }
  }

  lemma NumberRead(t: string, r: string)
    requires t != "" && forall i :: 0 <= i < |t| ==> IsDigit(t[i])
    ensures NumericOp("<" + t + ">" + r) == Some((ToFlags(Value(t)), |t| + 2))
  {
    hide Value, ToFlags, Digits;
    var u := t + (">" + r);
    DigitsStop(t, ">" + r);
    Regroup("<", t, ">", r);
    assert u[..|t|] == t && u[|t|] == '>';
    NumberStart("<" + u, u, |t|);
  }

  lemma Regroup(a: string, b: string, c: string, d: string)
    ensures a + b + c + d == a + (b + (c + d))
  {
  }

  lemma NumberStart(s: string, u: string, n: nat)
    requires |s| > 1 && s == "<" + u && n == Digits(u) && 0 < n < |u| && u[n] == '>'
    ensures NumericOp(s) == Some((ToFlags(Value(u[..n])), n + 2))
  {
    hide Value, ToFlags, Digits;
    assert s[1..] == u && IsDigit(u[0]);
  }

  /** An operator printed as a number. The parser takes -1 for no operator and looks for a name behind it. */
  lemma NumberOp(n: nat, r: string)
    requires n < 0x1_0000_0000
    ensures var s, k := "<" + Dec(n) + ">" + r, |Dec(n)| + 2;
      if ToFlags(n) != -1 then ParseOp(s) == Some((ToFlags(n), k))
      else ParseOp(s).Some? ==> FindOp(r, 0).Some?
  {
    hide Dec, Value, Digits, FindOp, NumericOp, ToFlags;
    DigitsOf(n);
    NumberRead(Dec(n), r);
    assert ("<" + Dec(n) + ">" + r)[|Dec(n)| + 2..] == r;
  }

  lemma {:induction false} NoOpAtBlank(s: string, i: nat)
    requires s != "" && s[0] == ' ' && i <= OPCOUNT
    ensures FindOp(s, i) == None
    decreases OPCOUNT - i
  {
    hide OpEntry, HasPrefix;
    if i < OPCOUNT {
      EntryChars(i);
      NoPrefix(s, OpEntry(i).1, 0);
      NoOpAtBlank(s, i + 1);
    }
  }

  /** Texts that differ early are no prefixes. */
  lemma NoPrefix(s: string, p: string, i: nat)
    requires i < |p| && (i < |s| ==> s[i] != p[i])
    ensures !HasPrefix(s, p)
  {
    if |s| >= |p| { assert s[..|p|][i] == s[i]; }
  }

  lemma IsPrefix(p: string, r: string)
    ensures HasPrefix(p + r, p)
  {
  }

  /** Every operator is found under its own name when a blank follows. */
  lemma NamedOp(j: nat, r: string)
    requires j < OPCOUNT
    ensures FindOp(OpEntry(j).1 + " " + r, 0) == Some((OpEntry(j).0, |OpEntry(j).1|))
  {
    hide FindOp, HasPrefix;
    var s := OpEntry(j).1 + " " + r;
    forall i: nat | i < j ensures !HasPrefix(s, OpEntry(i).1) {
      Distinguished(i, j, r);
    }
    IsPrefix(OpEntry(j).1, " " + r);
    assert s == OpEntry(j).1 + (" " + r);
    FindFrom(s, 0, j);
  }

  lemma {:induction false} FindFrom(s: string, i: nat, j: nat)
    requires i <= j < OPCOUNT && HasPrefix(s, OpEntry(j).1)
    requires forall m: nat :: i <= m < j ==> !HasPrefix(s, OpEntry(m).1)
    ensures FindOp(s, i) == Some((OpEntry(j).0, |OpEntry(j).1|))
    decreases j - i
  {
    hide OpEntry, HasPrefix;
    if i < j { FindFrom(s, i + 1, j); }
  }

  /** Earlier operators are no prefixes of later ones and their blank: one of the first three characters differs. */
  lemma Distinguished(i: nat, j: nat, r: string)
    requires i < j < OPCOUNT
    ensures !HasPrefix(OpEntry(j).1 + " " + r, OpEntry(i).1)
  {
    hide HasPrefix, OpEntry;
    var s, p := OpEntry(j).1 + " " + r, OpEntry(i).1;
    if j < 11 { Low(i, j); } else if j < 17 { Middle(i, j); } else { High(i, j); }
    Differ(OpEntry(j).1, OpEntry(i).1, r);
  }

  /** One of the first three characters of p is not that of q and a blank. */
  predicate Apart(q: string, p: string)
    requires q != "" && p != ""
  {
    || q[0] != p[0]
    || (|p| > 1 && (if |q| > 1 then q[1] else ' ') != p[1])
    || (|p| > 2 && |q| > 1 && (if |q| > 2 then q[2] else ' ') != p[2])
  }

  lemma Low(i: nat, j: nat)
    requires i < j < 11
    ensures Apart(OpEntry(j).1, OpEntry(i).1)
  {
  }

  lemma Middle(i: nat, j: nat)
    requires i < j && 11 <= j < 17
    ensures Apart(OpEntry(j).1, OpEntry(i).1)
  {
  }

  lemma High(i: nat, j: nat)
    requires i < j && 17 <= j < OPCOUNT
    ensures Apart(OpEntry(j).1, OpEntry(i).1)
  {
  }

  lemma Differ(q: string, p: string, r: string)
    requires q != "" && p != "" && Apart(q, p)
    ensures !HasPrefix(q + " " + r, p)
  {
    hide HasPrefix;
    var s := q + " " + r;
    if s[0] != p[0] {
      NoPrefix(s, p, 0);
    } else if |p| > 1 && s[1] != p[1] {
      NoPrefix(s, p, 1);
    } else {
      NoPrefix(s, p, 2);
    }
  }

  /** The operator's entry, or none. */
  lemma {:induction false} FindName(flags: int, i: nat) returns (j: nat)
    requires i <= OPCOUNT
    ensures i <= j <= OPCOUNT
    ensures j < OPCOUNT ==> OpEntry(j).0 == flags && OpName(flags, i) == OpEntry(j).1
    ensures forall m: nat :: i <= m < j ==> OpEntry(m).0 != flags
    ensures j == OPCOUNT ==> OpName(flags, i) == "<" + Dec(if flags < 0 then flags % 0x1_0000_0000 else flags) + ">"
    decreases OPCOUNT - i
  {
    hide OpEntry, Dec;
    if i == OPCOUNT || OpEntry(i).0 == flags { j := i; } else { j := FindName(flags, i + 1); }
  }

  /** The flags of a relation are a 32-bit int. */
  predicate IsFlags(flags: int) { -0x8000_0000 <= flags < 0x8000_0000 }

  /** The number printed for an operator without a name. */
  function Unsigned(flags: int): (n: nat)
    requires IsFlags(flags)
    ensures n < 0x1_0000_0000 && ToFlags(n) == flags
  {
    if flags < 0 then flags + 0x1_0000_0000 else flags
  }

  /** A printed operator and a blank are read back as that operator, except -1, which is refused. */
  lemma OpPrinted(flags: int, r: string)
    requires IsFlags(flags)
    ensures var op := ParseOp(OpName(flags, 0) + " " + r);
      if flags != -1 then op == Some((flags, |OpName(flags, 0)|)) else op == None
  {
    hide OpName, FindOp, HasPrefix, Dec, OpEntry, NumericOp, ToFlags;
    var j := FindName(flags, 0);
    if j < OPCOUNT {
      NamedOp(j, r);
      EntryShape(j, r);
      NoEntryBelow(j);
    } else {
      var n := Unsigned(flags);
      assert flags % 0x1_0000_0000 == n;
      NumberOp(n, " " + r);
      NoOpAtBlank(" " + r, 0);
      assert "<" + Dec(n) + ">" + " " + r == "<" + Dec(n) + ">" + (" " + r);
    }
  }

  lemma NoEntryBelow(j: nat)
    requires j < OPCOUNT
    ensures OpEntry(j).0 > 0
  {
  }

  /** How a printed operator looks. */
  lemma OpShape(flags: int, r: string)
    requires IsFlags(flags)
    ensures OpName(flags, 0) != "" && OpName(flags, 0)[0] !in " \t)" && '(' !in OpName(flags, 0)
    ensures flags != REL_COMPAT ==> !HasPrefix(OpName(flags, 0) + " " + r, "compat >= ")
  {
    hide OpName, HasPrefix, Dec, OpEntry, NumericOp, ParseOp, ToFlags;
    var j := FindName(flags, 0);
    if j < OPCOUNT {
      EntryShape(j, r);
      EntryChars(j);
    } else {
      var n := Unsigned(flags);
      assert flags % 0x1_0000_0000 == n;
      DigitsOf(n);
      NoPrefix("<" + Dec(n) + ">" + " " + r, "compat >= ", 0);
      forall i | 0 <= i < |Dec(n)| ensures Dec(n)[i] != '(' {
        assert IsDigit(Dec(n)[i]);
      }
    }
  }

  lemma EntryChars(j: nat)
    requires j < OPCOUNT
    ensures var p := OpEntry(j).1; p[0] != ' ' && p[0] != '\t' && p[0] != ')' && (|p| > 1 ==> !IsDigit(p[1]))
    ensures OpEntry(j).0 != REL_COMPAT ==> OpEntry(j).1[0] != 'c'
    ensures '(' !in OpEntry(j).1
  {
  }

  lemma EntryShape(j: nat, r: string)
    requires j < OPCOUNT
    ensures OpEntry(j).1[0] !in " \t)" && NumericOp(OpEntry(j).1 + " " + r) == None
    ensures OpEntry(j).0 != REL_COMPAT ==> !HasPrefix(OpEntry(j).1 + " " + r, "compat >= ")
  {
    hide HasPrefix, OpEntry;
    EntryChars(j);
    var s := OpEntry(j).1 + " " + r;
    assert !IsDigit(s[1]);
    if OpEntry(j).0 != REL_COMPAT { NoPrefix(s, "compat >= ", 0); }
  }

  // ----- names -----

  /** What reading the whole word t gives. */
  function SimpleOf(t: string, isname: bool): Dep {
    var isany := isname && EndsAny(t);
    var id := Leaf(TextId(if isany then t[..|t| - 4] else t, '\\' in t));
    if isany then Rel(id, ARCH_ANY, REL_MULTIARCH) else id
  }

  lemma WordRead(t: string, k: string, isname: bool)
    requires Word(t, false) && Stop(k)
    ensures ParseSimple(t + k, isname) == (SimpleOf(t, isname), k)
  {
    hide Scan, TextId, EndsAny;
    ScanWord(t, false, k);
    assert (t + k)[..|t|] == t && (t + k)[|t|..] == k;
    if isname && EndsAny(t) { AnyLong(t); assert (t + k)[..|t| - 4] == t[..|t| - 4]; }
  }

  lemma AnyLong(t: string)
    requires EndsAny(t)
    ensures |t| > 4
  {
  }

  /** A word that does not look like anything else is read as a name, whatever follows. */
  lemma WordOperand(t: string, k: string, relop: bool)
    requires t != "" && Word(t, false) && t[0] != '(' && !HasPrefix(t, "namespace:") && Stop(k)
    ensures ParseOperand(t + k, relop) == Some((SimpleOf(t, !relop), k))
  {
    hide Scan, TextId, EndsAny, SimpleOf, ParseSimple, HasPrefix;
    var s := t + k;
    NoBlank(s);
    NotNamespaceWord(t, k);
    WordRead(t, k, !relop);
  }

  lemma NoBlank(s: string)
    requires s == "" || (s[0] != ' ' && s[0] != '\t')
    ensures SkipBlanks(s) == s
  {
  }

  lemma NotNamespaceWord(t: string, k: string)
    requires !HasPrefix(t, "namespace:") && Stop(k)
    ensures !HasPrefix(t + k, "namespace:")
  {
    assert |t| >= 10 ==> (t + k)[..10] == t[..10];
    if HasPrefix(t + k, "namespace:") && |t| < 10 {
      PrefixAt(t + k, |t|);
    }
  }

  lemma WholeWord(t: string, s: string, isname: bool)
    requires Spells(t, s) && NoNul(s) && !(isname && EndsAny(t))
    ensures SimpleOf(t, isname) == Leaf(Str(s))
  {
    hide TextId, Encodes;
    SpellingRead(t, s, '\\' in t);
  }

  lemma StrippedWord(t: string, p: string, s: string)
    requires t == p + ":any" && p != "" && Encodes(p, s) && NoNul(s) && !IsSpecial(p[0])
    ensures SimpleOf(t, true) == Rel(Leaf(Str(s)), ARCH_ANY, REL_MULTIARCH)
  {
    hide TextId, Encodes;
    assert t[|t| - 4..] == ":any" && t[..|t| - 4] == p;
    SpellingRead(p, s, '\\' in t);
  }

  /** Names printed as names. */
  lemma NameRead(x: Id)
    requires x.Str? ==> NoNul(x.s)
    ensures SimpleOf(Id2Str(x, true), true) == Leaf(x)
  {
    hide TextId, Escape, NeedsEscape, Spells;
    if x.Str? && x.s != "" {
      PrintedSpells(x.s, true);
      WholeWord(Id2Str(x, true), x.s, true);
    } else {
      FixedNames();
    }
  }

  /** Names printed as names, but read as versions. */
  lemma NameAsVersion(x: Id)
    requires x.Str? ==> NoNul(x.s)
    ensures SimpleOf(Id2Str(x, true), false) == Leaf(x)
  {
    hide TextId, Escape, NeedsEscape, Spells;
    if x.Str? && x.s != "" {
      PrintedSpells(x.s, true);
      WholeWord(Id2Str(x, true), x.s, false);
    } else {
      FixedNames();
    }
  }

  lemma FixedNames()
    ensures SimpleOf("<NULL>", true) == SimpleOf("<NULL>", false) == Leaf(Null)
    ensures SimpleOf("\\00", true) == SimpleOf("\\00", false) == Leaf(Str(""))
  {
  }

  lemma FixedNull()
    ensures SimpleOf("<NULL>:any", true) == Rel(Leaf(Null), ARCH_ANY, REL_MULTIARCH)
    ensures SimpleOf("<NULL>:any", false) == Leaf(Str("<NULL>:any"))
  {
    assert "<NULL>:any"[..6] == "<NULL>" && "<NULL>:any"[6..] == ":any";
  }

  lemma FixedEmpty()
    ensures SimpleOf("\\00:any", true) == Rel(Leaf(Str("")), ARCH_ANY, REL_MULTIARCH)
    ensures SimpleOf("\\00:any", false) == Leaf(Str(""))
  {
    var t := "\\00:any";
    assert t[..3] == "\\00" && t[3..] == ":any";
    assert t[0] == '\\' && '\\' in t && t != "\\00";
    assert CString(Decode(t)) == "" by { assert Decode(t)[0] == '\0'; }
  }

  /** name:any, read as a name or as a version. */
  lemma AnyRead(x: Id)
    requires x.Str? ==> NoNul(x.s)
    ensures SimpleOf(Id2Str(x, true) + ":any", true) == Rel(Leaf(x), ARCH_ANY, REL_MULTIARCH)
    ensures SimpleOf(Id2Str(x, true) + ":any", false) == Leaf(AnyAsVersion(x))
  {
    hide TextId, Escape, NeedsEscape, SimpleOf, Encodes, Word;
    var p := Id2Str(x, true);
    if x.Null? {
      FixedNull();
      assert p + ":any" == "<NULL>:any";
    } else if x.s == "" {
      FixedEmpty();
      assert p + ":any" == "\\00:any";
    } else {
      PrintedSpells(x.s, true);
      StrippedWord(p + ":any", p, x.s);
      LiteralAny();
      EncodesConcat(p, x.s, ":any", ":any");
      VersionWord(p + ":any", x.s + ":any");
    }
  }

  lemma LiteralAny()
    ensures Encodes(":any", ":any") && Word(":any", false) && NoNul(":any")
  {
    Literal(":any");
  }

  lemma VersionWord(t: string, s: string)
    requires Encodes(t, s) && NoNul(s) && t != "" && !IsSpecial(t[0])
    ensures SimpleOf(t, false) == Leaf(Str(s))
  {
    hide TextId, Encodes;
    SpellingRead(t, s, '\\' in t);
  }

  /** Versions printed as versions, and read as versions or as names. */
  lemma RightLeafRead(x: Id)
    requires x.Str? ==> NoNul(x.s)
    ensures SimpleOf(Id2Str(x, false), false) == Leaf(x)
    ensures SimpleOf(Id2Str(x, false), true) == LeafAsName(x)
  {
    hide TextId, Escape, NeedsEscape, SimpleOf, Encodes, Word;
    if x.Str? && x.s != "" {
      var t := Id2Str(x, false);
      PrintedSpells(x.s, false);
      VersionWord(t, x.s);
      if EndsAny(t) {
        EncodesAny(t, x.s);
        assert t == t[..|t| - 4] + ":any";
        StrippedWord(t, t[..|t| - 4], x.s[..|x.s| - 4]);
      } else {
        WholeWord(t, x.s, true);
      }
    } else {
      FixedNames();
    }
  }

  /** What is printed for a name or version is one word. */
  lemma LeafWord(x: Id, isname: bool)
    ensures var t := Id2Str(x, isname); t != "" && Word(t, false) && t[0] != '(' && !HasPrefix(t, "namespace:")
  {
    hide Escape, NeedsEscape, Encodes;
    NoParenWord("<NULL>");
    NoParenWord("\\00");
    if x.Str? && x.s != "" { PrintedSpells(x.s, isname); }
  }

  /** x:any is one word; with the name "namespace", only when there is no parenthesis behind it. */
  lemma AnyOperand(x: Id, k: string, relop: bool)
    requires (x.Str? ==> NoNul(x.s)) && Stop(k) && !(x == Str("namespace") && '(' in k)
    ensures ParseOperand(Id2Str(x, true) + ":any" + k, relop) == Some((SimpleOf(Id2Str(x, true) + ":any", !relop), k))
  {
    hide Escape, NeedsEscape, Encodes, Word, Id2Str, ParseOperand, SimpleOf;
    var p := Id2Str(x, true);
    var t := p + ":any";
    LeafWord(x, true);
    LiteralAny();
    WordConcat(p, false, ":any");
    if HasPrefix(t, "namespace:") {
      AnyColon(p);
      NamedNamespace(x);
      LoneWord(t, k, relop);
    } else {
      WordOperand(t, k, relop);
    }
  }

  /** Without a parenthesis there is no namespace. */
  lemma LoneWord(t: string, k: string, relop: bool)
    requires t != "" && Word(t, false) && t[0] != '(' && HasPrefix(t, "namespace:") && '(' !in t && '(' !in k && Stop(k)
    ensures ParseOperand(t + k, relop) == Some((SimpleOf(t, !relop), k))
  {
    hide Scan, TextId, EndsAny, SimpleOf, ParseSimple;
    var s := t + k;
    PrefixAt(t, 0);
    NoBlank(s);
    WordRead(t, k, !relop);
    forall i | 0 <= i < |s| ensures s[i] != '(' {
      assert s[i] in s;
    }
  }

  lemma LongPrefix(p: string, q: string)
    requires |p| >= 10 && !HasPrefix(p, "namespace:")
    ensures !HasPrefix(p + q, "namespace:")
  {
    assert (p + q)[..10] == p[..10];
  }

  lemma AnyColon(p: string)
    requires HasPrefix(p + ":any", "namespace:") && !HasPrefix(p, "namespace:")
    ensures p == "namespace"
  {
    var t := p + ":any";
    if |p| >= 10 {
      LongPrefix(p, ":any");
    } else {
      PrefixAt(t, |p|);
      assert p == t[..10][..9];
    }
  }

  lemma NamedNamespace(x: Id)
    requires Id2Str(x, true) == "namespace"
    ensures x == Str("namespace")
  {
    hide Escape, NeedsEscape, Encodes, Word;
    if x.Str? && x.s != "" {
      PrintedSpells(x.s, true);
      PlainEncodes("namespace", x.s);
    }
  }
}
