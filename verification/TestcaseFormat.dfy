/** The text format itself, in characters and numbers: operators, parentheses, escapes. */
module TestcaseFormat {
  import opened Common
  import opened TestcaseText
  import opened TestcaseWords
  import opened TestcaseOperators

  // ----- operators -----

  /** The operators with a name of their own. */
  predicate Symbol(flags: int, sym: string) {
    || (flags == 1 && sym == ">")
    || (flags == 2 && sym == "=")
    || (flags == 3 && sym == ">=")
    || (flags == 4 && sym == "<")
    || (flags == 5 && sym == "<>")
    || (flags == 6 && sym == "<=")
    || (flags == 7 && sym == "<=>")
    || (flags == 16 && sym == "&")
    || (flags == 17 && sym == "|")
    || (flags == 18 && sym == "+")
    || (flags == 19 && sym == "<NAMESPACE>")
    || (flags == 20 && sym == ".")
    || (flags == 21 && sym == "<FILECONFLICT>")
    || (flags == 22 && sym == "<IF>")
    || (flags == 23 && sym == "compat >=")
    || (flags == 24 && sym == "<KIND>")
    || (flags == 25 && sym == "<MULTIARCH>")
    || (flags == 26 && sym == "<ELSE>")
    || (flags == 27 && sym == "<ERROR>")
    || (flags == 28 && sym == "-")
    || (flags == 29 && sym == "<UNLESS>")
    || (flags == 30 && sym == "<CONDA>")
  }

  predicate Named(flags: int) {
    1 <= flags <= 7 || 16 <= flags <= 30
  }

  lemma EntryOf(flags: int) returns (j: nat)
    requires Named(flags)
    ensures j < OPCOUNT && OpEntry(j).0 == flags
  {
    j := if flags < 8 then [0, 4, 0, 3, 21, 5, 2, 1][flags]
      else [6, 7, 8, 10, 11, 13, 14, 15, 16, 12, 17, 18, 9, 19, 20][flags - 16];
  }

  lemma EntrySymbol(j: nat)
    requires j < OPCOUNT
    ensures Named(OpEntry(j).0) && Symbol(OpEntry(j).0, OpEntry(j).1)
  {
  }

  lemma OneSymbol(flags: int, s: string, t: string)
    requires Symbol(flags, s) && Symbol(flags, t)
    ensures s == t && Named(flags)
  {
  }

  /** The name of an operator, or its number as an unsigned one. */
  lemma OperatorText(flags: int)
    ensures Named(flags) <==> exists sym :: Symbol(flags, sym)
    ensures forall sym :: Symbol(flags, sym) ==> OpName(flags, 0) == sym
    ensures !Named(flags) ==>
      OpName(flags, 0) == "<" + Dec(if flags < 0 then flags % 0x1_0000_0000 else flags) + ">"
  {
    hide OpEntry, OpName, Dec, Symbol, Named;
    var j := FindName(flags, 0);
    if j < OPCOUNT { EntrySymbol(j); }
    if Named(flags) {
      var i := EntryOf(flags);
      forall sym | Symbol(flags, sym) ensures OpName(flags, 0) == sym {
        OneSymbol(flags, sym, OpEntry(j).1);
      }
    } else {
      forall sym ensures !Symbol(flags, sym) {
        NoSymbol(flags, sym);
      }
    }
  }

  lemma NoSymbol(flags: int, sym: string)
    requires !Named(flags)
    ensures !Symbol(flags, sym)
  {
  }

  /** Every operator that is written with a blank behind it is read as its number. */
  lemma OperatorRead(flags: int, sym: string, r: string)
    requires Symbol(flags, sym)
    ensures ParseOp(sym + " " + r) == Some((flags, |sym|))
  {
    hide Symbol, ParseOp, OpName;
    OneSymbol(flags, sym, sym);
    OperatorText(flags);
    OpPrinted(flags, r);
  }

  lemma DecStep(n: nat, t: string)
    requires n >= 10 && Dec(n / 10) == t
    ensures Dec(n) == t + ['0' + (n % 10) as char]
  {
  }

  /** The operator -1 is written with the number of 32 set bits, in decimal digits. */
  lemma MinusOneText()
    ensures OpName(-1, 0) == "<4294967295>"
  {
    hide Dec, Symbol, OpName;
    OperatorText(-1);
    assert Dec(4) == "4" by { OneDigit(); }
    DecStep(42, "4");
    DecStep(429, "42");
    DecStep(4294, "429");
    DecStep(42949, "4294");
    DecStep(429496, "42949");
    DecStep(4294967, "429496");
    DecStep(42949672, "4294967");
    DecStep(429496729, "42949672");
    DecStep(4294967295, "429496729");
  }

  lemma OneDigit()
    ensures Dec(4) == "4"
  {
  }

  // ----- relations -----

  /** What is printed around an operator. The left side is in parentheses unless it is a comparison under an operator of
      another kind. So is the right side, except for chains of AND and of OR, and "compat >=" under a comparison. */
  lemma RelationText(name: Dep, evr: Dep, flags: int, addparens: bool, sym: string)
    requires Symbol(flags, sym)
    requires !(flags == 19 && name.Leaf? && name.id.Str? && |name.id.s| >= 10 && name.id.s[..10] == "namespace:")
    requires !(flags == 25 && name.Leaf? && evr == Leaf(Str("any")))
    ensures var left := name.Rel? && !(flags > 7 && flags != 23 && name.flags != 0 && name.flags <= 7);
      var right := evr.Rel? && !(flags > 7 && evr.flags != 0 && evr.flags <= 7) && !(flags == 16 == evr.flags)
        && !(flags == 17 == evr.flags) && !(1 <= flags <= 7 && evr.flags == 23);
      Dep2Str(Rel(name, evr, flags), addparens)
      == (if addparens then "(" else "") + Dep2Str(name, left) + " " + sym + " "
         + (if evr.Leaf? then Id2Str(evr.id, false) else Dep2Str(evr, right)) + if addparens then ")" else ""
  {
    hide OpName, Symbol, Id2Str;
    OperatorText(flags);
  }

  /** Two names with an operator between them. */
  lemma LeavesText(x: Id, y: Id, flags: int, sym: string)
    requires Symbol(flags, sym)
    requires !(flags == 19 && x.Str? && |x.s| >= 10 && x.s[..10] == "namespace:") && !(flags == 25 && y == Str("any"))
    ensures Dep2Str(Rel(Leaf(x), Leaf(y), flags), false) == Id2Str(x, true) + " " + sym + " " + Id2Str(y, false)
  {
    hide Symbol, Id2Str, OpName;
    RelationText(Leaf(x), Leaf(y), flags, false, sym);
    Around(Id2Str(x, true), sym, Id2Str(y, false));
  }

  lemma Around(a: string, sym: string, b: string)
    ensures "" + a + " " + sym + " " + b + "" == a + " " + sym + " " + b
  {
  }

  /** The two special forms. */
  lemma SpecialText(s: string, evr: Dep, x: Id, addparens: bool)
    requires |s| >= 10 && s[..10] == "namespace:"
    ensures Dep2Str(Rel(Leaf(Str(s)), evr, 19), addparens) == s + "(" + Dep2Str(evr, false) + ")"
    ensures Dep2Str(Rel(Leaf(x), Leaf(Str("any")), 25), addparens) == Id2Str(x, true) + ":any"
  {
    hide Id2Str, OpName;
  }

  // ----- names -----

  const HEX := "0123456789abcdef"
  const UPPER_HEX := "0123456789ABCDEF"

  /** A character as it is written, `first` in a name or not. */
  predicate Kept(c: char, first: bool) {
    && c > ' ' && c != '\\' && c != '(' && c != ')'
    && !(first && (c == '[' || c == '<' || c == '=' || c == '>' || c == '!'))
  }

  lemma EscapedChar(c: char, first: bool)
    ensures EscapeFrom([c], first)
      == if Kept(c, first) then [c] else ['\\', HEX[c as int / 16 % 16], HEX[c as int % 16]]
  {
    assert [c][1..] == "" && [c] + "" == [c];
    if !Kept(c, first) {
      DigitText(c as int / 16);
      DigitText(c as int % 16);
      assert Hex(c) + "" == Hex(c);
    }
  }

  lemma DigitText(n: nat)
    requires n < 16
    ensures HexDigit(n) == HEX[n]
  {
  }

  /** Escaping goes character by character. */
  lemma {:induction false} EscapedRest(a: string, b: string, first: bool)
    requires a != ""
    ensures EscapeFrom(a + b, first) == EscapeFrom(a, first) + EscapeFrom(b, false)
    decreases |a|
  {
    assert (a + b)[1..] == a[1..] + b;
    var h := if EscapeChar(a[0], first) then Hex(a[0]) else [a[0]];
    if |a| == 1 {
      assert a[1..] == "" && "" + b == b && h + "" == h;
    } else {
      EscapedRest(a[1..], b, false);
      FourParts(h, EscapeFrom(a[1..], false), EscapeFrom(b, false));
    }
  }

  lemma FourParts(a: string, b: string, c: string)
    ensures a + (b + c) == (a + b) + c
  {
  }

  /** The names that are written as they are. */
  ghost predicate Harmless(s: string, isname: bool) {
    && s != ""
    && Flat(s, false) && s[0] != '[' && s[0] != '(' && s[0] != '<' && s[0] != '=' && s[0] != '>' && s[0] != '!'
    && !(|s| >= 10 && s[..10] == "namespace:")
    && !(isname && |s| > 4 && s[|s| - 4..] == ":any")
  }

  lemma {:induction false} FlatTally(s: string, t: Tally)
    requires 0 <= t.paren <= 1 && Flat(s, t.paren == 1)
    ensures TallyAll(t, s).paren == 0 && Slack(TallyAll(t, s)) == Slack(t)
    decreases |s|
  {
    if s != "" { FlatTally(s[1..], TallyStep(t, s[0])); }
  }

  lemma HarmlessExactly(s: string, isname: bool)
    requires s != ""
    ensures NeedsEscape(s, isname) <==> !Harmless(s, isname)
  {
    hide TallyAll, Flat;
    if Harmless(s, isname) {
      assert s[0..] == s;
      FlatTally(s, Tally(0, 0, 0));
    }
    if !NeedsEscape(s, isname) { Unescaped(s, isname); }
  }

  /** What is written for a name or, with `isname` false, for a version. */
  lemma NameText(s: string, isname: bool)
    ensures Id2Str(Null, isname) == "<NULL>" && Id2Str(Str(""), isname) == "\\00"
    ensures Harmless(s, isname) ==> Id2Str(Str(s), isname) == s
    ensures s != "" && !Harmless(s, isname) && |s| >= 10 && s[..10] == "namespace:" ==>
      Id2Str(Str(s), isname) == AnyEscaped("namespace\\3a" + EscapeFrom(s[10..], true), isname)
    ensures s != "" && !Harmless(s, isname) && !(|s| >= 10 && s[..10] == "namespace:") ==>
      Id2Str(Str(s), isname) == AnyEscaped(EscapeFrom(s, true), isname)
  {
    hide NeedsEscape, EscapeFrom, Harmless, AnyEscaped, Escape;
    if s == "" {
      EmptyNot(isname);
    } else {
      HarmlessExactly(s, isname);
      EscapedText(s, isname);
    }
  }

  lemma EmptyNot(isname: bool)
    ensures !Harmless("", isname)
  {
  }

  lemma EscapedText(s: string, isname: bool)
    ensures Escape(s, isname)
      == AnyEscaped(if |s| >= 10 && s[..10] == "namespace:" then "namespace\\3a" + EscapeFrom(s[10..], true)
                    else EscapeFrom(s, true), isname)
  {
    hide EscapeFrom, AnyEscaped, EscapeAny;
    var t := if |s| >= 10 && s[..10] == "namespace:" then "namespace\\3a" + EscapeFrom(s[10..], true)
      else EscapeFrom(s, true);
    AnySame(t);
  }

  lemma AnySame(t: string)
    ensures AnyEscaped(t, true) == EscapeAny(t) && AnyEscaped(t, false) == t
  {
    if |t| > 4 {
      var e := t[|t| - 4..];
      assert e == [t[|t| - 4], t[|t| - 3], t[|t| - 2], t[|t| - 1]];
    }
  }

  /** The colon of ":any" at the end of a name is escaped. */
  function AnyEscaped(t: string, isname: bool): string {
    if isname && |t| > 4 && t[|t| - 4] == ':' && t[|t| - 3] == 'a' && t[|t| - 2] == 'n' && t[|t| - 1] == 'y'
    then t[..|t| - 4] + "\\3aany" else t
  }

  /** Plain names: no parentheses, nothing to escape. */
  lemma PlainName(s: string, isname: bool)
    requires s != "" && Kept(s[0], true) && forall i :: 0 <= i < |s| ==> Kept(s[i], false)
    requires !(|s| >= 10 && s[..10] == "namespace:") && !(isname && |s| > 4 && s[|s| - 4..] == ":any")
    ensures Id2Str(Str(s), isname) == s
  {
    hide Id2Str;
    KeptFlat(s);
    NameText(s, isname);
  }

  lemma {:induction false} KeptFlat(s: string)
    requires forall i :: 0 <= i < |s| ==> Kept(s[i], false)
    ensures Flat(s, false)
  {
    if s != "" { KeptFlat(s[1..]); }
  }

  // ----- reading -----

  /** Digits of both cases are read, and nothing else. */
  lemma HexRead(c: char)
    ensures HexValue(c) >= 0 ==> HexValue(c) < 16 && (c == HEX[HexValue(c)] || c == UPPER_HEX[HexValue(c)])
    ensures forall n :: 0 <= n < 16 && (c == HEX[n] || c == UPPER_HEX[n]) ==> HexValue(c) == n
  {
    forall n | 0 <= n < 16 && (c == HEX[n] || c == UPPER_HEX[n]) ensures HexValue(c) == n {
      DigitText(n);
      UpperDigit(n);
    }
    if HexValue(c) >= 0 {
      DigitText(HexValue(c));
      UpperDigit(HexValue(c));
    }
  }

  lemma UpperDigit(n: nat)
    requires n < 16
    ensures UPPER_HEX[n] == if n < 10 then '0' + n as char else 'A' + (n - 10) as char
  {
  }

  /** Blanks and tabs in front do not matter. */
  lemma BlanksSkipped(t: string, relop: bool)
    ensures ParseComplex(" " + t, relop) == ParseComplex(t, relop) == ParseComplex("\t" + t, relop)
  {
    hide ParseSimple, ParseOps, SkipBlanks, HasPrefix, IndexOf;
    OneBlank(t);
  }

  lemma OneBlank(t: string)
    ensures SkipBlanks(" " + t) == SkipBlanks(t) == SkipBlanks("\t" + t)
  {
    assert (" " + t)[1..] == t && ("\t" + t)[1..] == t;
  }

  /** A number that does not fit is read as the largest 64-bit one; only 32 bits are kept, as a signed number. */
  lemma NumbersKept(v: nat)
    ensures -0x8000_0000 <= ToFlags(v) < 0x8000_0000
    ensures v < 0x1_0000_0000_0000_0000 ==> (ToFlags(v) - v) % 0x1_0000_0000 == 0
    ensures v >= 0x1_0000_0000_0000_0000 ==> ToFlags(v) == -1
  {
    var q, low := v / 0x1_0000_0000, v % 0x1_0000_0000;
    assert v == q * 0x1_0000_0000 + low;
    WholeWords(-q);
    WholeWords(-q - 1);
  }

  lemma WholeWords(k: int)
    ensures k * 0x1_0000_0000 % 0x1_0000_0000 == 0
  {
  }
}
