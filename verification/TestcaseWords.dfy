/** Printed names read back: escaping is undone, and a name ends where it should. */
module TestcaseWords {
  import opened Common
  import opened TestcaseText

  // ----- words -----

  /** No blanks, no control characters, parentheses only in pairs side by side. */
  predicate Word(t: string, open: bool) {
    if t == "" then !open
    else if t[0] == '(' then !open && Word(t[1..], true)
    else if t[0] == ')' then open && Word(t[1..], false)
    else t[0] > ' ' && Word(t[1..], open)
  }

  /** What may follow a name. */
  predicate Stop(k: string) {
    k == "" || k[0] == ' ' || k[0] == ')'
  }

  lemma {:induction false} ScanWord(t: string, open: bool, k: string)
    requires Word(t, open) && Stop(k)
    ensures Scan(t + k, if open then 1 else 0) == |t|
  {
    if t == "" {
      assert t + k == k;
    } else {
      assert (t + k)[1..] == t[1..] + k && (t + k)[0] == t[0];
      ScanWord(t[1..], if t[0] == '(' then true else if t[0] == ')' then false else open, k);
    }
  }

  lemma {:induction false} WordConcat(a: string, open: bool, b: string)
    requires Word(a, open) && Word(b, false)
    ensures Word(a + b, open)
  {
    if a == "" {
      assert a + b == b;
    } else {
      assert (a + b)[1..] == a[1..] + b && (a + b)[0] == a[0];
      WordConcat(a[1..], if a[0] == '(' then true else if a[0] == ')' then false else open, b);
    }
  }

  // ----- when no escaping is needed -----

  predicate Flat(s: string, open: bool)
  {
    if s == "" then !open
    else if s[0] == '(' then !open && Flat(s[1..], true)
    else if s[0] == ')' then open && Flat(s[1..], false)
    else !IsBad(s[0]) && Flat(s[1..], open)
  }

  function Slack(t: Tally): int {
    t.bad - t.parenbad - if t.paren == 1 then 1 else 0
  }

  lemma {:induction false} TallyFlat(s: string, t: Tally)
    requires -1 <= t.paren <= 1
    ensures -1 <= TallyAll(t, s).paren <= 1
    ensures t.paren == -1 ==> TallyAll(t, s).paren == -1
    ensures TallyAll(t, s).paren == 0 ==> Slack(TallyAll(t, s)) >= Slack(t)
    ensures TallyAll(t, s).paren == 0 && Slack(TallyAll(t, s)) == Slack(t) ==> Flat(s, t.paren == 1)
    decreases |s|
  {
    if s != "" { TallyFlat(s[1..], TallyStep(t, s[0])); }
  }

  /** Unescaped names are flat, start with no special character and do not read as something else. */
  lemma Unescaped(s: string, isname: bool)
    requires s != "" && !NeedsEscape(s, isname)
    ensures Flat(s, false) && !IsSpecial(s[0]) && !HasPrefix(s, "namespace:") && !(isname && EndsAny(s))
  {
    var bad := (if IsSpecial(s[0]) then 1 else 0) + (if HasPrefix(s, "namespace:") then 1 else 0);
    if HasPrefix(s, "namespace:") { assert s[0] == s[..10][0] == 'n'; }
    TallyFlat(s[bad..], Tally(bad, 0, 0));
    assert s[0..] == s;
  }

  lemma {:induction false} FlatWord(s: string, open: bool)
    requires Flat(s, open)
    ensures Word(s, open) && Encodes(s, s) && '\\' !in s
  {
    if s != "" {
      FlatWord(s[1..], if s[0] == '(' then true else if s[0] == ')' then false else open);
      assert s == [s[0]] + s[1..];
    }
  }

  // ----- escapes -----

  /** t spells s, character by character, plain or escaped. */
  predicate Encodes(t: string, s: string)
    decreases |s|
  {
    if s == "" then t == ""
    else (t != "" && t[0] == s[0] && s[0] != '\\' && Encodes(t[1..], s[1..])) ||
         (EscapedAt(t, s[0]) && Encodes(t[3..], s[1..]))
  }

  predicate EscapedAt(t: string, c: char) {
    c as int < 256 && |t| >= 3 && t[0] == '\\' && t[1] == HexDigit(c as int / 16) && t[2] == HexDigit(c as int % 16)
  }

  predicate NoNul(s: string) {
    forall i :: 0 <= i < |s| ==> s[i] != '\0'
  }

  lemma HexBack(c: char)
    requires c as int < 256
    ensures HexValue(HexDigit(c as int / 16)) == c as int / 16 && HexValue(HexDigit(c as int % 16)) == c as int % 16
  {
  }

  lemma {:induction false} DecodeEncodes(t: string, s: string)
    requires Encodes(t, s)
    ensures Decode(t) == s
    decreases |s|
  {
    if s != "" {
      if t[0] == s[0] && s[0] != '\\' && Encodes(t[1..], s[1..]) {
        DecodeEncodes(t[1..], s[1..]);
      } else {
        HexBack(s[0]);
        DecodeEncodes(t[3..], s[1..]);
      }
      assert s == [s[0]] + s[1..];
    }
  }

  lemma {:induction false} PlainEncodes(t: string, s: string)
    requires Encodes(t, s) && '\\' !in t
    ensures t == s
    decreases |s|
  {
    if s != "" {
      if t[0] == s[0] && s[0] != '\\' && Encodes(t[1..], s[1..]) {
        PlainEncodes(t[1..], s[1..]);
        assert s == [s[0]] + s[1..] && t == [t[0]] + t[1..];
      }
    }
  }

  lemma {:induction false} EncodesConcat(t1: string, s1: string, t2: string, s2: string)
    requires Encodes(t1, s1) && Encodes(t2, s2)
    ensures Encodes(t1 + t2, s1 + s2)
    decreases |s1|
  {
    if s1 == "" {
      assert t1 + t2 == t2 && s1 + s2 == s2;
    } else {
      assert (s1 + s2)[1..] == s1[1..] + s2;
      if t1[0] == s1[0] && s1[0] != '\\' && Encodes(t1[1..], s1[1..]) {
        assert (t1 + t2)[1..] == t1[1..] + t2;
        EncodesConcat(t1[1..], s1[1..], t2, s2);
      } else {
        assert (t1 + t2)[3..] == t1[3..] + t2;
        EncodesConcat(t1[3..], s1[1..], t2, s2);
      }
    }
  }

  lemma {:induction false} CStringNoNul(s: string)
    requires NoNul(s)
    ensures CString(s) == s
  {
    if s != "" {
      assert NoNul(s[1..]);
      CStringNoNul(s[1..]);
      assert s == [s[0]] + s[1..];
    }
  }

  lemma SuffixTail(t: string, n: nat)
    requires HasSuffix(t, ":any") && n <= |t| - 4
    ensures HasSuffix(t[n..], ":any") && t[n..][..|t[n..]| - 4] == t[..|t| - 4][n..]
  {
    assert t[n..][|t[n..]| - 4..] == t[|t| - 4..];
  }

  lemma AnyAlone(s: string)
    requires Encodes(":any", s)
    ensures s == ":any"
  {
    PlainEncodes(":any", s);
  }

  lemma SuffixBack(s: string)
    requires s != "" && HasSuffix(s[1..], ":any")
    ensures HasSuffix(s, ":any") && s[..|s| - 4] == [s[0]] + s[1..][..|s[1..]| - 4]
  {
    assert s[|s| - 4..] == s[1..][|s[1..]| - 4..];
  }

  /** A literal ":any" at the end spells ":any". */
  lemma {:induction false} EncodesAny(t: string, s: string)
    requires Encodes(t, s) && HasSuffix(t, ":any")
    ensures HasSuffix(s, ":any") && Encodes(t[..|t| - 4], s[..|s| - 4])
    decreases |s|
  {
    var u := t[..|t| - 4];
    if |t| == 4 {
      assert t[0..] == t;
      AnyAlone(s);
      assert u == "" && s[..0] == "";
    } else if t[0] == s[0] && s[0] != '\\' && Encodes(t[1..], s[1..]) {
      SuffixTail(t, 1);
      EncodesAny(t[1..], s[1..]);
      SuffixBack(s);
      assert u[1..] == t[1..][..|t[1..]| - 4] && u[0] == t[0];
      assert s[..|s| - 4][1..] == s[1..][..|s[1..]| - 4];
    } else {
      NoOverlap(t, s[0]);
      SuffixTail(t, 3);
      EncodesAny(t[3..], s[1..]);
      SuffixBack(s);
      assert s[..|s| - 4][1..] == s[1..][..|s[1..]| - 4];
      assert EscapedAt(u, s[0]);
    }
  }

  /** An escape does not overlap the ":any" at the end. */
  lemma NoOverlap(t: string, c: char)
    requires EscapedAt(t, c) && HasSuffix(t, ":any")
    ensures |t| >= 7
  {
    var i := |t| - 4;
    assert t[i] == t[i..][0] == ':';
  }

  // ----- what is printed for a name -----

  predicate NoParen(t: string) {
    forall i :: 0 <= i < |t| ==> t[i] > ' ' && t[i] != '(' && t[i] != ')'
  }

  lemma {:induction false} NoParenWord(t: string)
    requires NoParen(t)
    ensures Word(t, false)
  {
    if t != "" { NoParenWord(t[1..]); }
  }

  lemma HexText(c: char)
    requires c as int < 256
    ensures NoParen(Hex(c)) && EscapedAt(Hex(c), c) && !IsSpecial(Hex(c)[0])
  {
  }

  lemma {:induction false} EscapeFromOk(s: string, first: bool)
    ensures Encodes(EscapeFrom(s, first), s) && NoParen(EscapeFrom(s, first))
    ensures s != "" ==> EscapeFrom(s, first) != "" && (first ==> !IsSpecial(EscapeFrom(s, first)[0]))
    decreases |s|
  {
    if s != "" {
      var r := EscapeFrom(s[1..], false);
      EscapeFromOk(s[1..], false);
      if EscapeChar(s[0], first) {
        HexText(s[0]);
        assert (Hex(s[0]) + r)[3..] == r;
        assert EscapedAt(Hex(s[0]) + r, s[0]);
      } else {
        assert ([s[0]] + r)[1..] == r;
      }
    }
  }

  /** A printed name that is to be read back as s. */
  ghost predicate Spells(t: string, s: string) {
    t != "" && Encodes(t, s) && Word(t, false) && !IsSpecial(t[0]) && !HasPrefix(t, "namespace:")
  }

  lemma ColonEscape()
    ensures Encodes("namespace\\3a", "namespace:") && Encodes("\\3aany", ":any") && NoParen("namespace\\3a")
    ensures NoParen("\\3aany")
  {
    hide Encodes;
    OneEscape("", "");
    OneEscape("any", "any");
    assert "\\3a" + "" == "\\3a" && "\\3a" + "any" == "\\3aany" && ":" + "" == ":" && ":" + "any" == ":any";
    Literal("namespace");
    EncodesConcat("namespace", "namespace", "\\3a", ":");
    assert "namespace" + "\\3a" == "namespace\\3a" && "namespace" + ":" == "namespace:";
  }

  lemma OneEscape(t: string, s: string)
    requires '\\' !in s && t == s
    ensures Encodes("\\3a" + t, ":" + s)
  {
    Literal(s);
    var u := "\\3a" + t;
    assert EscapedAt(u, ':') && u[3..] == t && (":" + s)[1..] == s;
  }

  lemma {:induction false} Literal(s: string)
    requires '\\' !in s
    ensures Encodes(s, s)
  {
    if s != "" { Literal(s[1..]); }
  }

  lemma EscapeAnyOk(t: string, s: string)
    requires Encodes(t, s) && NoParen(t)
    ensures Encodes(EscapeAny(t), s) && NoParen(EscapeAny(t)) && !EndsAny(EscapeAny(t))
    ensures t != "" ==> EscapeAny(t) != "" && (EndsAny(t) ==> EscapeAny(t)[0] == t[0])
  {
    if EndsAny(t) {
      EncodesAny(t, s);
      ColonEscape();
      EncodesConcat(t[..|t| - 4], s[..|s| - 4], "\\3aany", ":any");
      assert s[..|s| - 4] + ":any" == s;
      var out := t[..|t| - 4] + "\\3aany";
      assert out[|out| - 4..] == "aany" && "aany"[0] != ":any"[0];
    }
  }

  lemma PrefixAt(t: string, i: nat)
    requires HasPrefix(t, "namespace:") && i < 10
    ensures t[i] == "namespace:"[i]
  {
    assert t[..10][i] == t[i];
  }

  /** A stretch without backslashes spells itself. */
  lemma {:induction false} PlainPrefix(t: string, s: string, n: nat)
    requires Encodes(t, s) && n <= |t| && '\\' !in t[..n]
    ensures n <= |s| && s[..n] == t[..n]
    decreases |s|
  {
    if n > 0 {
      assert t[0] == t[..n][0];
      assert t[..n][1..] == t[1..][..n - 1];
      PlainPrefix(t[1..], s[1..], n - 1);
      assert s[..n] == [s[0]] + s[1..][..n - 1];
      assert t[..n] == [t[0]] + t[1..][..n - 1];
    }
  }

  lemma NamespaceSpelled(t: string, s: string)
    requires Encodes(t, s) && HasPrefix(t, "namespace:")
    ensures HasPrefix(s, "namespace:")
  {
    assert '\\' !in "namespace:";
    PlainPrefix(t, s, 10);
  }

  /** The escaped colon stays where it is. */
  lemma ColonStays(t: string)
    requires |t| >= 12 && t[9] == '\\' && t[10] == '3' && t[11] == 'a'
    ensures !HasPrefix(EscapeAny(t), "namespace:")
  {
    var u := EscapeAny(t);
    if EndsAny(t) {
      var i := |t| - 4;
      assert t[i] == t[i..][0] == ':' && t[i + 1] == t[i..][1] == 'a';
      assert u[9] == t[9];
    }
    if HasPrefix(u, "namespace:") { PrefixAt(u, 9); }
  }

  /** What is escaped before the ":any" at the end is looked at. */
  function EscapeBody(s: string): string {
    if HasPrefix(s, "namespace:") then "namespace\\3a" + EscapeFrom(s[10..], true) else EscapeFrom(s, true)
  }

  lemma EscapeBodyOk(s: string)
    requires s != ""
    ensures EscapeBody(s) != "" && Encodes(EscapeBody(s), s) && NoParen(EscapeBody(s)) && !IsSpecial(EscapeBody(s)[0])
    ensures HasPrefix(s, "namespace:") ==>
      |EscapeBody(s)| >= 12 && EscapeBody(s)[9] == '\\' && EscapeBody(s)[10] == '3' && EscapeBody(s)[11] == 'a'
  {
    hide Encodes, EscapeFrom, IsSpecial, EscapedAt;
    if HasPrefix(s, "namespace:") {
      EscapeFromOk(s[10..], true);
      ColonEscape();
      EncodesConcat("namespace\\3a", "namespace:", EscapeFrom(s[10..], true), s[10..]);
      assert s == "namespace:" + s[10..];
      NotSpecial('n');
    } else {
      EscapeFromOk(s, true);
    }
  }

  lemma BodyNotNamespace(s: string)
    requires s != ""
    ensures !HasPrefix(EscapeBody(s), "namespace:") && !HasPrefix(EscapeAny(EscapeBody(s)), "namespace:")
  {
    hide Encodes, EscapeBody, IsSpecial, EscapeAny;
    EscapeBodyOk(s);
    var out := EscapeBody(s);
    EscapeAnyOk(out, s);
    if HasPrefix(s, "namespace:") {
      ColonStays(out);
      if HasPrefix(out, "namespace:") { PrefixAt(out, 9); }
    } else {
      if HasPrefix(out, "namespace:") { NamespaceSpelled(out, s); }
      if HasPrefix(EscapeAny(out), "namespace:") { NamespaceSpelled(EscapeAny(out), s); }
    }
  }

  /** Escaping spells the name, and hides an ":any" at its end when it is to be read as a name. */
  lemma EscapeOk(s: string, isname: bool)
    requires s != ""
    ensures Spells(Escape(s, isname), s) && (isname ==> !EndsAny(Escape(s, isname)))
  {
    hide Encodes, EscapeBody, IsSpecial, EscapeAny;
    var out := EscapeBody(s);
    EscapeBodyOk(s);
    EscapeAnyOk(out, s);
    NoParenWord(out);
    NoParenWord(EscapeAny(out));
    BodyNotNamespace(s);
    EscapeIs(s, isname);
    FirstKept(out);
  }

  lemma EscapeIs(s: string, isname: bool)
    ensures Escape(s, isname) == if isname then EscapeAny(EscapeBody(s)) else EscapeBody(s)
  {
  }

  lemma FirstKept(t: string)
    requires t != ""
    ensures EscapeAny(t) != "" && EscapeAny(t)[0] == t[0]
  {
  }

  lemma NotSpecial(c: char)
    requires c == 'n' || c == '\\'
    ensures !IsSpecial(c)
  {
  }

  /** What is printed for a string spells it; read as a name, it does not end in ":any". */
  lemma PrintedSpells(s: string, isname: bool)
    requires s != ""
    ensures Spells(Id2Str(Str(s), isname), s) && (isname ==> !EndsAny(Id2Str(Str(s), isname)))
  {
    hide NeedsEscape, Escape, Encodes, Word;
    if NeedsEscape(s, isname) {
      EscapeOk(s, isname);
    } else {
      Unescaped(s, isname);
      FlatWord(s, false);
    }
  }

  lemma ZeroDecodes()
    ensures Decode("\\00") != "" && Decode("\\00")[0] == '\0'
  {
  }

  /** Reading a spelling back. */
  lemma SpellingRead(t: string, s: string, haveesc: bool)
    requires Encodes(t, s) && NoNul(s) && (t != "" ==> !IsSpecial(t[0])) && ('\\' in t ==> haveesc)
    ensures TextId(t, haveesc) == Str(s)
  {
    ZeroDecodes();
    assert IsSpecial("<NULL>"[0]);
    if haveesc {
      DecodeEncodes(t, s);
      CStringNoNul(s);
    } else {
      PlainEncodes(t, s);
    }
  }
}
