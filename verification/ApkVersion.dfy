/** Alpine package versions: how they split into parts, and the comparison part by part. */
module ApkVersion {
  import opened Common

  predicate IsLower(c: char) { 'a' <= c <= 'z' }

  predicate IsHex(c: char) { '0' <= c <= '9' || 'a' <= c <= 'f' }

  /** Length of the longest prefix of such characters. */
  function Run(s: string, p: char -> bool): (r: nat)
    ensures r <= |s| && (forall i :: 0 <= i < r ==> p(s[i])) && (r < |s| ==> !p(s[r]))
  {
    if s == [] || !p(s[0]) then 0 else 1 + Run(s[1..], p)
  }

  /** `suffixclass`: position in the list of known suffixes, from 1; 0 if unknown. */
  function SuffixClass(s: string): (r: nat)
    ensures r <= 9
  {
    if s == "alpha" then 1 else if s == "beta" then 2 else if s == "pre" then 3 else if s == "rc" then 4
    else if s == "cvs" then 5 else if s == "svn" then 6 else if s == "git" then 7 else if s == "hg" then 8
    else if s == "p" then 9 else 0
  }

  predicate IsReleaseSuffix(text: string) {
    1 <= SuffixClass(text[..Run(text, IsLower)]) < 5
  }

  /** Class, text, and what follows. */
  datatype Part = Part(cls: char, text: string, rest: string)

  /** The character at i; strings end with a NUL. */
  function At(s: string, i: nat): char
    requires i <= |s|
  {
    if i < |s| then s[i] else '\0'
  }

  /** Length of the part of class c at the start of t; 0 if there is none. */
  function PartLength(c: char, t: string): (n: nat)
    requires t != ""
    ensures n <= |t| && (n > 0 ==> c in {'.', '_', '-', '~'})
  {
    if c == '.' && IsDigit(t[0]) then Run(t, IsDigit)
    else if c == '_' && IsLower(t[0]) then Run(t, IsLower) + Run(t[Run(t, IsLower)..], IsDigit)
    else if c == '-' && t[0] == 'r' && |t| > 1 && t[1] >= '0' && At(t, 2) <= '9' then 1 + Run(t[1..], IsDigit)
    else if c == '~' && IsHex(t[0]) then Run(t, IsHex)
    else 0
  }

  /** `classify_part`: the next part of a version. '$' is the end, '!' is text that is no version. */
  function Classify(initial: bool, s: string): (r: Part)
    ensures r.cls in {'$', '!', 'X', '.', '_', '-', '~'}
    ensures r.cls != '$' && r.cls != '!' ==> |r.rest| < |s|
  {
    if s == "" then Part('$', "", "")
    else if IsLower(s[0]) then Part('X', s[..1], s[1..])
    else
      var number := initial && IsDigit(s[0]);
      var c, t := if number then '.' else s[0], if number then s else s[1..];
      if t == "" then Part('!', "", s)
      else
        var n := PartLength(c, t);
        if n == 0 then Part('!', "", s) else Part(c, t[..n], t[n..])
  }

  /** Shorter prefixes first, then character by character. */
  function StrCmp(a: string, b: string): (r: int)
    ensures -1 <= r <= 1
  {
    if a == "" && b == "" then 0 else if a == "" then -1 else if b == "" then 1
    else if a[0] != b[0] then (if a[0] < b[0] then -1 else 1)
    else StrCmp(a[1..], b[1..])
  }

  function StripZeros(s: string): string {
    if s != "" && s[0] == '0' then StripZeros(s[1..]) else s
  }

  /** Digit strings as numbers: leading zeros do not count. */
  function NumCmp(a: string, b: string): (r: int)
    ensures -1 <= r <= 1
  {
    var x, y := StripZeros(a), StripZeros(b);
    if |x| != |y| then (if |x| < |y| then -1 else 1) else StrCmp(x, y)
  }

  /** A revision without its 'r'. */
  function Revision(s: string): string {
    if s != "" && s[0] == 'r' then s[1..] else s
  }

  /** Compare two parts of the same class. */
  function TextCmp(initial: bool, cls: char, a: string, b: string): (r: int)
    ensures -1 <= r <= 1
  {
    if a == b then 0
    else if cls == '-' then NumCmp(Revision(a), Revision(b))
    else if cls == '_' then
      var l, m := Run(a, IsLower), Run(b, IsLower);
      var c, d := SuffixClass(a[..l]), SuffixClass(b[..m]);
      if c != d then (if c < d then -1 else 1) else NumCmp(a[l..], b[m..])
    else if cls == '.' && (initial || (a != "" && b != "" && a[0] != '0' && b[0] != '0')) then NumCmp(a, b)
    else StrCmp(a, b)
  }

  /** Position in the class order ".X_~-$!". */
  function ClassOrder(c: char): nat {
    if c == '.' then 0 else if c == 'X' then 1 else if c == '_' then 2 else if c == '~' then 3
    else if c == '-' then 4 else if c == '$' then 5 else 6
  }

  /** Compare two parts of different classes. */
  function ClassCmp(c1: char, text1: string, c2: char, text2: string): (r: int)
    ensures -1 <= r <= 1
  {
    if c1 == '_' && IsReleaseSuffix(text1) then -1
    else if c2 == '_' && IsReleaseSuffix(text2) then 1
    else if c1 == '.' || c2 == '!' then 1
    else if c2 == '.' || c1 == '!' || c1 == '$' then -1
    else if c2 == '$' then 1
    else if ClassOrder(c1) > ClassOrder(c2) then -1
    else if ClassOrder(c1) < ClassOrder(c2) then 1
    else 0
  }

  /** `solv_vercmp_apk` after the fuzzy marks. */
  function VerCmp(initial: bool, s1: string, s2: string, fuzzy1: bool, fuzzy2: bool): (r: int)
    ensures -1 <= r <= 1
    decreases |s1|
  {
    var p, q := Classify(initial, s1), Classify(initial, s2);
    if p.cls == q.cls && p.cls != '!' && p.cls != '$' then
      var r := TextCmp(initial, p.cls, p.text, q.text);
      if r != 0 then r else VerCmp(false, p.rest, q.rest, fuzzy1, fuzzy2)
    else if p.cls == q.cls then 0
    else if (fuzzy1 && p.cls == '$') || (fuzzy2 && q.cls == '$') then 0
    else ClassCmp(p.cls, p.text, q.cls, q.text)
  }

  // ----- the loops -----

  method Skip(s: string, i: nat, p: char -> bool) returns (j: nat)
    requires i <= |s|
    ensures j == i + Run(s[i..], p)
  {
    j := i;
    while j < |s| && p(s[j])
      invariant i <= j <= |s| && Run(s[i..], p) == (j - i) + Run(s[j..], p)
    {
      assert s[j..][1..] == s[j + 1..];
      j := j + 1;
    }
  }

  /** The end of the part of class c that starts at i; i if there is none. */
  method PartEnd(c: char, evr: string, i: nat) returns (j: nat)
    requires i < |evr|
    ensures j == i + PartLength(c, evr[i..])
  {
    hide Run, IsDigit, IsLower, IsHex;
    ghost var t := evr[i..];
    j := i;
    if c == '.' && IsDigit(evr[i]) {
      j := Skip(evr, i, IsDigit);
    } else if c == '_' && IsLower(evr[i]) {
      j := Skip(evr, i, IsLower);
      assert evr[j..] == t[j - i..];
      j := Skip(evr, j, IsDigit);
    } else if c == '-' && evr[i] == 'r' && i + 1 < |evr| && evr[i + 1] >= '0' && At(evr, i + 2) <= '9' {
      assert evr[i + 1..] == t[1..];
      j := Skip(evr, i + 1, IsDigit);
    } else if c == '~' && IsHex(evr[i]) {
      j := Skip(evr, i, IsHex);
    }
  }

  method ClassifyPart(initial: bool, evr: string) returns (c: char, part: string, rest: string)
    ensures Part(c, part, rest) == Classify(initial, evr)
  {
    hide PartLength;
    if |evr| == 0 {
      return '$', "", "";
    }
    c := evr[0];
    var i := 1;
    if IsLower(c) {
      return 'X', evr[..1], evr[1..];
    }
    if initial && IsDigit(c) {
      c, i := '.', 0;
      assert evr[0..] == evr;
    }
    if i >= |evr| {
      return '!', "", evr;
    }
    var j := PartEnd(c, evr, i);
    if j == i {
      return '!', "", evr;
    }
    assert evr[i..j] == evr[i..][..j - i] && evr[j..] == evr[i..][j - i..];
    return c, evr[i..j], evr[j..];
  }

  /** `strncmp` up to the shorter one, then the lengths. */
  method CompareStrings(a: string, b: string) returns (r: int)
    ensures r == StrCmp(a, b)
  {
    var i := 0;
    while i < |a| && i < |b| && a[i] == b[i]
      invariant i <= |a| && i <= |b| && StrCmp(a, b) == StrCmp(a[i..], b[i..])
    {
      assert a[i..][1..] == a[i + 1..] && b[i..][1..] == b[i + 1..];
      i := i + 1;
    }
    if i < |a| && i < |b| {
      return if a[i] < b[i] then -1 else 1;
    }
    return if |a| == |b| then 0 else if |a| < |b| then -1 else 1;
  }

  method SkipZeros(s: string) returns (r: string)
    ensures r == StripZeros(s)
  {
    r := s;
    while r != "" && r[0] == '0'
      invariant StripZeros(r) == StripZeros(s)
      decreases |r|
    {
      r := r[1..];
    }
  }

  method CompareParts(initial: bool, c: char, a: string, b: string) returns (r: int)
    ensures r == TextCmp(initial, c, a, b)
  {
    hide Run, SuffixClass, StripZeros, StrCmp;
    if a == b {
      return 0;
    }
    var p, q := a, b;
    if c == '-' {
      if p != "" && p[0] == 'r' {
        p := p[1..];
      }
      if q != "" && q[0] == 'r' {
        q := q[1..];
      }
    } else if c == '_' {
      var l := Skip(p, 0, IsLower);
      var m := Skip(q, 0, IsLower);
      assert p[0..] == p && q[0..] == q;
      var c1, c2 := SuffixClass(p[..l]), SuffixClass(q[..m]);
      if c1 != c2 {
        return if c1 < c2 then -1 else 1;
      }
      p, q := p[l..], q[m..];
    }
    if (c == '.' && (initial || (p != "" && q != "" && p[0] != '0' && q[0] != '0'))) || c == '_' || c == '-' {
      p := SkipZeros(p);
      q := SkipZeros(q);
      if |p| != |q| {
        return if |p| < |q| then -1 else 1;
      }
    }
    r := CompareStrings(p, q);
  }

  method VercmpApk(version1: string, version2: string) returns (r: int)
    ensures var f1, f2 := version1 != "" && version1[0] == '~', version2 != "" && version2[0] == '~';
      r == VerCmp(true, if f1 then version1[1..] else version1, if f2 then version2[1..] else version2, f1, f2)
  {
    var evr1, evr2 := version1, version2;
    var fuzzy1, fuzzy2 := false, false;
    if evr1 != "" && evr1[0] == '~' {
      fuzzy1, evr1 := true, evr1[1..];
    }
    if evr2 != "" && evr2[0] == '~' {
      fuzzy2, evr2 := true, evr2[1..];
    }
    ghost var result := VerCmp(true, evr1, evr2, fuzzy1, fuzzy2);
    var initial := true;
    while true
      invariant VerCmp(initial, evr1, evr2, fuzzy1, fuzzy2) == result
      decreases |evr1|
    {
      var c1, p1, rest1 := ClassifyPart(initial, evr1);
      var c2, p2, rest2 := ClassifyPart(initial, evr2);
      if c1 != c2 || c1 == '!' || c1 == '$' {
        if c1 == c2 {
          return 0;
        }
        if (fuzzy1 && c1 == '$') || (fuzzy2 && c2 == '$') {
          return 0;
        }
        return ClassCmp(c1, p1, c2, p2);
      }
      var d := CompareParts(initial, c1, p1, p2);
      if d != 0 {
        return d;
      }
      evr1, evr2, initial := rest1, rest2, false;
    }
  }

  // ----- the order -----

  /** One parsed part. */
  datatype Key = Key(cls: char, text: string)

  predicate Terminal(c: char) { c == '!' || c == '$' }

  /** The parts of a version on its own, up to the end or to text that is no version. */
  function Parse(initial: bool, s: string): (r: seq<Key>)
    ensures |r| > 0 && Terminal(r[|r| - 1].cls)
    decreases |s|
  {
    var p := Classify(initial, s);
    if Terminal(p.cls) then [Key(p.cls, p.text)] else [Key(p.cls, p.text)] + Parse(false, p.rest)
  }

  function KeyCmp(initial: bool, a: Key, b: Key): int {
    if a.cls != b.cls then ClassCmp(a.cls, a.text, b.cls, b.text)
    else if Terminal(a.cls) then 0 else TextCmp(initial, a.cls, a.text, b.text)
  }

  /** The first differing part decides. */
  function LexCmp(initial: bool, a: seq<Key>, b: seq<Key>): int {
    if a == [] || b == [] then 0
    else if KeyCmp(initial, a[0], b[0]) != 0 then KeyCmp(initial, a[0], b[0])
    else LexCmp(false, a[1..], b[1..])
  }

  /** The comparison is the lexicographic one of the two versions parsed on their own. */
  lemma {:induction false} ComparesParts(initial: bool, s1: string, s2: string)
    ensures VerCmp(initial, s1, s2, false, false) == LexCmp(initial, Parse(initial, s1), Parse(initial, s2))
    decreases |s1|
  {
    hide TextCmp, ClassCmp;
    var p, q := Classify(initial, s1), Classify(initial, s2);
    var a, b := Parse(initial, s1), Parse(initial, s2);
    if p.cls == q.cls && !Terminal(p.cls) {
      assert a[1..] == Parse(false, p.rest) && b[1..] == Parse(false, q.rest);
      ComparesParts(false, p.rest, q.rest);
    } else if p.cls != q.cls {
      DifferentClass(p.cls, p.text, q.cls, q.text);
    }
  }

  /** Different classes never compare equal. */
  lemma DifferentClass(c1: char, t1: string, c2: char, t2: string)
    requires c1 != c2 && c1 in {'$', '!', 'X', '.', '_', '-', '~'} && c2 in {'$', '!', 'X', '.', '_', '-', '~'}
    ensures ClassCmp(c1, t1, c2, t2) != 0
  {
    hide IsReleaseSuffix;
  }

  // ----- strings and numbers are totally ordered -----

  lemma {:induction false} StrAnti(a: string, b: string)
    ensures StrCmp(a, b) == -StrCmp(b, a) && (StrCmp(a, b) == 0 <==> a == b)
  {
    if a != "" && b != "" && a[0] == b[0] {
      StrAnti(a[1..], b[1..]);
      assert a == [a[0]] + a[1..] && b == [b[0]] + b[1..];
    }
  }

  lemma {:induction false} StrTrans(a: string, b: string, c: string)
    requires StrCmp(a, b) <= 0 && StrCmp(b, c) <= 0
    ensures StrCmp(a, c) <= 0
  {
    if a != "" && b != "" && c != "" && a[0] == b[0] == c[0] {
      StrTrans(a[1..], b[1..], c[1..]);
    }
  }

  lemma NumAnti(a: string, b: string)
    ensures NumCmp(a, b) == -NumCmp(b, a) && NumCmp(a, a) == 0
  {
    StrAnti(StripZeros(a), StripZeros(b));
    StrAnti(StripZeros(a), StripZeros(a));
  }

  lemma NumTrans(a: string, b: string, c: string)
    requires NumCmp(a, b) <= 0 && NumCmp(b, c) <= 0
    ensures NumCmp(a, c) <= 0
  {
    hide StripZeros, StrCmp;
    var x, y, z := StripZeros(a), StripZeros(b), StripZeros(c);
    if |x| == |y| == |z| { StrTrans(x, y, z); }
  }

  // ----- parts of the same class -----

  predicate KnownSuffix(k: Key) {
    k.cls == '_' ==> SuffixClass(k.text[..Run(k.text, IsLower)]) != 0
  }

  /** What parsing yields: numbers have digits, and the end has no text. */
  predicate WellFormed(k: Key) {
    k.cls in {'$', '!', 'X', '.', '_', '-', '~'} && (k.cls == '.' ==> DigitStart(k.text))
  }

  lemma TextAnti(initial: bool, cls: char, a: string, b: string)
    ensures TextCmp(initial, cls, a, b) == -TextCmp(initial, cls, b, a)
  {
    hide NumCmp, StrCmp, SuffixClass, Run;
    StrAnti(a, b);
    NumAnti(a, b);
    NumAnti(Revision(a), Revision(b));
    NumAnti(a[Run(a, IsLower)..], b[Run(b, IsLower)..]);
  }

  predicate DigitStart(s: string) {
    s != "" && IsDigit(s[0])
  }

  /** Behind the first part, a number with a leading zero sorts below every number without one, whatever their values,
      and two numbers with a leading zero sort as strings. */
  lemma ZeroFirst(a: string, b: string)
    requires DigitStart(a) && DigitStart(b) && a[0] == '0'
    ensures TextCmp(false, '.', a, b) == StrCmp(a, b) && (b[0] != '0' ==> StrCmp(a, b) == -1)
  {
    StrAnti(a, b);
  }

  lemma NumbersTrans(initial: bool, a: string, b: string, c: string)
    requires DigitStart(a) && DigitStart(b) && DigitStart(c)
    requires TextCmp(initial, '.', a, b) <= 0 && TextCmp(initial, '.', b, c) <= 0
    ensures TextCmp(initial, '.', a, c) <= 0
  {
    hide NumCmp, StrCmp;
    NumAnti(a, b);
    StrAnti(a, b);
    StrAnti(b, c);
    StrAnti(a, c);
    if initial || (a[0] != '0' && b[0] != '0' && c[0] != '0') {
      if a != b && b != c { NumTrans(a, b, c); }
    } else {
      MixedTrans(a, b, c);
    }
  }

  lemma MixedTrans(a: string, b: string, c: string)
    requires DigitStart(a) && DigitStart(b) && DigitStart(c) && (a[0] == '0' || b[0] == '0' || c[0] == '0')
    requires TextCmp(false, '.', a, b) <= 0 && TextCmp(false, '.', b, c) <= 0
    ensures TextCmp(false, '.', a, c) <= 0
  {
    hide NumCmp, StrCmp;
    StrAnti(a, b);
    StrAnti(b, c);
    StrAnti(a, c);
    if a[0] == '0' && c[0] != '0' {
      ZeroFirst(a, c);
    } else if a[0] == '0' {
      if b[0] != '0' { ZeroFirst(c, b); } else { StrTrans(a, b, c); }
    } else {
      if b[0] == '0' { ZeroFirst(b, a); } else { ZeroFirst(c, b); }
    }
  }

  lemma TextTrans(initial: bool, cls: char, a: string, b: string, c: string)
    requires cls == '.' ==> DigitStart(a) && DigitStart(b) && DigitStart(c)
    requires TextCmp(initial, cls, a, b) <= 0 && TextCmp(initial, cls, b, c) <= 0
    ensures TextCmp(initial, cls, a, c) <= 0
  {
    hide NumCmp, StrCmp, SuffixClass, Run;
    if a != b && b != c {
      if cls == '.' {
        NumbersTrans(initial, a, b, c);
      } else if cls == '-' {
        NumTrans(Revision(a), Revision(b), Revision(c));
      } else if cls == '_' {
        var x, y, z := a[Run(a, IsLower)..], b[Run(b, IsLower)..], c[Run(c, IsLower)..];
        if NumCmp(x, y) <= 0 && NumCmp(y, z) <= 0 { NumTrans(x, y, z); }
      } else {
        StrTrans(a, b, c);
      }
    }
  }

  // ----- parts of any class -----

  /** Lowest to highest: release suffix, no version, end, revision, hash, other suffix, letter, number. */
  function Rank(k: Key): nat {
    if k.cls == '_' then (if IsReleaseSuffix(k.text) then 0 else 5)
    else if k.cls == '!' then 1 else if k.cls == '$' then 2 else if k.cls == '-' then 3
    else if k.cls == '~' then 4 else if k.cls == 'X' then 6 else 7
  }

  /** Parts of different rank compare by rank, as long as their suffixes are known. */
  lemma RankDecides(initial: bool, a: Key, b: Key)
    requires WellFormed(a) && WellFormed(b) && KnownSuffix(a) && KnownSuffix(b) && Rank(a) != Rank(b)
    ensures KeyCmp(initial, a, b) == if Rank(a) < Rank(b) then -1 else 1
  {
    hide NumCmp, StrCmp, SuffixClass, Run;
  }

  lemma SameRank(a: Key, b: Key)
    requires WellFormed(a) && WellFormed(b) && Rank(a) == Rank(b)
    ensures a.cls == b.cls
  {
    hide IsReleaseSuffix;
  }

  lemma KeyAnti(initial: bool, a: Key, b: Key)
    requires WellFormed(a) && WellFormed(b)
    ensures KeyCmp(initial, a, b) == -KeyCmp(initial, b, a)
  {
    hide TextCmp, IsReleaseSuffix;
    TextAnti(initial, a.cls, a.text, b.text);
  }

  lemma KeyTrans(initial: bool, a: Key, b: Key, c: Key)
    requires WellFormed(a) && WellFormed(b) && WellFormed(c) && KnownSuffix(a) && KnownSuffix(b) && KnownSuffix(c)
    requires KeyCmp(initial, a, b) <= 0 && KeyCmp(initial, b, c) <= 0
    ensures KeyCmp(initial, a, c) <= 0
  {
    hide TextCmp, Rank, KeyCmp, DigitStart;
    if Rank(a) != Rank(b) { RankDecides(initial, a, b); }
    if Rank(b) != Rank(c) { RankDecides(initial, b, c); }
    if Rank(a) != Rank(c) {
      RankDecides(initial, a, c);
    } else if Rank(a) == Rank(b) {
      SameRank(a, b);
      SameRank(b, c);
      SameClassTrans(initial, a, b, c);
    }
  }

  lemma SameClassTrans(initial: bool, a: Key, b: Key, c: Key)
    requires WellFormed(a) && WellFormed(b) && WellFormed(c) && a.cls == b.cls == c.cls
    requires KeyCmp(initial, a, b) <= 0 && KeyCmp(initial, b, c) <= 0
    ensures KeyCmp(initial, a, c) <= 0
  {
    hide TextCmp;
    if !Terminal(a.cls) { TextTrans(initial, a.cls, a.text, b.text, c.text); }
  }

  // ----- versions -----

  ghost predicate Ordered(a: seq<Key>) {
    forall k :: k in a ==> WellFormed(k) && KnownSuffix(k)
  }

  /** Versions all of whose suffixes are known. */
  ghost predicate Known(s: string) {
    forall k :: k in Parse(true, s) ==> KnownSuffix(k)
  }

  lemma {:induction false} ParseWellFormed(initial: bool, s: string)
    ensures forall k :: k in Parse(initial, s) ==> WellFormed(k)
    decreases |s|
  {
    var p := Classify(initial, s);
    ClassifyWellFormed(initial, s);
    if !Terminal(p.cls) { ParseWellFormed(false, p.rest); }
  }

  lemma ClassifyWellFormed(initial: bool, s: string)
    ensures WellFormed(Key(Classify(initial, s).cls, Classify(initial, s).text))
  {
    var p := Classify(initial, s);
    if p.cls == '.' {
      var t := if initial && IsDigit(s[0]) then s else s[1..];
      assert p.text == t[..PartLength('.', t)];
    }
  }

  /** A parsed version: only its last part is terminal. */
  ghost predicate Ends(a: seq<Key>) {
    |a| > 0 && Terminal(a[|a| - 1].cls) && forall i :: 0 <= i < |a| - 1 ==> !Terminal(a[i].cls)
  }

  lemma {:induction false} ParseEnds(initial: bool, s: string)
    ensures Ends(Parse(initial, s))
    decreases |s|
  {
    var p := Classify(initial, s);
    if !Terminal(p.cls) { ParseEnds(false, p.rest); }
  }

  lemma {:induction false} LexAnti(initial: bool, a: seq<Key>, b: seq<Key>)
    requires forall k :: k in a ==> WellFormed(k)
    requires forall k :: k in b ==> WellFormed(k)
    ensures LexCmp(initial, a, b) == -LexCmp(initial, b, a)
  {
    hide KeyCmp, WellFormed, KnownSuffix;
    if a != [] && b != [] {
      KeyAnti(initial, a[0], b[0]);
      LexAnti(false, a[1..], b[1..]);
    }
  }

  lemma {:induction false} LexTrans(initial: bool, a: seq<Key>, b: seq<Key>, c: seq<Key>)
    requires Ordered(a) && Ordered(b) && Ordered(c) && Ends(a) && Ends(b) && Ends(c)
    requires LexCmp(initial, a, b) <= 0 && LexCmp(initial, b, c) <= 0
    ensures LexCmp(initial, a, c) <= 0
  {
    hide KeyCmp, WellFormed, KnownSuffix;
    KeyTrans(initial, a[0], b[0], c[0]);
    KeyAnti(initial, a[0], b[0]);
    KeyAnti(initial, b[0], c[0]);
    KeyAnti(initial, a[0], c[0]);
    if KeyCmp(initial, a[0], c[0]) == 0 {
      KeyTrans(initial, c[0], a[0], b[0]);
      KeyTrans(initial, b[0], c[0], a[0]);
      SameEnd(initial, a, b);
      SameEnd(initial, b, c);
      if |a| > 1 { LexTrans(false, a[1..], b[1..], c[1..]); }
    }
  }

  /** Parts that compare equal are both terminal or both not. */
  lemma SameEnd(initial: bool, a: seq<Key>, b: seq<Key>)
    requires Ends(a) && Ends(b) && WellFormed(a[0]) && WellFormed(b[0]) && KeyCmp(initial, a[0], b[0]) == 0
    ensures |a| > 1 <==> |b| > 1
    ensures |a| > 1 ==> Ends(a[1..]) && Ends(b[1..])
  {
    hide TextCmp;
    if a[0].cls != b[0].cls { DifferentClass(a[0].cls, a[0].text, b[0].cls, b[0].text); }
  }

  /** Comparing the other way round gives the opposite, for all versions without a fuzzy mark. */
  lemma Antisymmetric(s1: string, s2: string)
    ensures VerCmp(true, s1, s2, false, false) == -VerCmp(true, s2, s1, false, false)
  {
    hide LexCmp, VerCmp, Parse, WellFormed;
    ParseWellFormed(true, s1);
    ParseWellFormed(true, s2);
    ComparesParts(true, s1, s2);
    ComparesParts(true, s2, s1);
    LexAnti(true, Parse(true, s1), Parse(true, s2));
  }

  /** Versions without a fuzzy mark whose suffixes are known are totally preordered. */
  lemma TotalPreorder(s1: string, s2: string, s3: string)
    requires Known(s1) && Known(s2) && Known(s3)
    ensures VerCmp(true, s1, s2, false, false) == -VerCmp(true, s2, s1, false, false)
    ensures VerCmp(true, s1, s2, false, false) <= 0 && VerCmp(true, s2, s3, false, false) <= 0 ==>
      VerCmp(true, s1, s3, false, false) <= 0
  {
    hide LexCmp, VerCmp, Parse, WellFormed, KnownSuffix, Ends;
    var a, b, c := Parse(true, s1), Parse(true, s2), Parse(true, s3);
    ParseWellFormed(true, s1);
    ParseWellFormed(true, s2);
    ParseWellFormed(true, s3);
    ParseEnds(true, s1);
    ParseEnds(true, s2);
    ParseEnds(true, s3);
    ComparesParts(true, s1, s2);
    ComparesParts(true, s2, s3);
    ComparesParts(true, s1, s3);
    Antisymmetric(s1, s2);
    if LexCmp(true, a, b) <= 0 && LexCmp(true, b, c) <= 0 { LexTrans(true, a, b, c); }
  }

  // ----- versions with an unknown suffix -----

  lemma AlphaSuffix()
    ensures Run("alpha", IsLower) == 5 && SuffixClass("alpha"[..5]) == 1
  {
    assert Run("a", IsLower) == 1 by { assert Run("", IsLower) == 0; assert "a"[1..] == ""; }
    assert Run("ha", IsLower) == 2 by { assert "ha"[1..] == "a"; }
    assert Run("pha", IsLower) == 3 by { assert "pha"[1..] == "ha"; }
    assert Run("lpha", IsLower) == 4 by { assert "lpha"[1..] == "pha"; }
    assert "alpha"[1..] == "lpha";
    assert "alpha"[..5] == "alpha";
  }

  /** Where the first part with an unknown suffix starts; the length of s if there is none. */
  function UnknownAt(initial: bool, s: string): (n: nat)
    ensures n <= |s|
    decreases |s|
  {
    var p := Classify(initial, s);
    if Terminal(p.cls) then |s|
    else if !KnownSuffix(Key(p.cls, p.text)) then 0
    else |s| - |p.rest| + UnknownAt(false, p.rest)
  }

  lemma {:induction false} UnknownStarts(initial: bool, s: string)
    requires exists k :: k in Parse(initial, s) && !KnownSuffix(k)
    ensures UnknownAt(initial, s) + 1 < |s| && s[UnknownAt(initial, s)] == '_' && IsLower(s[UnknownAt(initial, s) + 1])
    decreases |s|
  {
    hide Classify, KnownSuffix;
    var p := Classify(initial, s);
    if KnownSuffix(Key(p.cls, p.text)) {
      UnknownBehind(initial, s);
      Suffix(initial, s);
      UnknownStarts(false, p.rest);
    } else {
      UnknownHere(initial, s);
    }
  }

  lemma UnknownHere(initial: bool, s: string)
    requires !KnownSuffix(Key(Classify(initial, s).cls, Classify(initial, s).text))
    ensures !Terminal(Classify(initial, s).cls) && |s| > 1 && s[0] == '_' && IsLower(s[1])
  {
    hide Run, SuffixClass;
  }

  lemma UnknownBehind(initial: bool, s: string)
    requires exists k :: k in Parse(initial, s) && !KnownSuffix(k)
    requires KnownSuffix(Key(Classify(initial, s).cls, Classify(initial, s).text))
    ensures !Terminal(Classify(initial, s).cls)
    ensures exists k :: k in Parse(false, Classify(initial, s).rest) && !KnownSuffix(k)
  {
    hide KnownSuffix, Classify;
    var k :| k in Parse(initial, s) && !KnownSuffix(k);
  }

  /** A part is followed by the rest of the version. */
  lemma Suffix(initial: bool, s: string)
    ensures var p := Classify(initial, s); !Terminal(p.cls) ==> |p.rest| < |s| && p.rest == s[|s| - |p.rest|..]
  {
    hide PartLength;
  }

  lemma {:induction false} RunKept(s: string, n: nat, w: string, p: char -> bool)
    requires Run(s, p) <= n <= |s| && (w == "" || !p(w[0]))
    ensures Run(s[..n] + w, p) == Run(s, p)
  {
    var r := s[..n] + w;
    if n == 0 {
      assert r == w;
    } else if p(s[0]) {
      assert r[1..] == s[1..][..n - 1] + w;
      RunKept(s[1..], n - 1, w, p);
    }
  }

  lemma RevisionKept(t: string, n: nat, w: string)
    requires t != "" && 0 < PartLength('-', t) <= n && n + 1 < |t| && t[n] == '_' && IsLower(t[n + 1])
    requires w == "" || w[0] == '_'
    ensures PartLength('-', t[..n] + w) == PartLength('-', t)
  {
    hide Run;
    var r := t[..n] + w;
    assert n > 2;
    assert r[1..] == t[1..][..n - 1] + w;
    RunKept(t[1..], n - 1, w, IsDigit);
  }

  lemma SuffixKept(t: string, n: nat, w: string)
    requires t != "" && 0 < PartLength('_', t) <= n < |t| && (w == "" || w[0] == '_')
    ensures PartLength('_', t[..n] + w) == PartLength('_', t)
  {
    hide Run;
    var r, l := t[..n] + w, Run(t, IsLower);
    RunKept(t, n, w, IsLower);
    assert r[l..] == t[l..][..n - l] + w;
    RunKept(t[l..], n - l, w, IsDigit);
  }

  /** Cutting a version behind a part, where a suffix starts, leaves the part as it is, also with another suffix
      there. */
  lemma LengthKept(c: char, t: string, n: nat, w: string)
    requires t != "" && 0 < PartLength(c, t) <= n && n + 1 < |t| && t[n] == '_' && IsLower(t[n + 1])
    requires w == "" || w[0] == '_'
    ensures PartLength(c, t[..n] + w) == PartLength(c, t)
  {
    hide Run;
    if c == '.' {
      RunKept(t, n, w, IsDigit);
    } else if c == '~' {
      RunKept(t, n, w, IsHex);
    } else if c == '_' {
      SuffixKept(t, n, w);
    } else {
      RevisionKept(t, n, w);
    }
  }

  /** The class of a part that is no letter, and where its text starts. */
  function ClassAt(initial: bool, s: string): (r: (char, nat))
    requires s != ""
    ensures r.1 <= 1
  {
    if initial && IsDigit(s[0]) then ('.', 0) else (s[0], 1)
  }

  lemma ClassifyIs(initial: bool, s: string)
    requires s != "" && !IsLower(s[0])
    ensures var (c, i) := ClassAt(initial, s);
      if i == |s| || PartLength(c, s[i..]) == 0 then Terminal(Classify(initial, s).cls)
      else Classify(initial, s) == Part(c, s[i..][..PartLength(c, s[i..])], s[i..][PartLength(c, s[i..])..])
  {
    hide PartLength;
  }

  lemma LetterKept(initial: bool, s: string, n: nat, w: string)
    requires 0 < n <= |s| && IsLower(s[0])
    ensures Classify(initial, s) == Part('X', s[..1], s[1..])
    ensures Classify(initial, s[..n] + w) == Part('X', s[..1], s[1..n] + w)
  {
    hide PartLength;
    var r := s[..n] + w;
    assert r[1..] == s[1..n] + w && r[..1] == s[..1];
  }

  lemma PartKept(initial: bool, s: string, n: nat, w: string)
    requires var p := Classify(initial, s); !Terminal(p.cls) && |s| - |p.rest| <= n
    requires n + 1 < |s| && s[n] == '_' && IsLower(s[n + 1]) && (w == "" || w[0] == '_')
    ensures var p := Classify(initial, s);
      |p.rest| < |s| && Classify(initial, s[..n] + w) == Part(p.cls, p.text, s[|s| - |p.rest|..n] + w)
  {
    hide PartLength, Classify;
    var r := s[..n] + w;
    Suffix(initial, s);
    assert n > 0 && r[0] == s[0];
    if IsLower(s[0]) {
      LetterKept(initial, s, n, w);
    } else {
      OtherKept(initial, s, n, w);
    }
  }

  lemma OtherKept(initial: bool, s: string, n: nat, w: string)
    requires var p := Classify(initial, s); !Terminal(p.cls) && |s| - |p.rest| <= n
    requires 0 < n && n + 1 < |s| && s[n] == '_' && IsLower(s[n + 1]) && (w == "" || w[0] == '_') && !IsLower(s[0])
    ensures var p := Classify(initial, s);
      |p.rest| < |s| && Classify(initial, s[..n] + w) == Part(p.cls, p.text, s[|s| - |p.rest|..n] + w)
  {
    hide PartLength, Classify, IsLower, ClassAt, Terminal;
    var i, c := ClassAt(initial, s).1, ClassAt(initial, s).0;
    ClassifyIs(initial, s);
    var k := PartLength(c, s[i..]);
    TailLength(s, i, k);
    assert |s| - |Classify(initial, s).rest| == i + k;
    ChangedPart(initial, s, n, w, c, i, k);
  }

  /** The part of length k that starts at i is found again. */
  lemma ChangedPart(initial: bool, s: string, n: nat, w: string, c: char, i: nat, k: nat)
    requires s != "" && (c, i) == ClassAt(initial, s) && !IsLower(s[0]) && i < |s| && k == PartLength(c, s[i..])
    requires 0 < k && i + k <= n && n + 1 < |s| && s[n] == '_' && IsLower(s[n + 1]) && (w == "" || w[0] == '_')
    ensures Classify(initial, s[..n] + w) == Part(c, s[i..][..k], s[i + k..n] + w)
  {
    hide PartLength, Classify, IsLower, ClassAt, Terminal;
    var r, t := s[..n] + w, s[i..];
    SameClass(initial, s, n, w);
    ClassifyIs(initial, r);
    TextKept(s, n, w, i);
    LengthKept(c, t, n - i, w);
    SplitKept(t, n - i, w, k);
    SliceOf(s, i, k, n);
  }

  lemma SliceOf(s: string, i: nat, k: nat, n: nat)
    requires i + k <= n <= |s|
    ensures s[i..][k..n - i] == s[i + k..n]
  {
  }

  lemma TailLength(s: string, i: nat, k: nat)
    requires i <= |s| && k <= |s| - i
    ensures |s[i..][k..]| == |s| - (i + k)
  {
  }

  lemma SameClass(initial: bool, s: string, n: nat, w: string)
    requires 0 < n <= |s|
    ensures ClassAt(initial, s[..n] + w) == ClassAt(initial, s) && (s[..n] + w)[0] == s[0]
  {
  }

  /** The end of a version that is changed from n on. */
  lemma TextKept(s: string, n: nat, w: string, i: nat)
    requires i <= n && n + 1 < |s|
    ensures (s[..n] + w)[i..] == s[i..][..n - i] + w
    ensures s[i..][n - i] == s[n] && s[i..][n - i + 1] == s[n + 1]
  {
  }

  lemma SplitKept(t: string, m: nat, w: string, k: nat)
    requires k <= m <= |t|
    ensures (t[..m] + w)[..k] == t[..k] && (t[..m] + w)[k..] == t[k..m] + w
  {
  }

  /** A version with an unknown suffix is part of a cycle: it sorts below itself cut before that suffix with "_alpha"
      instead, that sorts below the cut version alone, and the cut version sorts below the one with the unknown
      suffix. */
  lemma {:induction false} CycleAt(initial: bool, s: string)
    requires exists k :: k in Parse(initial, s) && !KnownSuffix(k)
    ensures var t := s[..UnknownAt(initial, s)]; var u := t + "_alpha";
      && VerCmp(initial, s, u, false, false) < 0
      && VerCmp(initial, u, t, false, false) < 0
      && VerCmp(initial, t, s, false, false) < 0
    decreases |s|
  {
    hide Classify, VerCmp, KnownSuffix;
    var p, n := Classify(initial, s), UnknownAt(initial, s);
    UnknownStarts(initial, s);
    if KnownSuffix(Key(p.cls, p.text)) {
      UnknownBehind(initial, s);
      Suffix(initial, s);
      CycleAt(false, p.rest);
      PartKept(initial, s, n, "");
      PartKept(initial, s, n, "_alpha");
      var m := UnknownAt(false, p.rest);
      assert s[|s| - |p.rest|..n] == p.rest[..m];
      assert s[..n] + "" == s[..n] && p.rest[..m] + "" == p.rest[..m];
      SamePart(initial, s, s[..n] + "_alpha");
      SamePart(initial, s[..n] + "_alpha", s[..n]);
      SamePart(initial, s[..n], s);
    } else {
      assert n == 0;
      assert s[..0] == "" && "" + "_alpha" == "_alpha";
      CycleHere(initial, s);
    }
  }

  /** Up to there all suffixes are known, also with "_alpha" behind. */
  lemma {:induction false} CutKnown(initial: bool, s: string, w: string)
    requires w == "" || w == "_alpha"
    requires exists k :: k in Parse(initial, s) && !KnownSuffix(k)
    ensures forall k :: k in Parse(initial, s[..UnknownAt(initial, s)] + w) ==> KnownSuffix(k)
    decreases |s|
  {
    hide Classify, KnownSuffix;
    var p, n := Classify(initial, s), UnknownAt(initial, s);
    UnknownStarts(initial, s);
    if KnownSuffix(Key(p.cls, p.text)) {
      UnknownBehind(initial, s);
      Suffix(initial, s);
      CutKnown(false, p.rest, w);
      PartKept(initial, s, n, w);
      assert s[|s| - |p.rest|..n] == p.rest[..UnknownAt(false, p.rest)];
    } else {
      assert s[..n] + w == w;
      ShortKnown(initial, w);
    }
  }

  lemma ShortKnown(initial: bool, w: string)
    requires w == "" || w == "_alpha"
    ensures forall k :: k in Parse(initial, w) ==> KnownSuffix(k)
  {
    hide PartLength;
    AlphaPart(initial);
    AlphaSuffix();
  }

  lemma SamePart(initial: bool, s1: string, s2: string)
    requires var p, q := Classify(initial, s1), Classify(initial, s2);
      p.cls == q.cls && p.text == q.text && !Terminal(p.cls)
    ensures VerCmp(initial, s1, s2, false, false)
      == VerCmp(false, Classify(initial, s1).rest, Classify(initial, s2).rest, false, false)
  {
    hide Classify;
  }

  lemma CycleHere(initial: bool, s: string)
    requires !KnownSuffix(Key(Classify(initial, s).cls, Classify(initial, s).text))
    ensures VerCmp(initial, s, "_alpha", false, false) < 0
    ensures VerCmp(initial, "_alpha", "", false, false) < 0
    ensures VerCmp(initial, "", s, false, false) < 0
  {
    hide PartLength;
    AlphaPart(initial);
  }

  lemma AlphaPart(initial: bool)
    ensures Classify(initial, "_alpha") == Part('_', "alpha", "") && IsReleaseSuffix("alpha")
  {
    AlphaSuffix();
    assert "_alpha"[1..] == "alpha" && "alpha"[5..] == "";
  }

  /** The condition of `TotalPreorder` is exact: every version with an unknown suffix is part of a cycle with two
      versions whose suffixes are known. */
  lemma UnknownSuffixCycle(s: string)
    requires !Known(s)
    ensures var t := s[..UnknownAt(true, s)]; var u := t + "_alpha";
      && Known(t) && Known(u)
      && VerCmp(true, s, u, false, false) < 0
      && VerCmp(true, u, t, false, false) < 0
      && VerCmp(true, t, s, false, false) < 0
  {
    hide Classify, VerCmp, KnownSuffix;
    CycleAt(true, s);
    CutKnown(true, s, "");
    CutKnown(true, s, "_alpha");
    assert s[..UnknownAt(true, s)] + "" == s[..UnknownAt(true, s)];
  }

  predicate Leq(s1: string, s2: string) {
    VerCmp(true, s1, s2, false, false) <= 0
  }

  /** Together with the versions whose suffixes are known, s is still ordered transitively. */
  ghost predicate Joins(s: string) {
    forall a, b, c | (a == s || Known(a)) && (b == s || Known(b)) && (c == s || Known(c)) ::
      Leq(a, b) && Leq(b, c) ==> Leq(a, c)
  }

  lemma JoinsExactly(s: string)
    ensures Joins(s) <==> Known(s)
  {
    hide VerCmp, Known;
    if Known(s) {
      forall a, b, c | Known(a) && Known(b) && Known(c) && Leq(a, b) && Leq(b, c) ensures Leq(a, c) {
        TotalPreorder(a, b, c);
      }
    } else {
      UnknownSuffixCycle(s);
      var t := s[..UnknownAt(true, s)];
      Antisymmetric(s, t);
      assert Leq(s, t + "_alpha") && Leq(t + "_alpha", t) && !Leq(s, t);
    }
  }
}
