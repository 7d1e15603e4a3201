/** What the comparison of versions means: numbers count by their value, and kinds of parts have fixed ranks. */
module ApkOrder {
  import opened Common
  import opened ApkVersion

  // ----- numbers by value -----

  ghost predicate Digits(s: string) {
    forall i :: 0 <= i < |s| ==> '0' <= s[i] <= '9'
  }

  ghost predicate Letters(s: string) {
    forall i :: 0 <= i < |s| ==> 'a' <= s[i] <= 'z'
  }

  /** The decimal number. */
  ghost function Value(s: string): int
    requires Digits(s)
  {
    if s == "" then 0 else 10 * Value(s[..|s| - 1]) + (s[|s| - 1] as int - 48)
  }

  function Sign(n: int): int {
    if n < 0 then -1 else if n > 0 then 1 else 0
  }

  ghost function Pow10(n: nat): (r: nat)
    ensures r > 0
  {
    if n == 0 then 1 else 10 * Pow10(n - 1)
  }

  lemma {:induction false} FirstDigit(s: string)
    requires Digits(s) && s != ""
    ensures Value(s) == (s[0] as int - 48) * Pow10(|s| - 1) + Value(s[1..])
  {
    var t := s[..|s| - 1];
    if t == "" {
      assert s[1..] == "" && Value(t) == 0;
    } else {
      FirstDigit(t);
      assert t[1..] == s[1..][..|s| - 2];
      TenTimes(s[0] as int - 48, Pow10(|s| - 2));
    }
  }

  lemma TenTimes(d: int, p: int)
    ensures 10 * (d * p) == d * (10 * p)
  {
  }

  lemma {:induction false} ValueBounds(s: string)
    requires Digits(s)
    ensures 0 <= Value(s) < Pow10(|s|)
  {
    if s != "" { ValueBounds(s[..|s| - 1]); }
  }

  lemma {:induction false} Pow10Grows(m: nat, n: nat)
    requires m <= n
    ensures Pow10(m) <= Pow10(n)
  {
    if m < n { Pow10Grows(m, n - 1); }
  }

  lemma {:induction false} StripKeepsValue(s: string)
    requires Digits(s)
    ensures var x := StripZeros(s); Digits(x) && Value(x) == Value(s) && (x != "" ==> x[0] != '0')
  {
    if s != "" && s[0] == '0' {
      StripKeepsValue(s[1..]);
      FirstDigit(s);
    }
  }

  lemma LongerIsMore(x: string, y: string)
    requires Digits(x) && Digits(y) && |x| < |y| && y[0] != '0'
    ensures Value(x) < Value(y)
  {
    ValueBounds(x);
    ValueBounds(y[1..]);
    FirstDigit(y);
    Pow10Grows(|x|, |y| - 1);
    AtLeastOnce(y[0] as int - 48, Pow10(|y| - 1));
  }

  lemma AtLeastOnce(d: int, p: int)
    requires d >= 1 && p >= 0
    ensures d * p >= p
  {
  }

  lemma {:induction false} SameLength(x: string, y: string)
    requires Digits(x) && Digits(y) && |x| == |y|
    ensures StrCmp(x, y) == Sign(Value(x) - Value(y))
  {
    hide Value, Pow10;
    if x == "" {
      assert y == x;
    } else {
      FirstDigit(x);
      FirstDigit(y);
      SameLength(x[1..], y[1..]);
      ValueBounds(x[1..]);
      ValueBounds(y[1..]);
      HeadDecides(x[0] as int - 48, y[0] as int - 48, Pow10(|x| - 1), Value(x[1..]), Value(y[1..]));
    }
  }

  lemma HeadDecides(d: int, e: int, p: int, m: int, n: int)
    requires 0 <= m < p && 0 <= n < p
    ensures Sign((d * p + m) - (e * p + n)) == if d != e then Sign(d - e) else Sign(m - n)
  {
    if d < e { Apart(d, e, p); } else if e < d { Apart(e, d, p); }
  }

  lemma Apart(d: int, e: int, p: int)
    requires d < e && p > 0
    ensures d * p + p <= e * p
  {
    AtLeastOnce(e - d, p);
    Difference(d, e, p);
  }

  lemma Difference(d: int, e: int, p: int)
    ensures (e - d) * p == e * p - d * p
  {
  }

  /** Digit strings compare as the numbers they stand for. */
  lemma NumbersByValue(a: string, b: string)
    requires Digits(a) && Digits(b)
    ensures NumCmp(a, b) == Sign(Value(a) - Value(b))
  {
    hide StrCmp, Value;
    var x, y := StripZeros(a), StripZeros(b);
    StripKeepsValue(a);
    StripKeepsValue(b);
    if |x| < |y| { LongerIsMore(x, y); } else if |y| < |x| { LongerIsMore(y, x); } else { SameLength(x, y); }
  }

  /** Up to i the strings agree; there the first one ends or has the smaller character. */
  predicate Earlier(a: string, b: string, i: int) {
    0 <= i <= |a| && i < |b| && a[..i] == b[..i] && (i == |a| || a[i] < b[i])
  }

  lemma EarlierTail(a: string, b: string, i: int)
    requires a != "" && b != "" && a[0] == b[0]
    ensures Earlier(a, b, i) ==> Earlier(a[1..], b[1..], i - 1)
    ensures Earlier(a[1..], b[1..], i) ==> Earlier(a, b, i + 1)
  {
    if 0 < i <= |a| && i < |b| { assert a[1..][..i - 1] == a[..i][1..] && b[1..][..i - 1] == b[..i][1..]; }
    if 0 <= i < |a| && i < |b| - 1 {
      assert a[..i + 1] == [a[0]] + a[1..][..i] && b[..i + 1] == [b[0]] + b[1..][..i];
    }
  }

  /** The first character that differs decides; a shorter string comes before what continues it. */
  lemma {:induction false} StringsByCharacter(a: string, b: string)
    ensures StrCmp(a, b) < 0 <==> exists i :: Earlier(a, b, i)
    ensures StrCmp(a, b) == 0 <==> a == b
  {
    hide Earlier;
    StrAnti(a, b);
    if a == "" || b == "" || a[0] != b[0] {
      FirstDecides(a, b);
    } else {
      StringsByCharacter(a[1..], b[1..]);
      if i :| Earlier(a, b, i) { EarlierTail(a, b, i); }
      if i :| Earlier(a[1..], b[1..], i) { EarlierTail(a, b, i); }
    }
  }

  lemma FirstDecides(a: string, b: string)
    requires a == "" || b == "" || a[0] != b[0]
    ensures StrCmp(a, b) < 0 <==> exists i :: Earlier(a, b, i)
  {
    if StrCmp(a, b) < 0 { assert Earlier(a, b, 0); }
    forall i | 0 < i <= |a| && i <= |b| ensures a[..i][0] == a[0] && b[..i][0] == b[0] {
    }
  }

  // ----- parts by rank and number -----

  ghost predicate HexDigits(s: string) {
    forall i :: 0 <= i < |s| ==> '0' <= s[i] <= '9' || 'a' <= s[i] <= 'f'
  }

  /** Word and number of a suffix; only a suffix has a word. */
  function WordOf(k: Key): string {
    if k.cls == '_' then k.text[..Run(k.text, IsLower)] else ""
  }

  function NumberOf(k: Key): string {
    if k.cls == '_' then k.text[Run(k.text, IsLower)..] else if k.cls == '-' then Revision(k.text) else k.text
  }

  /** What parsing yields: a number, a letter, a suffix, a hash, a revision, or one of the two ends. */
  ghost predicate Shaped(k: Key) {
    match k.cls
    case '.' => k.text != "" && Digits(k.text)
    case 'X' => |k.text| == 1 && Letters(k.text)
    case '_' => WordOf(k) != "" && Letters(WordOf(k)) && Digits(NumberOf(k))
    case '~' => k.text != "" && HexDigits(k.text)
    case '-' => k.text != "" && k.text[0] == 'r' && Digits(k.text[1..])
    case _ => (k.cls == '$' || k.cls == '!') && k.text == ""
  }

  /** Suffixes of versions to come, then text that is no version, the end, revisions, hashes, the other suffixes,
      letters, and numbers; 0 for an unknown suffix. */
  function Rank(k: Key): int {
    match k.cls
    case '!' => 5
    case '$' => 6
    case '-' => 7
    case '~' => 8
    case 'X' => 14
    case '.' => 15
    case _ =>
      if WordOf(k) == "alpha" then 1 else if WordOf(k) == "beta" then 2 else if WordOf(k) == "pre" then 3
      else if WordOf(k) == "rc" then 4 else if WordOf(k) == "cvs" then 9 else if WordOf(k) == "svn" then 10
      else if WordOf(k) == "git" then 11 else if WordOf(k) == "hg" then 12 else if WordOf(k) == "p" then 13 else 0
  }

  /** Numbers, but behind the first part only those without a leading zero, and the numbers of suffixes and revisions
      count by value. */
  predicate ByValue(initial: bool, a: Key, b: Key)
    requires a.cls == '.' && b.cls == '.' ==> a.text != "" && b.text != ""
  {
    a.cls == b.cls &&
    (a.cls == '_' || a.cls == '-' || (a.cls == '.' && (initial || (a.text[0] != '0' && b.text[0] != '0'))))
  }

  /** Parts of different rank compare by rank, those of the same rank by number or as strings. */
  lemma PartOrder(initial: bool, a: Key, b: Key)
    requires Shaped(a) && Shaped(b) && Rank(a) != 0 && Rank(b) != 0
    ensures Rank(a) != Rank(b) ==> KeyCmp(initial, a, b) == Sign(Rank(a) - Rank(b))
    ensures Rank(a) == Rank(b) ==> a.cls == b.cls
    ensures Rank(a) == Rank(b) && ByValue(initial, a, b) ==>
      Digits(NumberOf(a)) && Digits(NumberOf(b)) &&
      KeyCmp(initial, a, b) == Sign(Value(NumberOf(a)) - Value(NumberOf(b)))
    ensures Rank(a) == Rank(b) && !ByValue(initial, a, b) ==> KeyCmp(initial, a, b) == StrCmp(a.text, b.text)
  {
    hide Run, Value, Shaped, Rank, ByValue, TextCmp;
    if a.cls != b.cls {
      ClassesByRank(a, b);
    } else if Rank(a) != Rank(b) {
      SuffixesByRank(initial, a, b);
    } else {
      SameRank(initial, a, b);
    }
  }

  lemma SuffixRank(k: Key)
    requires k.cls == '_'
    ensures var c := SuffixClass(WordOf(k)); Rank(k) == if c < 5 then c else c + 4
  {
    hide Run;
  }

  lemma SuffixesByRank(initial: bool, a: Key, b: Key)
    requires Shaped(a) && Shaped(b) && Rank(a) != 0 && Rank(b) != 0 && a.cls == b.cls && Rank(a) != Rank(b)
    ensures KeyCmp(initial, a, b) == Sign(Rank(a) - Rank(b))
  {
    hide Run, Value, NumCmp, StrCmp, Shaped, SuffixClass;
    if a.cls == '_' {
      hide Rank;
      SuffixRank(a);
      SuffixRank(b);
    }
  }

  lemma SameRank(initial: bool, a: Key, b: Key)
    requires Shaped(a) && Shaped(b) && Rank(a) != 0 && a.cls == b.cls && Rank(a) == Rank(b)
    ensures ByValue(initial, a, b) ==>
      Digits(NumberOf(a)) && Digits(NumberOf(b)) &&
      KeyCmp(initial, a, b) == Sign(Value(NumberOf(a)) - Value(NumberOf(b)))
    ensures !ByValue(initial, a, b) ==> KeyCmp(initial, a, b) == StrCmp(a.text, b.text)
  {
    hide Run, Value, Letters, HexDigits, NumCmp, StrCmp, Digits, SuffixClass;
    StrAnti(a.text, b.text);
    if a.cls == '_' {
      SameSuffix(initial, a, b);
    } else if ByValue(initial, a, b) {
      ShapedNumber(a);
      ShapedNumber(b);
      NumbersByValue(NumberOf(a), NumberOf(b));
    }
  }

  lemma ShapedNumber(k: Key)
    requires Shaped(k) && k.cls in {'.', '_', '-'}
    ensures Digits(NumberOf(k))
  {
    hide Run;
  }

  lemma SameSuffix(initial: bool, a: Key, b: Key)
    requires Shaped(a) && Shaped(b) && a.cls == b.cls == '_' && Rank(a) == Rank(b) != 0
    ensures Digits(NumberOf(a)) && Digits(NumberOf(b))
    ensures KeyCmp(initial, a, b) == Sign(Value(NumberOf(a)) - Value(NumberOf(b)))
  {
    hide Run, Value, Letters, NumCmp, StrCmp, Digits, SuffixClass, Rank;
    SuffixRank(a);
    SuffixRank(b);
    NumbersByValue(NumberOf(a), NumberOf(b));
  }

  lemma ClassesByRank(a: Key, b: Key)
    requires Shaped(a) && Shaped(b) && Rank(a) != 0 && Rank(b) != 0 && a.cls != b.cls
    ensures Rank(a) != Rank(b) && ClassCmp(a.cls, a.text, b.cls, b.text) == Sign(Rank(a) - Rank(b))
  {
    hide Run, Shaped, Rank, IsReleaseSuffix;
    KindRank(a);
    KindRank(b);
    ShapedKind(a);
    ShapedKind(b);
  }

  lemma ShapedKind(k: Key)
    requires Shaped(k)
    ensures k.cls in {'$', '!', 'X', '.', '_', '-', '~'}
  {
    hide Run, Letters, HexDigits, Digits;
  }

  lemma KindRank(k: Key)
    ensures k.cls == '_' && Rank(k) != 0 ==>
      1 <= Rank(k) <= 13 && (Rank(k) < 5 || Rank(k) > 8) && (IsReleaseSuffix(k.text) <==> Rank(k) < 5)
    ensures k.cls == '!' ==> Rank(k) == 5
    ensures k.cls == '$' ==> Rank(k) == 6
    ensures k.cls == '-' ==> Rank(k) == 7
    ensures k.cls == '~' ==> Rank(k) == 8
    ensures k.cls == 'X' ==> Rank(k) == 14
    ensures k.cls == '.' ==> Rank(k) == 15
  {
    hide Run, SuffixClass;
    if k.cls == '_' { SuffixRank(k); }
  }

  lemma {:induction false} RunIs(d: string, r: string, p: char -> bool)
    requires (forall i :: 0 <= i < |d| ==> p(d[i])) && (r == "" || !p(r[0]))
    ensures Run(d + r, p) == |d|
  {
    if d == "" {
      assert d + r == r;
    } else {
      assert (d + r)[1..] == d[1..] + r;
      RunIs(d[1..], r, p);
    }
  }

  /** Every part that parsing yields has its shape. */
  lemma {:induction false} ParseShaped(initial: bool, s: string)
    ensures forall k :: k in Parse(initial, s) ==> Shaped(k)
    decreases |s|
  {
    hide Classify, Shaped;
    var p := Classify(initial, s);
    ClassifyShaped(initial, s);
    if !Terminal(p.cls) { ParseShaped(false, p.rest); }
  }

  lemma ClassifyShaped(initial: bool, s: string)
    ensures Shaped(Key(Classify(initial, s).cls, Classify(initial, s).text))
  {
    hide PartLength, Shaped;
    if s == "" || IsLower(s[0]) {
      EndShaped(s);
    } else {
      var number := initial && IsDigit(s[0]);
      var c, t := if number then '.' else s[0], if number then s else s[1..];
      EndShaped("");
      if t != "" && PartLength(c, t) > 0 { LengthShaped(c, t); }
    }
  }

  lemma EndShaped(s: string)
    ensures Shaped(Key('$', "")) && Shaped(Key('!', "")) && (s != "" && IsLower(s[0]) ==> Shaped(Key('X', s[..1])))
  {
  }

  lemma LengthShaped(c: char, t: string)
    requires t != "" && PartLength(c, t) > 0
    ensures Shaped(Key(c, t[..PartLength(c, t)]))
  {
    hide Run;
    var n := PartLength(c, t);
    if c == '_' {
      SuffixShaped(t);
    } else if c == '-' {
      assert t[..n][1..] == t[1..][..n - 1];
    }
  }

  lemma SuffixShaped(t: string)
    requires t != "" && PartLength('_', t) > 0
    ensures Shaped(Key('_', t[..PartLength('_', t)]))
  {
    hide Run, PartLength, Letters, Digits, IsLower, IsDigit;
    var n, l := PartLength('_', t), Run(t, IsLower);
    SuffixParts(t);
    var w, d := t[..l], t[l..][..n - l];
    CutTwice(t, l, n);
    LettersRead(t);
    DigitsRead(t[l..]);
    WordStops(w, d);
    Joint(w, d);
  }

  lemma SuffixParts(t: string)
    requires t != "" && PartLength('_', t) > 0
    ensures var l := Run(t, IsLower); 0 < l && PartLength('_', t) == l + Run(t[l..], IsDigit) <= |t|
  {
  }

  lemma LettersRead(t: string)
    ensures Letters(t[..Run(t, IsLower)])
  {
  }

  lemma DigitsRead(t: string)
    ensures Digits(t[..Run(t, IsDigit)])
  {
  }

  lemma WordStops(w: string, d: string)
    requires Letters(w) && Digits(d)
    ensures Run(w + d, IsLower) == |w|
  {
    hide Run;
    RunIs(w, d, IsLower);
  }

  lemma Joint(w: string, d: string)
    ensures (w + d)[..|w|] == w && (w + d)[|w|..] == d
  {
  }

  // ----- the first difference decides -----

  /** Equal up to part i, versions compare as their parts i; a fuzzy version that ends there equals the other one. */
  lemma {:induction false} FirstDifference(initial: bool, s1: string, s2: string, fuzzy1: bool, fuzzy2: bool, i: nat)
    requires i < |Parse(initial, s1)| && i < |Parse(initial, s2)|
    requires forall j :: 0 <= j < i ==> KeyCmp(initial && j == 0, Parse(initial, s1)[j], Parse(initial, s2)[j]) == 0
    requires KeyCmp(initial && i == 0, Parse(initial, s1)[i], Parse(initial, s2)[i]) != 0
    ensures var a, b := Parse(initial, s1)[i], Parse(initial, s2)[i];
      VerCmp(initial, s1, s2, fuzzy1, fuzzy2)
      == if (fuzzy1 && a.cls == '$') || (fuzzy2 && b.cls == '$') then 0 else KeyCmp(initial && i == 0, a, b)
    decreases i
  {
    hide KeyCmp, Classify, VerCmp, Parse;
    if i == 0 {
      DiffersHere(initial, s1, s2, fuzzy1, fuzzy2);
    } else {
      RestDiffers(initial, s1, s2, i);
      SameHead(initial, s1, s2, fuzzy1, fuzzy2);
      FirstDifference(false, Classify(initial, s1).rest, Classify(initial, s2).rest, fuzzy1, fuzzy2, i - 1);
    }
  }

  lemma DiffersHere(initial: bool, s1: string, s2: string, fuzzy1: bool, fuzzy2: bool)
    requires KeyCmp(initial, Parse(initial, s1)[0], Parse(initial, s2)[0]) != 0
    ensures var a, b := Parse(initial, s1)[0], Parse(initial, s2)[0];
      VerCmp(initial, s1, s2, fuzzy1, fuzzy2)
      == if (fuzzy1 && a.cls == '$') || (fuzzy2 && b.cls == '$') then 0 else KeyCmp(initial, a, b)
  {
    hide TextCmp, ClassCmp, Classify;
  }

  lemma SameHead(initial: bool, s1: string, s2: string, fuzzy1: bool, fuzzy2: bool)
    requires !Terminal(Classify(initial, s1).cls) && !Terminal(Classify(initial, s2).cls)
    requires KeyCmp(initial, Parse(initial, s1)[0], Parse(initial, s2)[0]) == 0
    ensures VerCmp(initial, s1, s2, fuzzy1, fuzzy2)
      == VerCmp(false, Classify(initial, s1).rest, Classify(initial, s2).rest, fuzzy1, fuzzy2)
  {
    hide TextCmp, ClassCmp;
    var p, q := Classify(initial, s1), Classify(initial, s2);
    if p.cls != q.cls { DifferentClass(p.cls, p.text, q.cls, q.text); }
  }

  lemma RestDiffers(initial: bool, s1: string, s2: string, i: nat)
    requires 0 < i < |Parse(initial, s1)| && i < |Parse(initial, s2)|
    requires forall j :: 0 <= j < i ==> KeyCmp(initial && j == 0, Parse(initial, s1)[j], Parse(initial, s2)[j]) == 0
    ensures var a, b := Parse(initial, s1), Parse(initial, s2);
      var c, d := Parse(false, Classify(initial, s1).rest), Parse(false, Classify(initial, s2).rest);
      && !Terminal(Classify(initial, s1).cls) && !Terminal(Classify(initial, s2).cls)
      && KeyCmp(initial, a[0], b[0]) == 0
      && i - 1 < |c| && i - 1 < |d| && c[i - 1] == a[i] && d[i - 1] == b[i]
      && forall j :: 0 <= j < i - 1 ==> KeyCmp(false && j == 0, c[j], d[j]) == 0
  {
    hide KeyCmp, Classify;
    var a, b := Parse(initial, s1), Parse(initial, s2);
    var c, d := Parse(false, Classify(initial, s1).rest), Parse(false, Classify(initial, s2).rest);
    assert a[1..] == c && b[1..] == d;
    assert KeyCmp(initial && 0 == 0, a[0], b[0]) == 0;
    forall j | 0 <= j < i - 1 ensures KeyCmp(false && j == 0, c[j], d[j]) == 0 {
      assert KeyCmp(initial && j + 1 == 0, a[j + 1], b[j + 1]) == 0;
    }
  }

  /** Versions whose parts all compare equal are equal. */
  lemma {:induction false} NoDifference(initial: bool, s1: string, s2: string, fuzzy1: bool, fuzzy2: bool)
    requires forall j :: 0 <= j < |Parse(initial, s1)| && j < |Parse(initial, s2)| ==>
      KeyCmp(initial && j == 0, Parse(initial, s1)[j], Parse(initial, s2)[j]) == 0
    ensures VerCmp(initial, s1, s2, fuzzy1, fuzzy2) == 0
    decreases |s1|
  {
    hide TextCmp, ClassCmp;
    var p, q := Classify(initial, s1), Classify(initial, s2);
    var a, b := Parse(initial, s1), Parse(initial, s2);
    assert KeyCmp(initial && 0 == 0, a[0], b[0]) == 0;
    if p.cls != q.cls { DifferentClass(p.cls, p.text, q.cls, q.text); }
    if !Terminal(p.cls) {
      assert a[1..] == Parse(false, p.rest) && b[1..] == Parse(false, q.rest);
      forall j | 0 <= j < |a| - 1 && j < |b| - 1 ensures KeyCmp(false && j == 0, a[1..][j], b[1..][j]) == 0 {
        assert KeyCmp(initial && j + 1 == 0, a[j + 1], b[j + 1]) == 0;
      }
      NoDifference(false, p.rest, q.rest, fuzzy1, fuzzy2);
    }
  }

  // ----- parts written out -----

  /** A number but the first, a suffix, a hash and a revision start with their own character. */
  function Lead(initial: bool, cls: char): string {
    if cls == 'X' || (initial && cls == '.') then "" else [cls]
  }

  function Spell(initial: bool, ks: seq<Key>): string {
    if ks == [] then "" else Lead(initial, ks[0].cls) + ks[0].text + Spell(false, ks[1..])
  }

  ghost predicate Spellable(k: Key) {
    Shaped(k) && !Terminal(k.cls) && (k.cls == '-' ==> |k.text| > 1)
  }

  /** Written behind k, part n does not run into it. A revision of one digit is lost if '_', '~' or a letter follows. */
  ghost predicate Follows(k: Key, n: Key)
    requires Spellable(k) && Spellable(n)
  {
    && (k.cls == '_' && n.cls == 'X' ==> NumberOf(k) != "")
    && (k.cls == '~' && n.cls == 'X' ==> n.text[0] > 'f')
    && (k.cls == '-' && n.cls in {'X', '_', '~'} ==> |k.text| > 2)
  }

  ghost predicate Separate(ks: seq<Key>) {
    && (forall i :: 0 <= i < |ks| ==> Spellable(ks[i]))
    && (forall i :: 0 < i < |ks| ==> Follows(ks[i - 1], ks[i]))
  }

  /** What may follow the text of a part. */
  ghost predicate Stops(k: Key, r: string) {
    r == "" ||
    match k.cls
    case '.' => !IsDigit(r[0])
    case '_' => !IsDigit(r[0]) && (IsLower(r[0]) ==> NumberOf(k) != "")
    case '~' => !IsHex(r[0])
    case '-' => !IsDigit(r[0]) && (r[0] > '9' ==> |k.text| > 2)
    case _ => true
  }

  lemma SuffixLength(k: Key, r: string)
    requires k.cls == '_' && Spellable(k) && Stops(k, r)
    ensures k.text != "" && PartLength('_', k.text + r) == |k.text|
  {
    hide Run;
    var t, l, d := k.text + r, Run(k.text, IsLower), NumberOf(k);
    var w := WordOf(k);
    assert k.text == w + d && t == w + (d + r);
    if d == "" {
      assert d + r == r;
    } else {
      assert (d + r)[0] == d[0] && IsDigit(d[0]);
    }
    RunIs(w, d + r, IsLower);
    assert t[l..] == d + r;
    RunIs(d, r, IsDigit);
    assert w[0] == t[0];
  }

  lemma RevisionLength(k: Key, r: string)
    requires k.cls == '-' && Spellable(k) && Stops(k, r)
    ensures k.text != "" && PartLength('-', k.text + r) == |k.text|
  {
    hide Run;
    var t, d := k.text + r, k.text[1..];
    assert t[1..] == d + r;
    RunIs(d, r, IsDigit);
    assert t[1] == d[0];
    if |k.text| > 2 { assert t[2] == d[1]; } else if r != "" { assert t[2] == r[0]; }
  }

  lemma TextLength(k: Key, r: string)
    requires Spellable(k) && k.cls != 'X' && Stops(k, r)
    ensures k.text != "" && PartLength(k.cls, k.text + r) == |k.text|
  {
    hide Run;
    if k.cls == '_' {
      SuffixLength(k, r);
    } else if k.cls == '-' {
      RevisionLength(k, r);
    } else if k.cls == '.' {
      RunIs(k.text, r, IsDigit);
    } else {
      RunIs(k.text, r, IsHex);
    }
  }

  lemma PartRead(initial: bool, k: Key, r: string)
    requires Spellable(k) && Stops(k, r)
    ensures Classify(initial, Lead(initial, k.cls) + k.text + r) == Part(k.cls, k.text, r)
  {
    hide PartLength, Stops;
    var s := Lead(initial, k.cls) + k.text + r;
    if k.cls == 'X' {
      assert s == k.text + r && s[..1] == k.text && s[1..] == r;
    } else {
      TextLength(k, r);
      var t := k.text + r;
      assert t[..|k.text|] == k.text && t[|k.text|..] == r;
      if k.cls == '.' && initial {
        assert s == t;
      } else {
        assert s == [k.cls] + t && s[1..] == t;
      }
    }
  }

  /** Every part that is read was written like this; only the first number may have its dot. Reading goes as far as it
      can, except that a revision without digits is read if a letter follows. */
  lemma PartSpelled(initial: bool, s: string)
    requires !Terminal(Classify(initial, s).cls)
    ensures var p := Classify(initial, s); var k := Key(p.cls, p.text);
      && (s == Lead(initial, p.cls) + p.text + p.rest || (initial && s == "." + p.text + p.rest))
      && Shaped(k)
      && (Spellable(k) ==> Stops(k, p.rest))
  {
    hide PartLength, Shaped, Stops, Classify, ClassAt, Terminal;
    ClassifyShaped(initial, s);
    StartOf(initial, s);
    if IsLower(s[0]) {
      LetterKept(initial, s, |s|, "");
      assert s[..1] + s[1..] == s;
      LetterStops(Key('X', s[..1]), s[1..]);
    } else {
      var c, i := ClassAt(initial, s).0, ClassAt(initial, s).1;
      ClassifyIs(initial, s);
      var t := s[i..];
      var n := PartLength(c, t);
      LengthStops(c, t);
      Pieces(s, i, n);
    }
  }

  lemma Pieces(s: string, i: nat, n: nat)
    requires i <= |s| && n <= |s| - i
    ensures s[..i] + s[i..][..n] + s[i..][n..] == s
  {
    assert s[i..] == s[i..][..n] + s[i..][n..];
  }

  /** A version that starts with a part is not empty, and its first character tells the class. */
  lemma StartOf(initial: bool, s: string)
    requires !Terminal(Classify(initial, s).cls)
    ensures s != ""
    ensures !IsLower(s[0]) ==> var (c, i) := ClassAt(initial, s);
      && (s[..i] == Lead(initial, c) || (initial && c == '.' && s[..i] == "."))
      && (i == 0 ==> initial && c == '.')
  {
    hide PartLength;
    if !IsLower(s[0]) {
      assert s[..1] == [s[0]] && s[..0] == "";
    }
  }

  lemma LetterStops(k: Key, r: string)
    requires k.cls == 'X'
    ensures Stops(k, r)
  {
  }

  lemma CutTwice(t: string, l: nat, n: nat)
    requires l <= n <= |t|
    ensures t[..n] == t[..l] + t[l..][..n - l] && t[l..][n - l..] == t[n..]
  {
  }

  lemma LengthStops(c: char, t: string)
    requires t != "" && PartLength(c, t) > 0
    ensures var n := PartLength(c, t); var k := Key(c, t[..n]); Spellable(k) ==> Stops(k, t[n..])
  {
    hide Run, Shaped;
    var n := PartLength(c, t);
    var k, r := Key(c, t[..n]), t[n..];
    assert r != "" ==> r[0] == t[n];
    if c == '_' {
      var l := Run(t, IsLower);
      CutTwice(t, l, n);
      if r != "" && IsLower(r[0]) {
        RunIs(t[..l], t[l..][..n - l], IsLower);
        assert n > l;
      }
    } else if c == '-' {
      CutTwice(t, 1, n);
      assert |t| > 2 ==> At(t, 2) == t[2];
    }
  }

  lemma NextStops(k: Key, ks: seq<Key>)
    requires Spellable(k) && Separate(ks) && (ks != [] ==> Follows(k, ks[0]))
    ensures Stops(k, Spell(false, ks))
  {
    hide Run;
    if ks != [] {
      var n := ks[0];
      assert Spellable(n);
      assert Spell(false, ks)[0] == if n.cls == 'X' then n.text[0] else n.cls;
    }
  }

  /** The parts of a version that is written part by part are these parts. */
  lemma {:induction false} SpelledParse(initial: bool, ks: seq<Key>)
    requires Separate(ks)
    ensures Parse(initial, Spell(initial, ks)) == ks + [Key('$', "")]
    decreases |ks|
  {
    hide Classify, Spellable, Follows, Stops;
    if ks == [] {
      assert Classify(initial, "") == Part('$', "", "") by { EndRead(initial); }
    } else {
      var rest := ks[1..];
      assert Spellable(ks[0]);
      SeparateRest(ks);
      SpelledParse(false, rest);
      NextStops(ks[0], rest);
      PartRead(initial, ks[0], Spell(false, rest));
      NotTerminal(ks[0]);
      assert ks == [ks[0]] + rest;
    }
  }

  lemma SeparateRest(ks: seq<Key>)
    requires ks != [] && Separate(ks)
    ensures Separate(ks[1..]) && (|ks| > 1 ==> Spellable(ks[0]) && Spellable(ks[1]) && Follows(ks[0], ks[1]))
  {
    hide Spellable, Follows;
    var r := ks[1..];
    forall i | 0 <= i < |r| ensures Spellable(r[i]) {
      assert r[i] == ks[i + 1];
    }
    forall i | 0 < i < |r| ensures Follows(r[i - 1], r[i]) {
      assert Follows(ks[i + 1 - 1], ks[i + 1]);
    }
  }

  lemma EndRead(initial: bool)
    ensures Classify(initial, "") == Part('$', "", "")
  {
  }

  lemma NotTerminal(k: Key)
    requires Spellable(k)
    ensures !Terminal(k.cls)
  {
  }

  /** Two versions that are written alike up to a part: parts of different rank decide by rank, parts of the same rank
      by their number. */
  lemma OnePartDecides(pre: seq<Key>, a: Key, b: Key, post1: seq<Key>, post2: seq<Key>)
    requires Separate(pre + [a] + post1) && Separate(pre + [b] + post2) && Shaped(a) && Shaped(b)
    requires Rank(a) != 0 && Rank(b) != 0
    ensures var r := VerCmp(true, Spell(true, pre + [a] + post1), Spell(true, pre + [b] + post2), false, false);
      && (Rank(a) != Rank(b) ==> r == Sign(Rank(a) - Rank(b)))
      && (Rank(a) == Rank(b) && ByValue(pre == [], a, b) ==>
           Digits(NumberOf(a)) && Digits(NumberOf(b)) &&
           (Value(NumberOf(a)) != Value(NumberOf(b)) ==> r == Sign(Value(NumberOf(a)) - Value(NumberOf(b)))))
  {
    hide Separate, Spell, Parse, KeyCmp, VerCmp, Shaped, Value, Rank, ByValue, Digits, NumberOf;
    var ks, ls := pre + [a] + post1, pre + [b] + post2;
    SpelledParse(true, ks);
    SpelledParse(true, ls);
    InPlace(pre, a, post1, Key('$', ""));
    InPlace(pre, b, post2, Key('$', ""));
    PartOrder(pre == [], a, b);
    if KeyCmp(pre == [], a, b) != 0 { AlikeUpTo(Spell(true, ks), Spell(true, ls), pre); }
  }

  lemma InPlace(pre: seq<Key>, a: Key, post: seq<Key>, end: Key)
    ensures var ks := pre + [a] + post + [end]; |pre| < |ks| && ks[..|pre|] == pre && ks[|pre|] == a
    ensures (pre + [end])[..|pre|] == pre && (pre + [end])[|pre|] == end
  {
  }

  /** A version that ends where the other one goes on is the later one only if a suffix of a version to come follows. */
  lemma EndDecides(pre: seq<Key>, b: Key, post: seq<Key>)
    requires Separate(pre) && Separate(pre + [b] + post) && Shaped(b) && !Terminal(b.cls) && Rank(b) != 0
    ensures var s, t := Spell(true, pre), Spell(true, pre + [b] + post);
      VerCmp(true, s, t, false, false) == if b.cls == '_' && WordOf(b) in {"alpha", "beta", "pre", "rc"} then 1 else -1
  {
    hide Separate, Spell, Parse, KeyCmp, VerCmp, Shaped, Value, ByValue, Run, Digits, NumberOf;
    var end, ls := Key('$', ""), pre + [b] + post;
    SpelledParse(true, pre);
    SpelledParse(true, ls);
    InPlace(pre, b, post, end);
    EndShaped("");
    PartOrder(pre == [], end, b);
    AlikeUpTo(Spell(true, pre), Spell(true, ls), pre);
  }

  lemma AlikeUpTo(s: string, t: string, pre: seq<Key>)
    requires |pre| < |Parse(true, s)| && |pre| < |Parse(true, t)|
    requires Parse(true, s)[..|pre|] == pre == Parse(true, t)[..|pre|]
    requires KeyCmp(pre == [], Parse(true, s)[|pre|], Parse(true, t)[|pre|]) != 0
    ensures VerCmp(true, s, t, false, false) == KeyCmp(pre == [], Parse(true, s)[|pre|], Parse(true, t)[|pre|])
  {
    hide Parse, KeyCmp, VerCmp;
    var c, d, i := Parse(true, s), Parse(true, t), |pre|;
    forall j | 0 <= j < i ensures KeyCmp(true && j == 0, c[j], d[j]) == 0 {
      assert c[..i][j] == pre[j] == d[..i][j];
      SameKey(true && j == 0, pre[j]);
    }
    FirstDifference(true, s, t, false, false, i);
  }

  lemma SameKey(initial: bool, k: Key)
    ensures KeyCmp(initial, k, k) == 0
  {
  }

  /** "1.10" is a later version than "1.9". */
  lemma TenAfterNine()
    ensures VerCmp(true, "1.10", "1.9", false, false) == 1
  {
    hide VerCmp, Parse;
    var one, ten, nine := Key('.', "1"), Key('.', "10"), Key('.', "9");
    assert Value("10") == 10 && Value("9") == 9 by {
      assert "10"[..1] == "1" && "1"[..0] == "" && "9"[..0] == "";
      assert Value("1") == 10 * Value("") + 1;
    }
    TwoNumbers("1", "10");
    TwoNumbers("1", "9");
    assert [one] + [ten] + [] == [one, ten] && [one] + [nine] + [] == [one, nine];
    OnePartDecides([one], ten, nine, [], []);
    assert "1" + "." + "10" == "1.10" && "1" + "." + "9" == "1.9";
  }

  lemma TwoNumbers(a: string, b: string)
    requires a != "" && b != "" && Digits(a) && Digits(b)
    ensures Separate([Key('.', a), Key('.', b)]) && Spell(true, [Key('.', a), Key('.', b)]) == a + "." + b
  {
    hide Digits;
    var ks := [Key('.', a), Key('.', b)];
    assert ks[1..] == [Key('.', b)] && [Key('.', b)][1..] == [];
    assert Spell(false, [Key('.', b)]) == "." + b + "";
    assert Lead(true, '.') + a + ("." + b) == a + "." + b;
    assert "." + b + "" == "." + b;
  }
}
