/** Ids and relations as text: escaping, operators, printing, and the recursive-descent parser. */
module TestcaseText {
  import opened Common

  /** Id 0, or a string; id 1 is the empty string. */
  datatype Id = Null | Str(s: string)

  datatype Dep = Leaf(id: Id) | Rel(name: Dep, evr: Dep, flags: int)

  const REL_AND := 16
  const REL_OR := 17
  const REL_NAMESPACE := 19
  const REL_COMPAT := 23
  const REL_MULTIARCH := 25

  const ARCH_ANY := Leaf(Str("any"))

  function HasSuffix(s: string, p: string): bool {
    |s| >= |p| && s[|s| - |p|..] == p
  }

  /** A string that reads as name and architecture. */
  predicate EndsAny(s: string) {
    |s| > 4 && HasSuffix(s, ":any")
  }

  // ----- escaping -----

  predicate IsSpecial(c: char) { c in "[(<=>!" }

  predicate IsBad(c: char) { c == ' ' || c == '\\' || c < ' ' || c == '(' || c == ')' }

  function HexDigit(n: nat): char
    requires n < 16
  {
    if n < 10 then '0' + n as char else 'a' + (n - 10) as char
  }

  /** A backslash and two hexadecimal digits. */
  function Hex(c: char): (r: string)
    requires c as int < 256
    ensures |r| == 3
  {
    ['\\', HexDigit(c as int / 16), HexDigit(c as int % 16)]
  }

  /** Bad characters seen, state of the parentheses (-1: nested or unbalanced), and those that are harmless pairs. */
  datatype Tally = Tally(bad: int, paren: int, parenbad: int)

  function TallyStep(t: Tally, c: char): Tally {
    var bad := t.bad + if IsBad(c) then 1 else 0;
    if c == '(' then Tally(bad, if t.paren == 0 then 1 else -1, t.parenbad)
    else if c == ')' then
      var paren := if t.paren == 1 then 0 else -1;
      Tally(bad, paren, t.parenbad + if paren == 0 then 2 else 0)
    else Tally(bad, t.paren, t.parenbad)
  }

  function TallyAll(t: Tally, s: string): Tally
    decreases |s|
  {
    if s == "" then t else TallyAll(TallyStep(t, s[0]), s[1..])
  }

  predicate NeedsEscape(s: string, isname: bool)
    requires s != ""
  {
    var bad := (if IsSpecial(s[0]) then 1 else 0) + (if HasPrefix(s, "namespace:") then 1 else 0);
    var t := TallyAll(Tally(bad, 0, 0), if bad <= |s| then s[bad..] else "");
    t.paren != 0 || t.bad + (if isname && EndsAny(s) then 1 else 0) != t.parenbad
  }

  predicate EscapeChar(c: char, first: bool) { IsBad(c) || (first && IsSpecial(c)) }

  function EscapeFrom(s: string, first: bool): string {
    if s == "" then ""
    else (if EscapeChar(s[0], first) then Hex(s[0]) else [s[0]]) + EscapeFrom(s[1..], false)
  }

  function EscapeAny(s: string): string {
    if EndsAny(s) then s[..|s| - 4] + "\\3aany" else s
  }

  function Escape(s: string, isname: bool): string {
    var out := if HasPrefix(s, "namespace:") then "namespace\\3a" + EscapeFrom(s[10..], true) else EscapeFrom(s, true);
    if isname then EscapeAny(out) else out
  }

  /** `testcase_id2str` */
  function Id2Str(id: Id, isname: bool): string {
    if id.Null? then "<NULL>" else if id.s == "" then "\\00"
    else if NeedsEscape(id.s, isname) then Escape(id.s, isname) else id.s
  }

  // ----- operators -----

  const OPCOUNT: nat := 22

  /** The operators in the order in which they are tried. */
  function OpEntry(i: nat): (r: (int, string))
    ensures r.1 != ""
  {
    if i == 0 then (2, "=") else if i == 1 then (7, "<=>") else if i == 2 then (6, "<=") else if i == 3 then (3, ">=")
    else if i == 4 then (1, ">") else if i == 5 then (5, "<>") else if i == 6 then (REL_AND, "&")
    else if i == 7 then (REL_OR, "|")
    else if i == 8 then (18, "+") else if i == 9 then (28, "-") else if i == 10 then (REL_NAMESPACE, "<NAMESPACE>")
    else if i == 11 then (20, ".") else if i == 12 then (REL_MULTIARCH, "<MULTIARCH>")
    else if i == 13 then (21, "<FILECONFLICT>")
    else if i == 14 then (22, "<IF>") else if i == 15 then (REL_COMPAT, "compat >=") else if i == 16 then (24, "<KIND>")
    else if i == 17 then (26, "<ELSE>") else if i == 18 then (27, "<ERROR>") else if i == 19 then (29, "<UNLESS>")
    else if i == 20 then (30, "<CONDA>") else (4, "<")
  }

  /** A comparison: the right-hand side is a version. */
  predicate IsRelop(flags: int) { 0 < flags < 8 }

  function Dec(n: nat): (r: string)
    ensures r != ""
  {
    if n < 10 then ['0' + n as char] else Dec(n / 10) + ['0' + (n % 10) as char]
  }

  function OpName(flags: int, i: nat): string
    requires i <= OPCOUNT
    decreases OPCOUNT - i
  {
    if i == OPCOUNT then "<" + Dec(if flags < 0 then flags % 0x1_0000_0000 else flags) + ">"
    else if OpEntry(i).0 == flags then OpEntry(i).1 else OpName(flags, i + 1)
  }

  // ----- printing -----

  /** Printed as name(...) */
  predicate IsNamespace(d: Dep) {
    d.Rel? && d.flags == REL_NAMESPACE && d.name.Leaf? && d.name.id.Str? && HasPrefix(d.name.id.s, "namespace:")
  }

  /** Printed with the suffix :any */
  predicate IsAny(d: Dep) {
    d.Rel? && d.flags == REL_MULTIARCH && d.name.Leaf? && d.evr == ARCH_ANY
  }

  function NameParens(d: Dep): bool
    requires d.Rel?
  {
    d.name.Rel? && !(d.flags > 7 && d.flags != REL_COMPAT && d.name.flags != 0 && d.name.flags <= 7)
  }

  function EvrParens(d: Dep): bool
    requires d.Rel?
  {
    && d.evr.Rel? && !(d.flags > 7 && d.evr.flags != 0 && d.evr.flags <= 7)
    && !(d.flags == REL_AND && d.evr.flags == REL_AND) && !(d.flags == REL_OR && d.evr.flags == REL_OR)
    && !(IsRelop(d.flags) && d.evr.flags == REL_COMPAT)
  }

  /** `testcase_dep2str_complex`, without what it appends to. */
  function Dep2Str(d: Dep, addparens: bool): string {
    if d.Leaf? then Id2Str(d.id, true)
    else if IsNamespace(d) then d.name.id.s + "(" + Dep2Str(d.evr, false) + ")"
    else if IsAny(d) then Id2Str(d.name.id, true) + ":any"
    else
      (if addparens then "(" else "") + Dep2Str(d.name, NameParens(d)) + " " + OpName(d.flags, 0) + " " +
      (if d.evr.Leaf? then Id2Str(d.evr.id, false) else Dep2Str(d.evr, EvrParens(d))) + (if addparens then ")" else "")
  }

  // ----- parsing -----

  function SkipBlanks(t: string): (r: string)
    ensures |r| <= |t| && (r != "" ==> r[0] != ' ' && r[0] != '\t')
  {
    if t != "" && (t[0] == ' ' || t[0] == '\t') then SkipBlanks(t[1..]) else t
  }

  /** Length of the name at the start of t: up to a blank, a control character, or an unmatched closing parenthesis. */
  function Scan(t: string, paren: nat): (n: nat)
    ensures n <= |t|
  {
    if t == "" || t[0] <= ' ' then 0
    else if t[0] == '(' then 1 + Scan(t[1..], paren + 1)
    else if t[0] == ')' then (if paren == 0 then 0 else 1 + Scan(t[1..], paren - 1))
    else 1 + Scan(t[1..], paren)
  }

  function HexValue(c: char): int {
    if '0' <= c <= '9' then c as int - '0' as int
    else if 'a' <= c <= 'f' then c as int - 'a' as int + 10
    else if 'A' <= c <= 'F' then c as int - 'A' as int + 10
    else -1
  }

  /** Undo the escapes; a backslash without two digits stands for itself. */
  function Decode(t: string): string {
    if t == "" then ""
    else if t[0] == '\\' && |t| > 2 && HexValue(t[1]) >= 0 && HexValue(t[2]) >= 0 then
      [(16 * HexValue(t[1]) + HexValue(t[2])) as char] + Decode(t[3..])
    else [t[0]] + Decode(t[1..])
  }

  /** Up to the first NUL. */
  function CString(s: string): string {
    if s == "" || s[0] == '\0' then "" else [s[0]] + CString(s[1..])
  }

  function TextId(body: string, haveesc: bool): Id {
    if !haveesc then (if body == "<NULL>" then Null else Str(body))
    else if body == "\\00" then Str("") else Str(CString(Decode(body)))
  }

  /** `testcase_str2dep_simple` */
  function ParseSimple(t: string, isname: bool): (r: (Dep, string))
    ensures |r.1| <= |t|
  {
    var n := Scan(t, 0);
    var isany := isname && EndsAny(t[..n]);
    var id := Leaf(TextId(t[..if isany then n - 4 else n], '\\' in t[..n]));
    (if isany then Rel(id, ARCH_ANY, REL_MULTIARCH) else id, t[n..])
  }

  /** The first operator of the list that starts s. */
  function FindOp(s: string, i: nat): (r: Option<(int, nat)>)
    requires i <= OPCOUNT
    ensures r.Some? ==> 0 < r.value.1 <= |s|
    decreases OPCOUNT - i
  {
    if i == OPCOUNT then None
    else if HasPrefix(s, OpEntry(i).1) then Some((OpEntry(i).0, |OpEntry(i).1|))
    else FindOp(s, i + 1)
  }

  function Digits(s: string): (n: nat)
    ensures n <= |s| && (forall i :: 0 <= i < n ==> IsDigit(s[i])) && (n < |s| ==> !IsDigit(s[n]))
  {
    if s != "" && IsDigit(s[0]) then 1 + Digits(s[1..]) else 0
  }

  function Value(s: string): nat
    requires forall i :: 0 <= i < |s| ==> IsDigit(s[i])
  {
    assert s != "" ==> IsDigit(s[|s| - 1]);
    if s == "" then 0 else 10 * Value(s[..|s| - 1]) + (s[|s| - 1] as int - '0' as int)
  }

  /** `strtoul` stored in an int: saturating at 2^64, then the low 32 bits, signed. */
  function ToFlags(v: nat): int {
    var low := (if v >= 0x1_0000_0000_0000_0000 then 0xFFFF_FFFF_FFFF_FFFF else v) % 0x1_0000_0000;
    if low >= 0x8000_0000 then low - 0x1_0000_0000 else low
  }

  /** An operator written as a number in angle brackets: its flags and length. */
  function NumericOp(s: string): (r: Option<(int, nat)>)
    ensures r.Some? ==> 0 < r.value.1 <= |s|
  {
    if |s| > 1 && s[0] == '<' && IsDigit(s[1]) then
      var n := Digits(s[1..]);
      if n + 1 < |s| && s[n + 1] == '>' then Some((ToFlags(Value(s[1..][..n])), n + 2)) else None
    else None
  }

  /** The operator at the start of s. */
  function ParseOp(s: string): (r: Option<(int, nat)>)
    ensures r.Some? ==> 0 < r.value.1 <= |s|
  {
    var num := NumericOp(s);
    if num.Some? && num.value.0 != -1 then num
    else
      var skip := if num.Some? then num.value.1 else 0;
      var op := FindOp(s[skip..], 0);
      if op.None? then None else Some((op.value.0, skip + op.value.1))
  }

  function IndexOf(s: string, c: char, i: nat): (r: nat)
    requires i <= |s|
    ensures i <= r <= |s| && (r < |s| ==> s[r] == c) && forall k :: i <= k < r ==> s[k] != c
    decreases |s| - i
  {
    if i == |s| || s[i] == c then i else IndexOf(s, c, i + 1)
  }

  /** What comes before the first operator: a name, or something in parentheses, perhaps of a namespace. */
  function ParseOperand(t: string, relop: bool): (r: Option<(Dep, string)>)
    ensures r.Some? ==> |r.value.1| <= |t|
    decreases |t|, 0
  {
    var s := SkipBlanks(t);
    var p := if HasPrefix(s, "namespace:") then IndexOf(s, '(', 10) else 0;
    var isns := HasPrefix(s, "namespace:") && p < |s|;
    var u := if isns then s[p..] else s;
    if u != "" && u[0] == '(' then
      var inner := ParseComplex(u[1..], false);
      if inner.None? || inner.value.1 == "" || inner.value.1[0] != ')' then None
      else Some((if isns then Rel(Leaf(Str(s[..p])), inner.value.0, REL_NAMESPACE)
        else inner.value.0, inner.value.1[1..]))
    else Some(ParseSimple(u, !relop))
  }

  /** The operators that follow `id`. */
  function ParseOps(id: Dep, t: string, relop: bool): (r: Option<(Dep, string)>)
    ensures r.Some? ==> |r.value.1| <= |t|
    decreases |t|, 1
  {
    var s := SkipBlanks(t);
    if s == "" || s[0] == ')' || (relop && !HasPrefix(s, "compat >= ")) then Some((id, s))
    else
      var op := ParseOp(s);
      if op.None? then None
      else
        var right := ParseComplex(s[op.value.1..], IsRelop(op.value.0));
        if right.None? then None else ParseOps(Rel(id, right.value.0, op.value.0), right.value.1, relop)
  }

  /** `testcase_str2dep_complex` */
  function ParseComplex(t: string, relop: bool): (r: Option<(Dep, string)>)
    ensures r.Some? ==> |r.value.1| <= |t|
    decreases |t|, 2
  {
    var left := ParseOperand(t, relop);
    if left.None? then None else ParseOps(left.value.0, left.value.1, relop)
  }

  /** `testcase_str2dep`; id 0 stands for a parse error. */
  function Str2Dep(s: string): Dep {
    var r := ParseComplex(s, false);
    if r.Some? && r.value.1 == "" then r.value.0 else Leaf(Null)
  }
}
