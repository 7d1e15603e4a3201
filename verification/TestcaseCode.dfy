/** The printer and the parser as they work, advancing through text, against their specifications. */
module TestcaseCode {
  import opened Common
  import opened TestcaseText

  // ----- printing -----

  method TestcaseId2Str(id: Id, isname: bool) returns (r: string)
    ensures r == Id2Str(id, isname)
  {
    if id.Null? {
      return "<NULL>";
    }
    if id.s == "" {
      return "\\00";
    }
    var s := id.s;
    var needs := CountBad(s, isname);
    if !needs {
      return s;
    }
    var prefix := "";
    if HasPrefix(s, "namespace:") {
      prefix, s := "namespace\\3a", s[10..];
    }
    r := EscapeLoop(s);
    r := prefix + r;
    if isname && EndsAny(r) {
      r := r[..|r| - 4] + "\\3aany";
    }
  }

  /** Are there characters that must be escaped? Pairs of parentheses side by side are not. */
  method CountBad(s: string, isname: bool) returns (needs: bool)
    requires s != ""
    ensures needs == NeedsEscape(s, isname)
  {
    hide IsBad, IsSpecial, HasPrefix, EndsAny, HasSuffix;
    var bad, paren, parenbad := 0, 0, 0;
    if IsSpecial(s[0]) {
      bad := bad + 1;
    }
    if HasPrefix(s, "namespace:") {
      SpecialNamespace(s);
      bad := bad + 1;
    }
    var i := bad;
    ghost var all := TallyAll(Tally(bad, 0, 0), s[i..]);
    while i < |s|
      invariant 0 <= i <= |s| && TallyAll(Tally(bad, paren, parenbad), s[i..]) == all
    {
      assert s[i..][1..] == s[i + 1..];
      var c := s[i];
      if IsBad(c) {
        bad := bad + 1;
      }
      if c == '(' {
        paren := if paren == 0 then 1 else -1;
      } else if c == ')' {
        paren := if paren == 1 then 0 else -1;
        if paren == 0 {
          parenbad := parenbad + 2;
        }
      }
      i := i + 1;
    }
    if isname && EndsAny(s) {
      bad := bad + 1;
    }
    return paren != 0 || bad - parenbad != 0;
  }

  lemma SpecialNamespace(s: string)
    requires s != "" && HasPrefix(s, "namespace:")
    ensures !IsSpecial(s[0]) && |s| >= 10
  {
    assert s[..10][0] == s[0];
  }

  method EscapeLoop(s: string) returns (r: string)
    ensures r == EscapeFrom(s, true)
  {
    r := "";
    for i := 0 to |s|
      invariant r + EscapeFrom(s[i..], i == 0) == EscapeFrom(s, true)
    {
      assert s[i..][1..] == s[i + 1..];
      ghost var rest := EscapeFrom(s[i + 1..], false);
      if EscapeChar(s[i], i == 0) {
        assert (r + Hex(s[i])) + rest == r + (Hex(s[i]) + rest);
        r := r + Hex(s[i]);
      } else {
        assert (r + [s[i]]) + rest == r + ([s[i]] + rest);
        r := r + [s[i]];
      }
    }
  }

  method OpText(flags: int) returns (r: string)
    ensures r == OpName(flags, 0)
  {
    var i := 0;
    while i < OPCOUNT && OpEntry(i).0 != flags
      invariant 0 <= i <= OPCOUNT && OpName(flags, i) == OpName(flags, 0)
    {
      i := i + 1;
    }
    if i < OPCOUNT {
      return OpEntry(i).1;
    }
    return "<" + Dec(if flags < 0 then flags % 0x1_0000_0000 else flags) + ">";
  }

  /** `testcase_dep2str_complex`: append the text of d to s. */
  method Dep2StrComplex(s: string, d: Dep, addparens: bool) returns (r: string)
    ensures r == s + Dep2Str(d, addparens)
    decreases d, 2
  {
    hide Id2Str, OpName;
    r := s;
    if d.Leaf? {
      var t := TestcaseId2Str(d.id, true);
      return s + t;
    }
    if d.flags == REL_NAMESPACE && d.name.Leaf? && d.name.id.Str? && HasPrefix(d.name.id.s, "namespace:") {
      r := r + d.name.id.s + "(";
      r := Dep2StrComplex(r, d.evr, false);
      r := r + ")";
      return;
    }
    if d.flags == REL_MULTIARCH && d.name.Leaf? && d.evr == ARCH_ANY {
      var t := TestcaseId2Str(d.name.id, true);
      return s + t + ":any";
    }
    r := AppendRelation(s, d, addparens);
  }

  method AppendRelation(s: string, d: Dep, addparens: bool) returns (r: string)
    requires d.Rel? && !IsNamespace(d) && !IsAny(d)
    ensures r == s + Dep2Str(d, addparens)
    decreases d, 1
  {
    hide Id2Str, OpName, Dep2Str;
    r := s;
    var needparens := d.name.Rel?;
    if needparens && d.flags > 7 && d.flags != REL_COMPAT && d.name.flags != 0 && d.name.flags <= 7 {
      needparens := false;
    }
    if addparens {
      r := r + "(";
    }
    ghost var p, q := if addparens then "(" else "", if addparens then ")" else "";
    assert r == s + p;
    r := Dep2StrComplex(r, d.name, needparens);
    var op := OpText(d.flags);
    r := r + " " + op + " ";
    ghost var right;
    r, right := AppendRight(r, d);
    if addparens {
      r := r + ")";
    }
    RelationText(d, addparens, right);
    Joined(s, p, Dep2Str(d.name, needparens), op, right, q, r);
  }

  method AppendRight(s: string, d: Dep) returns (r: string, ghost right: string)
    requires d.Rel?
    ensures r == s + right && right == if d.evr.Leaf? then Id2Str(d.evr.id, false) else Dep2Str(d.evr, EvrParens(d))
    decreases d, 0
  {
    hide Id2Str, OpName, Dep2Str;
    if d.evr.Leaf? {
      var t := TestcaseId2Str(d.evr.id, false);
      return s + t, t;
    }
    var needparens := true;
    if d.flags > 7 && d.evr.flags != 0 && d.evr.flags <= 7 {
      needparens := false;
    }
    if d.flags == REL_AND && d.evr.flags == REL_AND {
      needparens := false;
    }
    if d.flags == REL_OR && d.evr.flags == REL_OR {
      needparens := false;
    }
    if 0 < d.flags < 8 && d.evr.flags == REL_COMPAT {
      needparens := false;
    }
    r := Dep2StrComplex(s, d.evr, needparens);
    right := Dep2Str(d.evr, needparens);
  }

  lemma RelationText(d: Dep, addparens: bool, right: string)
    requires d.Rel? && !IsNamespace(d) && !IsAny(d)
    requires right == if d.evr.Leaf? then Id2Str(d.evr.id, false) else Dep2Str(d.evr, EvrParens(d))
    ensures Dep2Str(d, addparens)
      == (if addparens then "(" else "") + Dep2Str(d.name, NameParens(d)) + " " + OpName(d.flags, 0) + " " +
            right + (if addparens then ")" else "")
  {
    hide Id2Str, OpName;
  }

  lemma Joined(s: string, p: string, l: string, op: string, right: string, q: string, r: string)
    requires r == s + p + l + " " + op + " " + right + q
    ensures r == s + (p + l + " " + op + " " + right + q)
  {
  }

  // ----- parsing -----

  method Str2DepSimple(t: string, isname: bool) returns (d: Dep, rest: string)
    ensures (d, rest) == ParseSimple(t, isname)
  {
    var n, paren, haveesc := 0, 0, false;
    while n < |t| && t[n] > ' ' && (t[n] != ')' || paren > 0)
      invariant n <= |t| && paren >= 0 && Scan(t, 0) == n + Scan(t[n..], paren)
      invariant haveesc <==> '\\' in t[..n]
    {
      assert t[n..][1..] == t[n + 1..] && t[..n + 1] == t[..n] + [t[n]];
      if t[n] == '\\' {
        haveesc := true;
      }
      if t[n] == '(' {
        paren := paren + 1;
      }
      if t[n] == ')' {
        paren := paren - 1;
      }
      n := n + 1;
    }
    assert Scan(t[n..], paren) == 0;
    var isany := isname && EndsAny(t[..n]);
    var body := t[..if isany then n - 4 else n];
    var id;
    if !haveesc {
      id := if body == "<NULL>" then Null else Str(body);
    } else if body == "\\00" {
      id := Str("");
    } else {
      var decoded := DecodeLoop(body);
      id := Str(decoded);
    }
    d := Leaf(id);
    if isany {
      d := Rel(d, ARCH_ANY, REL_MULTIARCH);
    }
    rest := t[n..];
  }

  /** Does an escape start at i? */
  predicate EscapedAt(t: string, i: nat)
    requires i < |t|
  {
    t[i] == '\\' && i + 2 < |t| && HexValue(t[i + 1]) >= 0 && HexValue(t[i + 2]) >= 0
  }

  function EscapedChar(t: string, i: nat): char
    requires i < |t| && EscapedAt(t, i)
  {
    (16 * HexValue(t[i + 1]) + HexValue(t[i + 2])) as char
  }

  lemma DecodeEscape(t: string, i: nat, b: string)
    requires i < |t| && EscapedAt(t, i)
    ensures b + Decode(t[i..]) == (b + [EscapedChar(t, i)]) + Decode(t[i + 3..])
  {
    hide HexValue;
    var u := t[i..];
    assert u[3..] == t[i + 3..] && u[1] == t[i + 1] && u[2] == t[i + 2];
    assert Decode(u) == [EscapedChar(t, i)] + Decode(u[3..]);
  }

  lemma DecodeOther(t: string, i: nat, b: string)
    requires i < |t| && !EscapedAt(t, i)
    ensures b + Decode(t[i..]) == (b + [t[i]]) + Decode(t[i + 1..])
  {
    hide HexValue;
    var u := t[i..];
    assert u[1..] == t[i + 1..] && u[0] == t[i] && (|u| > 2 ==> u[1] == t[i + 1] && u[2] == t[i + 2]);
    assert Decode(u) == [t[i]] + Decode(u[1..]);
  }

  /** Undo the escapes; a NUL written that way ends the string. */
  method DecodeLoop(t: string) returns (r: string)
    ensures r == CString(Decode(t))
  {
    hide HexValue, Decode, CString;
    var b, i := "", 0;
    assert t[0..] == t && b + Decode(t) == Decode(t);
    while i < |t|
      invariant i <= |t| && b + Decode(t[i..]) == Decode(t)
    {
      if EscapedAt(t, i) {
        DecodeEscape(t, i, b);
        b, i := b + [EscapedChar(t, i)], i + 3;
      } else {
        DecodeOther(t, i, b);
        b, i := b + [t[i]], i + 1;
      }
    }
    DecodeEnd(t, i, b);
    r := CString(b);
  }

  lemma DecodeEnd(t: string, i: nat, b: string)
    requires i == |t|
    ensures b + Decode(t[i..]) == b
  {
    assert t[i..] == "" && b + "" == b;
  }

  method SkipLoop(t: string) returns (s: string)
    ensures s == SkipBlanks(t)
  {
    s := t;
    while s != "" && (s[0] == ' ' || s[0] == '\t')
      invariant SkipBlanks(s) == SkipBlanks(t)
      decreases |s|
    {
      s := s[1..];
    }
  }

  /** `testcase_str2dep_complex`. None: no dependency. */
  method Str2DepComplex(t: string, relop: bool) returns (r: Option<(Dep, string)>)
    ensures r == ParseComplex(t, relop)
    decreases |t|, 1
  {
    hide ParseSimple, ParseOp, HasPrefix;
    var left := Operand(t, relop);
    if left.None? {
      return None;
    }
    var id, s := left.value.0, left.value.1;
    while true
      invariant |s| <= |t| && ParseOps(id, s, relop) == ParseComplex(t, relop)
      decreases |s|
    {
      var u := SkipLoop(s);
      if u == "" || u[0] == ')' || (relop && !HasPrefix(u, "compat >= ")) {
        return Some((id, u));
      }
      var op := ParseOp(u);
      if op.None? {
        return None;
      }
      var right := Str2DepComplex(u[op.value.1..], IsRelop(op.value.0));
      if right.None? {
        return None;
      }
      id, s := Rel(id, right.value.0, op.value.0), right.value.1;
    }
  }

  method Operand(t: string, relop: bool) returns (r: Option<(Dep, string)>)
    ensures r == ParseOperand(t, relop)
    decreases |t|, 0
  {
    hide ParseSimple, ParseComplex, HasPrefix;
    var s := SkipLoop(t);
    var namespace: Option<string> := None;
    var u := s;
    if HasPrefix(s, "namespace:") {
      PrefixLong(s);
      var p := 10;
      while p < |s| && s[p] != '('
        invariant 10 <= p <= |s| && IndexOf(s, '(', p) == IndexOf(s, '(', 10)
      {
        p := p + 1;
      }
      if p < |s| {
        namespace, u := Some(s[..p]), s[p..];
      }
    }
    if u != "" && u[0] == '(' {
      var inner := Str2DepComplex(u[1..], false);
      if inner.None? || inner.value.1 == "" || inner.value.1[0] != ')' {
        return None;
      }
      var id := inner.value.0;
      if namespace.Some? {
        id := Rel(Leaf(Str(namespace.value)), id, REL_NAMESPACE);
      }
      return Some((id, inner.value.1[1..]));
    }
    var d, rest := Str2DepSimple(u, !relop);
    return Some((d, rest));
  }

  lemma PrefixLong(s: string)
    requires HasPrefix(s, "namespace:")
    ensures |s| >= 10
  {
  }

  method TestcaseStr2Dep(s: string) returns (d: Dep)
    ensures d == Str2Dep(s)
  {
    var r := Str2DepComplex(s, false);
    if r.Some? && r.value.1 == "" {
      return r.value.0;
    }
    return Leaf(Null);
  }
}
