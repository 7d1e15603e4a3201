/** Writing and reading armor with loops over the text, and that the buffers they allocate are large enough. */
module ArmorCode {
  import opened Common
  import opened Crc24
  import opened Armor

  // ----- buffer sizes -----

  /** Four letters a group, and a newline before every group that finds sixteen on its line. */
  function Length(n: nat, i: nat): nat
    requires i <= 16
  {
    if n == 0 then 0 else (n + 2) / 3 * 4 + ((n + 2) / 3 + i - 1) / 16
  }

  lemma LengthStep(n: nat, i: nat)
    requires n > 0 && i <= 16
    ensures Length(n, i)
      == 4 + (if i == 16 then 1 else 0) + Length(if n > 3 then n - 3 else 0, if i == 16 then 1 else i + 1)
  {
    var g := (n + 2) / 3;
    if n > 3 { assert (n - 3 + 2) / 3 == g - 1; }
    assert (g + 15) / 16 == 1 + (g - 1) / 16;
  }

  lemma {:induction false} BodyLength(pkt: seq<byte>, i: nat)
    requires i <= 16
    ensures |Body(pkt, i)| == Length(|pkt|, i)
    decreases |pkt|
  {
    hide Group, Length;
    if pkt == [] {
      LengthZero(i);
    } else {
      LengthStep(|pkt|, i);
      BodyLength(if |pkt| > 3 then pkt[3..] else [], if i == 16 then 1 else i + 1);
    }
  }

  lemma LengthZero(i: nat)
    requires i <= 16
    ensures Length(0, i) == 0
  {
  }

  /** `armor` allocates enough for the text and its final zero. */
  lemma ArmorFits(pkt: seq<byte>, start: string, end: string, version: string)
    ensures |ArmorText(pkt, start, end, version)| + 1 <= |start| + |end| + |version| + |pkt| / 3 * 4 + |pkt| / 48 + 30
  {
    hide Body, CrcText, Checksum;
    ChecksumBound(pkt);
    BodyLength(pkt, 0);
    TextLength(pkt, Checksum(pkt), start, end, version);
  }

  lemma TextLength(pkt: seq<byte>, v: nat, start: string, end: string, version: string)
    requires v < 0x1000000
    ensures |ArmorWith(pkt, v, start, end, version)| == |start| + |end| + |version| + |Body(pkt, 0)| + 20
  {
    hide Body, Letter;
  }

  /** The place of the first '='. */
  function FirstPad(t: string): (r: nat)
    ensures r <= |t|
  {
    if t == "" || t[0] == '=' then 0 else 1 + FirstPad(t[1..])
  }

  /** A group read without padding took its letters from in front of the first '='. */
  lemma {:induction false} GroupBefore(t: string, i: nat, v: nat)
    requires i < 4 && '=' in t && Read64(t, i, v, 0).Some? && Read64(t, i, v, 0).value.1 == 0
    ensures '=' in Read64(t, i, v, 0).value.2
    ensures FirstPad(t) >= FirstPad(Read64(t, i, v, 0).value.2) + 4 - i
    decreases |t|
  {
    if t[0] == '=' {
      PadGrows(t[1..], i + 1, v * 64, 1);
    } else {
      assert '=' in t[1..];
      if Digit(t[0]) < 0 {
        GroupBefore(t[1..], i, v);
      } else if i < 3 {
        GroupBefore(t[1..], i + 1, v * 64 + Digit(t[0]));
      }
    }
  }

  lemma {:induction false} PadGrows(t: string, i: nat, v: nat, eof: nat)
    requires 0 < i
    ensures i < 4 && Read64(t, i, v, eof).Some? ==> Read64(t, i, v, eof).value.1 >= eof
    decreases |t|
  {
    if i < 4 && t != "" {
      if t[0] == '=' {
        PadGrows(t[1..], i + 1, v * 64, eof + 1);
      } else if Digit(t[0]) < 0 {
        PadGrows(t[1..], i, v, eof);
      } else {
        PadGrows(t[1..], i + 1, v * 64 + Digit(t[0]), eof);
      }
    }
  }

  // ----- writing -----

  lemma BodyStep(pkt: seq<byte>, i: nat, s: string)
    requires pkt != []
    ensures s + Body(pkt, i) == s + (if i == 16 then "\n" else "") + Group(pkt)
                                + Body(if |pkt| > 3 then pkt[3..] else [], if i == 16 then 1 else i + 1)
  {
    hide Group;
  }

  method ArmorPacket(pkt: seq<byte>, start: string, end: string, version: string) returns (str: string)
    ensures str == ArmorText(pkt, start, end, version)
  {
    hide Body, CrcText, Group, Checksum;
    var v := ComputeCrc(pkt);
    ChecksumBound(pkt);
    str := start + "\nVersion: " + version + "\n\n";
    ghost var front := str;
    var i, k := -1, 0;
    assert pkt[0..] == pkt;
    while k < |pkt|
      invariant 0 <= k <= |pkt| && -1 <= i < 16
      invariant str + Body(pkt[k..], i + 1) == front + Body(pkt, 0)
    {
      BodyStep(pkt[k..], i + 1, str);
      i := i + 1;
      if i == 16 {
        i := 0;
        str := str + "\n";
      } else {
        assert str + "" == str;
      }
      str := str + Group(pkt[k..]);
      assert pkt[if k + 3 <= |pkt| then k + 3 else |pkt|..] == if |pkt[k..]| > 3 then pkt[k..][3..] else [];
      k := if k + 3 <= |pkt| then k + 3 else |pkt|;
    }
    assert Body(pkt[k..], i + 1) == "" by {
      assert pkt[k..] == [];
      BodyEmpty(i + 1);
    }
    str := str + "\n=" + CrcText(v) + "\n" + end + "\n";
  }

  lemma BodyEmpty(i: nat)
    ensures Body([], i) == ""
  {
  }

  // ----- reading -----

  method R64Dec1(t: string, p0: nat, eof0: nat) returns (ok: bool, p: nat, v: nat, eof: nat)
    requires p0 <= |t|
    ensures ok ==> p <= |t| && Read64(t[p0..], 0, 0, eof0) == Got(v, eof, t[p..])
    ensures !ok ==> Read64(t[p0..], 0, 0, eof0) == None
  {
    p, v, eof := p0, 0, eof0;
    var i := 0;
    while i < 4
      invariant p <= |t| && 0 <= i <= 4
      invariant i < 4 ==> Read64(t[p0..], 0, 0, eof0) == Read64(t[p..], i, v, eof)
      invariant i == 4 ==> Read64(t[p0..], 0, 0, eof0) == Got(v, eof, t[p..])
      decreases |t| - p
    {
      if p == |t| { return false, 0, 0, 0; }
      assert t[p..][0] == t[p] && t[p..][1..] == t[p + 1..];
      var x := Digit(t[p]);
      p := p + 1;
      if t[p - 1] == '=' {
        x := 0;
        if i == 0 { return true, p - 1, 0, 3; }
        eof := eof + 1;
      } else if x < 0 {
        continue;
      }
      v := v * 64 + x;
      i := i + 1;
    }
    ok := true;
  }

  /** The next c at or after p, like `strchr`. */
  method StrChr(t: string, p: nat, c: char) returns (q: nat)
    requires p <= |t|
    ensures p <= q <= |t| && c !in t[p..q] && (q < |t| ==> t[q] == c)
  {
    q := p;
    while q < |t| && t[q] != c
      invariant p <= q <= |t| && c !in t[p..q]
    {
      q := q + 1;
    }
  }

  method SkipOver(t: string, p: nat, blank: char -> bool) returns (q: nat)
    requires p <= |t|
    ensures p <= q <= |t| && t[q..] == Skip(t[p..], blank)
  {
    q := p;
    while q < |t| && blank(t[q])
      invariant p <= q <= |t| && Skip(t[q..], blank) == Skip(t[p..], blank)
    {
      assert t[q..][1..] == t[q + 1..];
      q := q + 1;
    }
  }

  lemma {:induction false} LineAfter(t: string, p: nat, q: nat)
    requires p <= q <= |t| && '\n' !in t[p..q] && (q < |t| ==> t[q] == '\n')
    ensures NextLine(t[p..]) == if q < |t| then Some(t[q + 1..]) else None
    decreases q - p
  {
    if p < q {
      assert t[p] == t[p..q][0] && t[p..][1..] == t[p + 1..] && t[p + 1..q] == t[p..q][1..];
      LineAfter(t, p + 1, q);
    } else if q < |t| {
      assert t[p..][1..] == t[q + 1..];
    }
  }

  method GotoLine(t: string, p: nat) returns (ok: bool, q: nat)
    requires p <= |t|
    ensures ok ==> p < q <= |t| && NextLine(t[p..]) == Some(t[q..])
    ensures !ok ==> NextLine(t[p..]) == None
  {
    q := StrChr(t, p, '\n');
    LineAfter(t, p, q);
    ok := q < |t|;
    q := q + 1;
  }

  /** Go to the line that begins with `start`. */
  method SeekStart(t: string, start: string) returns (ok: bool, p: nat)
    ensures ok ==> p <= |t| && FindStart(t, start) == Some(t[p..])
    ensures !ok ==> FindStart(t, start) == None
  {
    hide NextLine, HasPrefix;
    p := 0;
    assert t[0..] == t;
    while !HasPrefix(t[p..], start)
      invariant p <= |t| && FindStart(t[p..], start) == FindStart(t, start)
      decreases |t| - p
    {
      ok, p := GotoLine(t, p);
      if !ok { return; }
    }
    ok := true;
  }

  /** Pass the header lines and the blank line after them. */
  method PassHeaders(t: string, p0: nat) returns (ok: bool, p: nat)
    requires p0 <= |t|
    ensures ok ==> p <= |t| && SkipHeaders(t[p0..]) == Some(t[p..])
    ensures !ok ==> SkipHeaders(t[p0..]) == None
  {
    hide NextLine, Skip;
    p := p0;
    while true
      invariant p <= |t| && SkipHeaders(t[p..]) == SkipHeaders(t[p0..])
      decreases |t| - p
    {
      var q := SkipOver(t, p, IsBlank);
      assert q < |t| ==> t[q..][0] == t[q] && t[q..][1..] == t[q + 1..];
      if q < |t| && t[q] == '\n' { return true, q + 1; }
      ok, p := GotoLine(t, q);
      if !ok { return; }
    }
  }

  method Front(t: string, start: string) returns (ok: bool, p: nat)
    ensures ok ==> p <= |t| && FindStart(t, start).Some? && NextLine(FindStart(t, start).value).Some?
                   && SkipHeaders(NextLine(FindStart(t, start).value).value) == Some(t[p..])
    ensures !ok ==> FindStart(t, start).None? || NextLine(FindStart(t, start).value).None?
                    || SkipHeaders(NextLine(FindStart(t, start).value).value).None?
  {
    hide NextLine, FindStart, SkipHeaders;
    ok, p := SeekStart(t, start);
    if !ok { return; }
    ok, p := GotoLine(t, p);
    if !ok { return; }
    ok, p := PassHeaders(t, p);
  }

  /** a in front of what has been read. */
  function Prepend(a: seq<byte>, r: Option<(seq<byte>, nat, string)>): Option<(seq<byte>, nat, string)> {
    if r.None? then None else Some((a + r.value.0, r.value.1, r.value.2))
  }

  lemma PrependGroup(a: seq<byte>, t: string)
    ensures var g := Read64(t, 0, 0, 0);
            Prepend(a, ReadBody(t)) == if g.None? then None
                                       else if g.value.1 != 0 then Some((a + Bytes(g.value.0), g.value.1, g.value.2))
                                       else Prepend(a + Bytes(g.value.0), ReadBody(g.value.2))
  {
    hide Read64, Bytes;
    var g := Read64(t, 0, 0, 0);
    if g.Some? && g.value.1 == 0 && ReadBody(g.value.2).Some? {
      Cut(a, Bytes(g.value.0), ReadBody(g.value.2).value.0);
    }
  }

  lemma {:induction false} PadAt(t: string, p: nat, q: nat)
    requires p <= q < |t| && '=' !in t[p..q] && t[q] == '='
    ensures FirstPad(t[p..]) == q - p
    decreases q - p
  {
    if p < q {
      assert t[p] == t[p..q][0] && t[p..][1..] == t[p + 1..] && t[p + 1..q] == t[p..q][1..];
      PadAt(t, p + 1, q);
    }
  }

  /** The groups are stored in a buffer of l * 3 / 4 + 4 bytes, l the distance to the first '='; it never overruns. */
  method Groups(t: string, p0: nat, l: nat) returns (ok: bool, p: nat, buf: array<byte>, bp: nat, eof: nat)
    requires p0 <= |t| && '=' in t[p0..] && FirstPad(t[p0..]) == l
    ensures fresh(buf)
    ensures ok ==> p <= |t| && bp <= buf.Length && ReadBody(t[p0..]) == Some((buf[..bp], eof, t[p..]))
    ensures !ok ==> ReadBody(t[p0..]) == None
  {
    hide Read64, ReadBody, Bytes, FirstPad;
    buf := new byte[l * 3 / 4 + 4];
    p, bp, eof := p0, 0, 0;
    assert buf[..0] == [];
    PrependNothing(ReadBody(t[p0..]));
    while eof == 0
      invariant p <= |t| && bp <= buf.Length
      invariant eof == 0 ==> ReadBody(t[p0..]) == Prepend(buf[..bp], ReadBody(t[p..]))
      invariant eof == 0 ==> '=' in t[p..] && 4 * bp + 3 * FirstPad(t[p..]) <= 3 * l
      invariant eof != 0 ==> ReadBody(t[p0..]) == Some((buf[..bp], eof, t[p..]))
      decreases |t| - p, if eof == 0 then 1 else 0
    {
      ghost var rest, had := t[p..], buf[..bp];
      PrependGroup(had, rest);
      var v;
      ok, p, v, eof := R64Dec1(t, p, 0);
      if !ok { return; }
      if eof == 0 { GroupBefore(rest, 0, 0); }
      buf[bp], buf[bp + 1], buf[bp + 2] := v / 0x10000 % 256, v / 256 % 256, v % 256;
      bp := bp + 3;
      StoredGroup(buf[..bp], had, v);
    }
    ok := true;
  }

  lemma PrependNothing(r: Option<(seq<byte>, nat, string)>)
    ensures Prepend([], r) == r
  {
    if r.Some? { assert [] + r.value.0 == r.value.0; }
  }

  lemma StoredGroup(now: seq<byte>, had: seq<byte>, v: nat)
    requires |now| == |had| + 3 && now[..|had|] == had
    requires now[|had|] == v / 0x10000 % 256 && now[|had| + 1] == v / 256 % 256 && now[|had| + 2] == v % 256
    ensures now == had + Bytes(v)
  {
  }

  /** `unarmor`: the packet, and how much of the text it used; 0 for a text that is refused. */
  method UnarmorPacket(t: string, start: string, end: string) returns (pkt: Option<seq<byte>>, used: nat)
    ensures pkt == Unarmor(t, start, end)
    ensures pkt == None <==> used == 0
    ensures pkt.Some? ==> used <= |t| + 1 && (used <= |t| ==> t[used - 1] == '\n')
  {
    hide FindStart, NextLine, SkipHeaders, ReadBody, Read64, Skip, Checksum;
    var ok, p := Front(t, start);
    if !ok { return None, 0; }
    pkt, used := Packet(t, p, end);
  }

  method Packet(t: string, p0: nat, end: string) returns (pkt: Option<seq<byte>>, used: nat)
    requires p0 <= |t|
    ensures pkt == ReadPacket(t[p0..], end)
    ensures pkt == None <==> used == 0
    ensures pkt.Some? ==> used <= |t| + 1 && (used <= |t| ==> t[used - 1] == '\n')
  {
    hide ReadBody, Read64, Skip, Checksum, FirstPad;
    var q := StrChr(t, p0, '=');
    if q == |t| {
      assert t[p0..q] == t[p0..];
      return None, 0;
    }
    assert '=' in t[p0..] by { assert t[p0..][q - p0] == '='; }
    PadAt(t, p0, q);
    var ok, p, buf, bp, eof := Groups(t, p0, q - p0);
    if !ok { return None, 0; }
    p := SkipOver(t, p, IsSpace);
    var bytes := buf[..bp - eof];
    assert buf[..bp][..bp - eof] == bytes;
    if p == |t| || t[p] != '=' { return None, 0; }
    assert t[p..][1..] == t[p + 1..] && t[p..][0] == '=';
    var v;
    ok, p, v, eof := R64Dec1(t, p + 1, eof);
    if !ok { return None, 0; }
    var crc := ComputeCrc(bytes);
    if v != crc { return None, 0; }
    p := SkipOver(t, p, IsSpace);
    if !HasPrefix(t[p..], end) { return None, 0; }
    var e := StrChr(t, p, '\n');
    return Some(bytes), e + 1;
  }
}
