/** ASCII armor, section 6 of RFC 4880: packets in radix 64 with a checksum, between a start and an end line. */
module Armor {
  import opened Common
  import opened Crc24

  // ----- radix 64 -----

  function Letter(x: nat): char
    requires x < 64
  {
    if x < 26 then 'A' + x as char else if x < 52 then 'a' + (x - 26) as char
    else if x < 62 then '0' + (x - 52) as char else if x == 62 then '+' else '/'
  }

  /** The value of a letter, or -1. */
  function Digit(c: char): int {
    if 'A' <= c <= 'Z' then c as int - 'A' as int
    else if 'a' <= c <= 'z' then c as int - 'a' as int + 26
    else if '0' <= c <= '9' then c as int - '0' as int + 52
    else if c == '+' then 62 else if c == '/' then 63 else -1
  }

  lemma LetterDigit(x: nat)
    requires x < 64
    ensures Digit(Letter(x)) == x && Letter(x) != '=' && Letter(x) != '\n'
  {
  }

  const UPPER := "ABCDEFGHIJKLMNOPQRSTUVWXYZ"
  const LOWER := "abcdefghijklmnopqrstuvwxyz"
  const OTHERS := "0123456789+/"

  lemma AlphabetRuns(x: nat)
    ensures x < 26 ==> UPPER[x] == 'A' + x as char && LOWER[x] == 'a' + x as char
    ensures x < 12 ==> OTHERS[x] == if x < 10 then '0' + x as char else if x == 10 then '+' else '/'
  {
  }

  /** The letters of section 6.3 of RFC 4880 have their positions there as values, and nothing else has a value. */
  lemma RadixAlphabet(x: nat, c: char)
    requires x < 64
    ensures Letter(x) == if x < 26 then UPPER[x] else if x < 52 then LOWER[x - 26] else OTHERS[x - 52]
    ensures Digit(c) == x <==> c == Letter(x)
    ensures -1 <= Digit(c) < 64
  {
    hide UPPER, LOWER, OTHERS;
    AlphabetRuns(if x < 26 then x else if x < 52 then x - 26 else x - 52);
  }

  /** Four letters for the first three bytes; '=' where there are none. */
  function Group(pkt: seq<byte>): (r: string)
    requires pkt != []
    ensures |r| == 4
  {
    var a, b, c := pkt[0], if |pkt| > 1 then pkt[1] else 0, if |pkt| > 2 then pkt[2] else 0;
    [Letter(a / 4), Letter(a % 4 * 16 + b / 16),
     if |pkt| > 1 then Letter(b % 16 * 4 + c / 64) else '=', if |pkt| > 2 then Letter(c % 64) else '=']
  }

  /** The groups of a packet, i of them already on the line; a line holds sixteen. */
  function Body(pkt: seq<byte>, i: nat): string
    decreases |pkt|
  {
    if pkt == [] then ""
    else
      var full := i == 16;
      (if full then "\n" else "") + Group(pkt) + Body(if |pkt| > 3 then pkt[3..] else [], if full then 1 else i + 1)
  }

  /** The number that four letters write. */
  function Written(g: string): int
    requires |g| == 4
  {
    Digit(g[0]) * 0x40000 + Digit(g[1]) * 0x1000 + Digit(g[2]) * 64 + Digit(g[3])
  }

  function Joint(a: nat, b: nat, c: nat): nat {
    a * 0x10000 + b * 256 + c
  }

  /** A group writes its three bytes as one number, the first byte highest; a group of two bytes or of one has zero bits
      behind them, and '=' for the letters that would have none of their bits. */
  lemma GroupMeans(pkt: seq<byte>)
    requires pkt != []
    ensures |pkt| >= 3 ==> Written(Group(pkt)) == Joint(pkt[0], pkt[1], pkt[2])
    ensures |pkt| == 2 ==> Group(pkt)[3] == '=' && Written(Group(pkt)[3 := 'A']) == Joint(pkt[0], pkt[1], 0)
    ensures |pkt| == 1 ==>
      Group(pkt)[2] == Group(pkt)[3] == '=' && Written(Group(pkt)[2 := 'A'][3 := 'A']) == Joint(pkt[0], 0, 0)
  {
    hide Letter, Digit;
    var a, b, c := pkt[0], if |pkt| > 1 then pkt[1] else 0, if |pkt| > 2 then pkt[2] else 0;
    Sextets(a, b, c);
    LetterDigit(a / 4);
    LetterDigit(a % 4 * 16 + b / 16);
    LetterDigit(b % 16 * 4 + c / 64);
    LetterDigit(c % 64);
    assert Digit('A') == 0 by { ZeroLetter(); }
  }

  lemma ZeroLetter()
    ensures Digit('A') == 0
  {
  }

  /** The j-th group, with a line break in front of every sixteenth. */
  lemma {:induction false} BodyGroup(pkt: seq<byte>, i: nat, j: nat)
    requires i <= 16 && 3 * j < |pkt|
    ensures var p := 4 * j + (i + j) / 16; p + 4 <= |Body(pkt, i)| && Body(pkt, i)[p..p + 4] == Group(pkt[3 * j..])
    decreases j
  {
    hide Group, Body;
    var lead := if i == 16 then "\n" else "";
    var next := if i == 16 then 1 else i + 1;
    var tail := if |pkt| > 3 then pkt[3..] else [];
    BodyParts(pkt, i);
    if j == 0 {
      assert pkt[0..] == pkt;
      Between(lead, Group(pkt), Body(tail, next));
    } else {
      BodyGroup(tail, next, j - 1);
      Tail(pkt, j);
      NextPlace(i, j);
      Behind(lead + Group(pkt), Body(tail, next), 4 * (j - 1) + (next + j - 1) / 16);
    }
  }

  lemma NextPlace(i: nat, j: nat)
    requires i <= 16 && j > 0
    ensures 4 * j + (i + j) / 16
      == (if i == 16 then 5 else 4) + (4 * (j - 1) + ((if i == 16 then 1 else i + 1) + j - 1) / 16)
  {
  }

  lemma Tail(pkt: seq<byte>, j: nat)
    requires j > 0 && 3 * j < |pkt|
    ensures pkt[3 * j..] == pkt[3..][3 * (j - 1)..]
  {
  }

  lemma Between(a: string, b: string, c: string)
    ensures (a + b + c)[|a|..|a| + |b|] == b
  {
  }

  /** A group, with the line break that may be in front of it, and the other groups. */
  lemma BodyParts(pkt: seq<byte>, i: nat)
    requires pkt != []
    ensures Body(pkt, i) == (if i == 16 then "\n" else "") + Group(pkt)
      + Body(if |pkt| > 3 then pkt[3..] else [], if i == 16 then 1 else i + 1)
  {
    hide Group;
  }

  lemma Behind(a: string, b: string, p: nat)
    requires p + 4 <= |b|
    ensures (a + b)[|a| + p..|a| + p + 4] == b[p..p + 4]
  {
  }

  /** Lines of 64 letters. */
  lemma {:induction false} LinesOf64(pkt: seq<byte>, i: nat, k: nat)
    requires i <= 16 && k < |Body(pkt, i)|
    ensures Body(pkt, i)[k] == '\n' <==> (k + 4 * i) % 65 == 64
    decreases |pkt|
  {
    hide Letter, Body, Group;
    var full := if i == 16 then 1 else 0;
    var next := if i == 16 then 1 else i + 1;
    var tail := if |pkt| > 3 then pkt[3..] else [];
    NotEmpty(pkt, i, k);
    BodyParts(pkt, i);
    if full <= k < full + 4 {
      GroupLetters(pkt, k - full);
      assert (k + 4 * i) % 65 == if i == 16 then k - 1 else k + 4 * i;
    } else if k >= full + 4 {
      LinesOf64(tail, next, k - full - 4);
      assert i == 16 ==> k + 4 * i == (k - full - 4 + 4 * next) + 65;
    }
  }

  lemma NotEmpty(pkt: seq<byte>, i: nat, k: nat)
    requires k < |Body(pkt, i)|
    ensures pkt != []
  {
  }

  lemma GroupLetters(pkt: seq<byte>, k: nat)
    requires pkt != [] && k < 4
    ensures Group(pkt)[k] != '\n'
  {
    forall x: nat | x < 64 ensures Letter(x) != '\n' {
      LetterDigit(x);
    }
  }

  function CrcText(v: nat): string
    requires v < 0x1000000
  {
    [Letter(v / 0x40000), Letter(v / 0x1000 % 64), Letter(v / 64 % 64), Letter(v % 64)]
  }

  /** The armored text of a packet, with the checksum v in its last line. */
  function ArmorWith(pkt: seq<byte>, v: nat, start: string, end: string, version: string): string
    requires v < 0x1000000
  {
    start + "\nVersion: " + version + "\n\n" + Body(pkt, 0) + "\n=" + CrcText(v) + "\n" + end + "\n"
  }

  function ArmorText(pkt: seq<byte>, start: string, end: string, version: string): string {
    ChecksumBound(pkt);
    ArmorWith(pkt, Checksum(pkt), start, end, version)
  }

  /** The lines of an armored packet; the checksum line writes the checksum as one number. */
  lemma ArmorLayout(pkt: seq<byte>, start: string, end: string, version: string) returns (crc: string)
    ensures |crc| == 4 && Written(crc) == Checksum(pkt)
    ensures ArmorText(pkt, start, end, version)
      == start + "\nVersion: " + version + "\n\n" + Body(pkt, 0) + "\n=" + crc + "\n" + end + "\n"
  {
    hide Letter, Digit, Body, Checksum;
    var v := Checksum(pkt);
    ChecksumBound(pkt);
    crc := CrcText(v);
    Digits(v);
    LetterDigit(v / 0x40000);
    LetterDigit(v / 0x1000 % 64);
    LetterDigit(v / 64 % 64);
    LetterDigit(v % 64);
  }

  // ----- reading -----

  /** `r64dec1`: four letters, skipping others; the value, the padding seen, and the rest. None: the text ended. */
  function Read64(t: string, i: nat, v: nat, eof: nat): (r: Option<(nat, nat, string)>)
    requires i < 4
    ensures r.Some? ==> |r.value.2| <= |t|
    ensures r.Some? && (i > 0 || r.value.1 < 3) ==> |r.value.2| < |t|
    ensures r.Some? ==> r.value.1 <= 3 || r.value.1 <= eof + if i == 0 then 3 else 4 - i
    decreases |t|
  {
    if t == "" then None
    else if t[0] == '=' && i == 0 then Some((0, 3, t))
    else if t[0] == '=' then
      if i == 3 then Some((v * 64, eof + 1, t[1..])) else Read64(t[1..], i + 1, v * 64, eof + 1)
    else if Digit(t[0]) < 0 then Read64(t[1..], i, v, eof)
    else if i == 3 then Some((v * 64 + Digit(t[0]), eof, t[1..]))
    else Read64(t[1..], i + 1, v * 64 + Digit(t[0]), eof)
  }

  function Bytes(v: nat): seq<byte> {
    [v / 0x10000 % 256, v / 256 % 256, v % 256]
  }

  /** Groups up to the first with padding. */
  function ReadBody(t: string): (r: Option<(seq<byte>, nat, string)>)
    ensures r.Some? ==> |r.value.0| >= 3 && 0 < r.value.1 <= 3
    decreases |t|
  {
    var g := Read64(t, 0, 0, 0);
    if g.None? then None
    else if g.value.1 != 0 then Some((Bytes(g.value.0), g.value.1, g.value.2))
    else
      var more := ReadBody(g.value.2);
      if more.None? then None else Some((Bytes(g.value.0) + more.value.0, more.value.1, more.value.2))
  }

  predicate IsBlank(c: char) { c == ' ' || c == '\t' }

  predicate IsSpace(c: char) { c == ' ' || c == '\t' || c == '\n' || c == '\r' }

  function Skip(t: string, p: char -> bool): (r: string)
    ensures |r| <= |t|
  {
    if t != "" && p(t[0]) then Skip(t[1..], p) else t
  }

  /** The text after the next newline. */
  function NextLine(t: string): (r: Option<string>)
    ensures r.Some? ==> |r.value| < |t|
  {
    if t == "" then None else if t[0] == '\n' then Some(t[1..]) else NextLine(t[1..])
  }

  /** The line that begins with `start`. */
  function FindStart(t: string, start: string): (r: Option<string>)
    ensures r.Some? ==> |r.value| <= |t|
    decreases |t|
  {
    if HasPrefix(t, start) then Some(t)
    else if NextLine(t).None? then None else FindStart(NextLine(t).value, start)
  }

  /** What follows the header lines and the blank line after them. */
  function SkipHeaders(t: string): (r: Option<string>)
    ensures r.Some? ==> |r.value| <= |t|
    decreases |t|
  {
    var s := Skip(t, IsBlank);
    if s != "" && s[0] == '\n' then Some(s[1..])
    else if NextLine(s).None? then None else SkipHeaders(NextLine(s).value)
  }

  /** Body, checksum line and end line read in turn. */
  function ReadPacket(b: string, end: string): Option<seq<byte>> {
    if '=' !in b then None
    else
      var d := ReadBody(b);
      if d.None? then None
      else
        var u, pkt := Skip(d.value.2, IsSpace), d.value.0[..|d.value.0| - d.value.1];
        if u == "" || u[0] != '=' then None
        else
          var c := Read64(u[1..], 0, 0, d.value.1);
          if c.None? || c.value.0 != Checksum(pkt) || !HasPrefix(Skip(c.value.2, IsSpace), end) then None else Some(pkt)
  }

  /** `unarmor`, without the text position it also returns. None: no armored packet, or a damaged one. */
  function Unarmor(t: string, start: string, end: string): Option<seq<byte>> {
    var s := FindStart(t, start);
    var l := if s.Some? then NextLine(s.value) else None;
    var b := if l.Some? then SkipHeaders(l.value) else None;
    if b.None? then None else ReadPacket(b.value, end)
  }

  // ----- what was written is read back -----

  /** How many '=' end the last group. */
  function Padding(n: nat): nat {
    if n % 3 == 0 then 0 else 3 - n % 3
  }

  function Zeros(n: nat): seq<byte> { if n == 0 then [] else [0] + Zeros(n - 1) }

  function Got(v: nat, eof: nat, rest: string): Option<(nat, nat, string)> { Some((v, eof, rest)) }

  lemma ReadLetter(x: nat, u: string, i: nat, v: nat, eof: nat)
    requires x < 64 && i < 4
    ensures Read64([Letter(x)] + u, i, v, eof)
         == if i == 3 then Got(v * 64 + x, eof, u) else Read64(u, i + 1, v * 64 + x, eof)
  {
    LetterDigit(x);
    assert ([Letter(x)] + u)[1..] == u;
  }

  lemma ReadPad(u: string, i: nat, v: nat, eof: nat)
    requires 0 < i < 4
    ensures Read64("=" + u, i, v, eof) == if i == 3 then Got(v * 64, eof + 1, u) else Read64(u, i + 1, v * 64, eof + 1)
  {
    assert ("=" + u)[1..] == u;
  }

  lemma ReadNewline(u: string, i: nat, v: nat, eof: nat)
    requires i < 4
    ensures Read64("\n" + u, i, v, eof) == Read64(u, i, v, eof)
  {
    assert ("\n" + u)[1..] == u;
  }

  lemma FourApart(a: char, b: char, c: char, d: char, u: string)
    ensures [a, b, c, d] + u == [a] + ([b] + ([c] + ([d] + u)))
  {
  }

  lemma ReadFour(a: nat, b: nat, c: nat, d: nat, eof: nat, u: string)
    requires a < 64 && b < 64 && c < 64 && d < 64
    ensures Read64([Letter(a), Letter(b), Letter(c), Letter(d)] + u, 0, 0, eof)
         == Got(a * 0x40000 + b * 0x1000 + c * 64 + d, eof, u)
  {
    hide Read64, Letter;
    FourApart(Letter(a), Letter(b), Letter(c), Letter(d), u);
    ReadLetter(a, [Letter(b)] + ([Letter(c)] + ([Letter(d)] + u)), 0, 0, eof);
    ReadLetter(b, [Letter(c)] + ([Letter(d)] + u), 1, a, eof);
    ReadLetter(c, [Letter(d)] + u, 2, a * 64 + b, eof);
    ReadLetter(d, u, 3, (a * 64 + b) * 64 + c, eof);
  }

  lemma ReadThree(a: nat, b: nat, c: nat, u: string)
    requires a < 64 && b < 64 && c < 64
    ensures Read64([Letter(a), Letter(b), Letter(c), '='] + u, 0, 0, 0) == Got(a * 0x40000 + b * 0x1000 + c * 64, 1, u)
  {
    hide Read64, Letter;
    FourApart(Letter(a), Letter(b), Letter(c), '=', u);
    ReadLetter(a, [Letter(b)] + ([Letter(c)] + ("=" + u)), 0, 0, 0);
    ReadLetter(b, [Letter(c)] + ("=" + u), 1, a, 0);
    ReadLetter(c, "=" + u, 2, a * 64 + b, 0);
    ReadPad(u, 3, (a * 64 + b) * 64 + c, 0);
  }

  lemma ReadTwo(a: nat, b: nat, u: string)
    requires a < 64 && b < 64
    ensures Read64([Letter(a), Letter(b), '=', '='] + u, 0, 0, 0) == Got(a * 0x40000 + b * 0x1000, 2, u)
  {
    hide Read64, Letter;
    FourApart(Letter(a), Letter(b), '=', '=', u);
    ReadLetter(a, [Letter(b)] + ("=" + ("=" + u)), 0, 0, 0);
    ReadLetter(b, "=" + ("=" + u), 1, a, 0);
    ReadPad("=" + u, 2, a * 64 + b, 0);
    ReadPad(u, 3, (a * 64 + b) * 64, 1);
  }

  /** The first three bytes, zeros for the missing ones. */
  function Triple(pkt: seq<byte>): seq<byte>
    requires pkt != []
  {
    [pkt[0], if |pkt| > 1 then pkt[1] else 0, if |pkt| > 2 then pkt[2] else 0]
  }

  lemma Sextets(a: nat, b: nat, c: nat)
    requires a < 256 && b < 256 && c < 256
    ensures a / 4 < 64 && a % 4 * 16 + b / 16 < 64 && b % 16 * 4 + c / 64 < 64
    ensures a / 4 * 0x40000 + (a % 4 * 16 + b / 16) * 0x1000 + (b % 16 * 4 + c / 64) * 64 + c % 64
      == a * 0x10000 + b * 256 + c
  {
  }

  lemma Bytewise(a: nat, b: nat, c: nat)
    requires a < 256 && b < 256 && c < 256
    ensures Bytes(a * 0x10000 + b * 256 + c) == [a, b, c]
  {
    var v := a * 0x10000 + b * 256 + c;
    assert v / 0x10000 == a && v / 256 == a * 256 + b && v % 256 == c;
  }

  lemma GroupRead(pkt: seq<byte>, u: string)
    requires pkt != []
    ensures var g := Read64(Group(pkt) + u, 0, 0, 0);
            g.Some? && Bytes(g.value.0) == Triple(pkt) && g.value.2 == u
            && g.value.1 == if |pkt| >= 3 then 0 else 3 - |pkt|
  {
    hide Read64, Letter, Bytes;
    var a, b, c := pkt[0], if |pkt| > 1 then pkt[1] else 0, if |pkt| > 2 then pkt[2] else 0;
    Sextets(a, b, c);
    Bytewise(a, b, c);
    if |pkt| >= 3 {
      ReadFour(a / 4, a % 4 * 16 + b / 16, b % 16 * 4 + c / 64, c % 64, 0, u);
    } else if |pkt| == 2 {
      ReadThree(a / 4, a % 4 * 16 + b / 16, b % 16 * 4 + c / 64, u);
    } else {
      ReadTwo(a / 4, a % 4 * 16 + b / 16, u);
    }
  }

  lemma BodyFrom(pkt: seq<byte>, i: nat, u: string)
    requires pkt != []
    ensures Read64(Body(pkt, i) + u, 0, 0, 0)
         == Read64(Group(pkt) + (Body(if |pkt| > 3 then pkt[3..] else [], if i == 16 then 1 else i + 1) + u), 0, 0, 0)
  {
    hide Read64, Group;
    var more := Body(if |pkt| > 3 then pkt[3..] else [], if i == 16 then 1 else i + 1);
    if i == 16 {
      assert Body(pkt, i) + u == "\n" + (Group(pkt) + (more + u));
      ReadNewline(Group(pkt) + (more + u), 0, 0, 0);
    } else {
      assert Body(pkt, i) + u == Group(pkt) + (more + u);
    }
  }

  /** The packet with its padding; without padding the checksum's '=' ends the reading, and three zeros are cut off. */
  lemma {:induction false} BodyRead(pkt: seq<byte>, i: nat, rest: string)
    ensures ReadBody(Body(pkt, i) + ("\n=" + rest))
         == if |pkt| % 3 == 0 then Some((pkt + [0, 0, 0], 3, "=" + rest))
            else Some((pkt + Zeros(Padding(|pkt|)), Padding(|pkt|), "\n=" + rest))
    decreases |pkt|
  {
    hide Read64, Group, Body, Zeros;
    var u := "\n=" + rest;
    if pkt == [] {
      EmptyRead(i, rest);
      assert pkt + [0, 0, 0] == [0, 0, 0];
    } else {
      BodyFrom(pkt, i, u);
      var more := Body(if |pkt| > 3 then pkt[3..] else [], if i == 16 then 1 else i + 1);
      GroupRead(pkt, more + u);
      if |pkt| >= 3 {
        var tail := if |pkt| > 3 then pkt[3..] else [];
        BodyRead(tail, if i == 16 then 1 else i + 1, rest);
        assert pkt == Triple(pkt) + tail;
        assert |tail| == |pkt| - 3;
        Cut(Triple(pkt), tail, [0, 0, 0]);
        Cut(Triple(pkt), tail, Zeros(Padding(|pkt|)));
      } else {
        LastBytes(pkt, if i == 16 then 1 else i + 1);
        assert more + u == u;
      }
    }
  }

  lemma Cut(a: seq<byte>, b: seq<byte>, c: seq<byte>)
    ensures a + (b + c) == (a + b) + c
  {
  }

  lemma LastBytes(pkt: seq<byte>, i: nat)
    requires 0 < |pkt| < 3
    ensures Triple(pkt) == pkt + Zeros(Padding(|pkt|)) && Padding(|pkt|) == 3 - |pkt|
    ensures Body([], i) == ""
  {
    assert Zeros(1) == [0] && Zeros(2) == [0] + Zeros(1);
  }

  lemma EmptyRead(i: nat, rest: string)
    ensures ReadBody(Body([], i) + ("\n=" + rest)) == Some(([0, 0, 0], 3, "=" + rest))
  {
    hide ReadBody;
    assert Body([], i) + ("\n=" + rest) == "\n" + ("=" + rest);
    ReadNewline("=" + rest, 0, 0, 0);
    assert Read64("=" + rest, 0, 0, 0) == Some((0, 3, "=" + rest));
    Bytewise(0, 0, 0);
    Stop("\n" + ("=" + rest));
  }

  lemma Stop(t: string)
    ensures var g := Read64(t, 0, 0, 0);
            g.Some? && g.value.1 != 0 ==> ReadBody(t) == Some((Bytes(g.value.0), g.value.1, g.value.2))
  {
    hide Read64;
  }

  lemma CrcRead(v: nat, eof: nat, u: string)
    requires v < 0x1000000
    ensures Read64(CrcText(v) + u, 0, 0, eof) == Some((v, eof, u))
  {
    hide Read64, Letter;
    ReadFour(v / 0x40000, v / 0x1000 % 64, v / 64 % 64, v % 64, eof, u);
    Digits(v);
  }

  lemma Digits(v: nat)
    requires v < 0x1000000
    ensures v / 0x40000 < 64
    ensures v / 0x40000 * 0x40000 + v / 0x1000 % 64 * 0x1000 + v / 64 % 64 * 64 + v % 64 == v
  {
    var x := v / 64;
    var y := x / 64;
    assert v / 0x1000 == y && v / 0x40000 == y / 64;
  }

  // ----- the lines around the packet -----

  predicate OneLine(s: string) { '\n' !in s }

  lemma {:induction false} LineEnds(s: string, u: string)
    requires OneLine(s)
    ensures NextLine(s + "\n" + u) == Some(u)
  {
    if s == "" {
      assert s + "\n" + u == "\n" + u;
      assert ("\n" + u)[1..] == u;
    } else {
      assert s + "\n" + u == [s[0]] + (s[1..] + "\n" + u);
      assert (s + "\n" + u)[1..] == s[1..] + "\n" + u;
      assert s[0] in s;
      LineEnds(s[1..], u);
    }
  }

  lemma HeadersSkipped(version: string, u: string)
    requires OneLine(version)
    ensures SkipHeaders("Version: " + version + "\n" + ("\n" + u)) == Some(u)
  {
    var line := "Version: " + version;
    var t := line + "\n" + ("\n" + u);
    assert t[0] == 'V';
    assert Skip(t, IsBlank) == t;
    LineEnds(line, "\n" + u);
    assert SkipHeaders("\n" + u) == Some(u) by { assert ("\n" + u)[1..] == u; }
  }

  /** Lines in front that do not begin like the start line are passed over. */
  lemma LineInFront(l: string, t: string, start: string, end: string)
    requires OneLine(l) && !HasPrefix(l + "\n" + t, start)
    ensures Unarmor(l + "\n" + t, start, end) == Unarmor(t, start, end)
  {
    hide NextLine, SkipHeaders, ReadPacket, HasPrefix;
    LineEnds(l, t);
  }

  lemma {:induction false} SkipBlanks(l: string, t: string)
    requires OneLine(l)
    ensures Skip(l + "\n" + t, IsBlank) == Skip(l, IsBlank) + "\n" + t && OneLine(Skip(l, IsBlank))
  {
    var s := l + "\n" + t;
    if l == "" {
      assert s == "\n" + t && Skip(l, IsBlank) + "\n" + t == "\n" + t;
    } else {
      assert s[0] == l[0] && s[1..] == l[1..] + "\n" + t;
      assert OneLine(l[1..]) && l[0] != '\n' by { assert l[0] in l; }
      if IsBlank(l[0]) { SkipBlanks(l[1..], t); }
    }
  }

  /** Header lines are skipped up to the first line of blanks. */
  lemma HeaderLine(l: string, t: string)
    requires OneLine(l)
    ensures (forall i :: 0 <= i < |l| ==> IsBlank(l[i])) ==> SkipHeaders(l + "\n" + t) == Some(t)
    ensures (exists i :: 0 <= i < |l| && !IsBlank(l[i])) ==> SkipHeaders(l + "\n" + t) == SkipHeaders(t)
  {
    hide NextLine, Skip;
    var r := Skip(l, IsBlank);
    SkipBlanks(l, t);
    LineEnds(r, t);
    AllSkipped(l, IsBlank);
    assert (r + "\n" + t)[0] == if r == "" then '\n' else r[0];
    if r == "" {
      assert (r + "\n" + t)[1..] == t;
    } else {
      assert r[0] in r;
    }
  }

  lemma {:induction false} AllSkipped(l: string, p: char -> bool)
    ensures Skip(l, p) == "" <==> forall i :: 0 <= i < |l| ==> p(l[i])
  {
    if l != "" && p(l[0]) { AllSkipped(l[1..], p); }
  }

  /** All that is in front of the packet. */
  lemma FrontRead(start: string, version: string, u: string)
    requires OneLine(start) && OneLine(version)
    ensures var t := start + "\n" + ("Version: " + version + "\n" + ("\n" + u));
            FindStart(t, start) == Some(t) && NextLine(t).Some? && SkipHeaders(NextLine(t).value) == Some(u)
  {
    hide NextLine, SkipHeaders;
    var v := "Version: " + version + "\n" + ("\n" + u);
    LineEnds(start, v);
    HeadersSkipped(version, u);
    assert (start + "\n" + v)[..|start|] == start;
  }

  /** White space in front of the end line is skipped, so an end line that begins with it is never found. */
  lemma EndFound(end: string)
    ensures HasPrefix(Skip("\n" + (end + "\n"), IsSpace), end) <==> end == "" || !IsSpace(end[0])
  {
    var t := end + "\n";
    assert ("\n" + t)[1..] == t;
    if end == "" {
    } else if IsSpace(end[0]) {
      SkipStops(t, IsSpace);
    } else {
      assert t[0] == end[0] && t[..|end|] == end;
    }
  }

  lemma {:induction false} SkipStops(t: string, p: char -> bool)
    ensures Skip(t, p) == "" || !p(Skip(t, p)[0])
  {
    if t != "" && p(t[0]) { SkipStops(t[1..], p); }
  }

  lemma EqualsSkipped(rest: string)
    ensures Skip("=" + rest, IsSpace) == "=" + rest && Skip("\n=" + rest, IsSpace) == "=" + rest
    ensures ("=" + rest)[1..] == rest
  {
    assert ("\n=" + rest)[1..] == "=" + rest;
  }

  lemma CutBack(pkt: seq<byte>, z: seq<byte>)
    ensures (pkt + z)[..|pkt + z| - |z|] == pkt
  {
  }

  lemma {:induction false} ZerosLength(n: nat)
    ensures |Zeros(n)| == n
  {
    if n > 0 { ZerosLength(n - 1); }
  }

  lemma PacketRead(pkt: seq<byte>, v: nat, end: string)
    requires v < 0x1000000
    ensures ReadPacket(Body(pkt, 0) + ("\n=" + (CrcText(v) + ("\n" + (end + "\n")))), end)
         == if v == Checksum(pkt) && (end == "" || !IsSpace(end[0])) then Some(pkt) else None
  {
    hide ReadBody, Body, Skip, Read64, CrcText, HasPrefix, Checksum, Zeros, IsSpace;
    var last := "\n" + (end + "\n");
    var rest := CrcText(v) + last;
    var b := Body(pkt, 0) + ("\n=" + rest);
    assert '=' in b by { assert b[|Body(pkt, 0)| + 1] == '='; }
    BodyRead(pkt, 0, rest);
    EqualsSkipped(rest);
    ZerosLength(Padding(|pkt|));
    CutBack(pkt, [0, 0, 0]);
    CutBack(pkt, Zeros(Padding(|pkt|)));
    CrcRead(v, 3, last);
    CrcRead(v, Padding(|pkt|), last);
    EndFound(end);
  }

  lemma SameText(pkt: seq<byte>, v: nat, start: string, end: string, version: string)
    requires v < 0x1000000
    ensures ArmorWith(pkt, v, start, end, version)
         == start + "\n"
           + ("Version: " + version + "\n" + ("\n" + (Body(pkt, 0) + ("\n=" + (CrcText(v) + ("\n" + (end + "\n")))))))
  {
    hide Body, CrcText;
  }

  /** Every packet is read back exactly when its own checksum is with it and the end line can be found. */
  lemma Rearmed(pkt: seq<byte>, v: nat, start: string, end: string, version: string)
    requires v < 0x1000000 && OneLine(start) && OneLine(version)
    ensures Unarmor(ArmorWith(pkt, v, start, end, version), start, end)
         == if v == Checksum(pkt) && (end == "" || !IsSpace(end[0])) then Some(pkt) else None
  {
    hide ArmorWith, Body, CrcText, ReadPacket, IsSpace, Checksum, FindStart, NextLine, SkipHeaders;
    var b := Body(pkt, 0) + ("\n=" + (CrcText(v) + ("\n" + (end + "\n"))));
    SameText(pkt, v, start, end, version);
    FrontRead(start, version, b);
    PacketRead(pkt, v, end);
  }

  /** `unarmor` undoes `armor`, unless the end line begins with white space: then nothing is ever read back. */
  lemma RoundTrip(pkt: seq<byte>, start: string, end: string, version: string)
    requires OneLine(start) && OneLine(version)
    ensures Unarmor(ArmorText(pkt, start, end, version), start, end) == Some(pkt) <==> end == "" || !IsSpace(end[0])
  {
    hide ArmorWith, Unarmor, Checksum, IsSpace;
    ChecksumBound(pkt);
    Rearmed(pkt, Checksum(pkt), start, end, version);
  }

  /** A packet with one byte damaged is refused: the text carries the checksum of the original. */
  lemma DamageRefused(pkt: seq<byte>, i: nat, x: byte, start: string, end: string, version: string)
    requires i < |pkt| && pkt[i] != x && OneLine(start) && OneLine(version)
    requires Checksum(pkt) < 0x1000000
    ensures Unarmor(ArmorWith(pkt[i := x], Checksum(pkt), start, end, version), start, end) == None
  {
    hide ArmorWith, Unarmor, Checksum, IsSpace;
    OneByteDetected(pkt, i, x);
    Rearmed(pkt[i := x], Checksum(pkt), start, end, version);
  }
}
