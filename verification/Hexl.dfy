/** hexl: binary data as lines of hexadecimal text, and back. */
module Hexl {

  type Byte = b: int | 0 <= b < 256

  const EOF := -1
  const SPACE: Byte := 0x20
  const NEWLINE: Byte := 0x0a
  const DOT: Byte := 0x2e

  /** (i & groupBy) == groupBy: byte `i` of a line ends a group.  groupBy is 0, 1, 3 or 7, one less
      than a power of two, so masking is taking the remainder. */
  predicate EndsGroup(i: nat, g: nat) {
    i % (g + 1) == g
  }

  // ---- digits ----

  function Digit(n: nat): Byte
    requires n < 16
  {
    if n < 10 then '0' as int + n else 'a' as int + n - 10
  }

  /** hexchar, of any character and of EOF. */
  function HexChar(c: int): int {
    if '0' as int <= c <= '9' as int then c - '0' as int else c - 'a' as int + 10
  }

  /** %02x */
  function Pair(b: Byte): seq<Byte> {
    [Digit(b / 16), Digit(b % 16)]
  }

  /** The last `n` hexadecimal digits of `a`: %0nx of a word of n digits. */
  function Digits(a: nat, n: nat): (s: seq<Byte>)
    ensures |s| == n
  {
    if n == 0 then [] else Digits(a / 16, n - 1) + [Digit(a % 16)]
  }

  /** %08x: , which prints a long address as a 32-bit one. */
  function Address(a: nat): (s: seq<Byte>)
    ensures |s| == 10
  {
    Digits(a, 8) + [':' as int, SPACE]
  }

  /** The character shown for a byte. */
  function Shown(b: Byte, iso: bool): Byte {
    if iso then (if b < 0x20 || (b >= 0x7f && b < 0xa0) then DOT else b)
    else (if b < 0x20 || b >= 0x7f then DOT else b)
  }

  // ---- the text of some data ----

  function Gap(i: nat, g: nat): seq<Byte> {
    if EndsGroup(i, g) then [SPACE] else []
  }

  /** Columns `i` to 15 of the hexadecimal part of a line. */
  ghost function Columns(line: seq<Byte>, i: nat, g: nat): seq<Byte>
    requires i <= 16
    decreases 16 - i
  {
    if i == 16 then []
    else (if i < |line| then Pair(line[i]) else [SPACE, SPACE]) + Gap(i, g) + Columns(line, i + 1, g)
  }

  ghost function ShownAll(line: seq<Byte>, iso: bool): (s: seq<Byte>)
    ensures |s| == |line|
  {
    if line == [] then [] else [Shown(line[0], iso)] + ShownAll(line[1..], iso)
  }

  ghost function Line(a: nat, line: seq<Byte>, g: nat, iso: bool): seq<Byte> {
    Address(a) + (Columns(line, 0, g) + ([SPACE] + ShownAll(line, iso) + [NEWLINE]))
  }

  function Chop(s: seq<Byte>, n: nat): seq<Byte> {
    if |s| <= n then [] else s[n..]
  }

  function First(s: seq<Byte>, n: nat): seq<Byte> {
    if |s| <= n then s else s[..n]
  }

  ghost function Text(data: seq<Byte>, a: nat, g: nat, iso: bool): seq<Byte>
    decreases |data|
  {
    if data == [] then [] else Line(a, First(data, 16), g, iso) + Text(Chop(data, 16), a + 16, g, iso)
  }

  // ---- the data of some text ----

  /** Reading the hexadecimal part of a line from column `i` on: the bytes, the last character or byte
      value seen, the column where it stopped, and the text not read. */
  datatype Scan = Scan(out: seq<Byte>, c: int, i: nat, rest: seq<Byte>)

  ghost function Columned(s: seq<Byte>, i: nat, c: int, g: nat): (r: Scan)
    requires i <= 16
    ensures r.i <= 16 && |r.rest| <= |s|
    ensures (i < 16 && s == [] ==> r.c == EOF && r.i == i) && (i < 16 && s != [] ==> |r.rest| < |s|)
    decreases 16 - i
  {
    if i == 16 then Scan([], c, 16, s)
    else if s == [] then Scan([], EOF, i, [])
    else if s[0] == SPACE then Scan([], SPACE, i, s[1..])
    else
      var v := HexChar(s[0]) * 0x10 + HexChar(if |s| > 1 then s[1] else EOF);
      var r := Columned(Chop(s, if EndsGroup(i, g) then 3 else 2), i + 1, v, g);
      Scan([v % 256] + r.out, r.c, r.i, r.rest)
  }

  /** What follows the first newline; None if there is none. */
  datatype Skipped = None | Some(rest: seq<Byte>)

  ghost function AfterNewline(s: seq<Byte>): (r: Skipped)
    ensures r.Some? ==> |r.rest| < |s|
  {
    if s == [] then None else if s[0] == NEWLINE then Some(s[1..]) else AfterNewline(s[1..])
  }

  ghost function Data(s: seq<Byte>, g: nat): seq<Byte>
    decreases |s|
  {
    var r := Columned(Chop(s, 10), 0, 0, g);
    if r.c == SPACE then
      var k := AfterNewline(r.rest);
      if k.None? then r.out else r.out + Data(k.rest, g)
    else if r.i < 16 then r.out
    else r.out + Data(Chop(r.rest, 18), g)
  }

  // ---- the round trip ----

  ghost predicate NoNewline(s: seq<Byte>) {
    forall i :: 0 <= i < |s| ==> s[i] != NEWLINE
  }

  lemma HexDigit(n: nat)
    requires n < 16
    ensures HexChar(Digit(n)) == n && Digit(n) != SPACE && Digit(n) != NEWLINE
  {
  }

  /** Columns past the data are blank. */
  lemma {:induction false} BlankColumns(line: seq<Byte>, i: nat, g: nat)
    requires |line| <= i <= 16
    ensures NoNewline(Columns(line, i, g))
    decreases 16 - i
  {
    if i < 16 {
      BlankColumns(line, i + 1, g);
    }
  }

  lemma {:induction false} ShownNoNewline(line: seq<Byte>, iso: bool)
    ensures NoNewline(ShownAll(line, iso))
  {
    if line != [] {
      ShownNoNewline(line[1..], iso);
    }
  }

  lemma ChopAt(s: seq<Byte>, rest: seq<Byte>)
    ensures Chop(s + rest, |s|) == rest
  {
    assert (s + rest)[|s|..] == rest;
  }

  /** One pair of digits and what separates it from the next, read back. */
  lemma ReadPair(b: Byte, rest: seq<Byte>, i: nat, c: int, g: nat)
    requires i < 16
    ensures var r := Columned(rest, i + 1, b, g);
            Columned(Pair(b) + Gap(i, g) + rest, i, c, g) == Scan([b] + r.out, r.c, r.i, r.rest)
  {
    HexDigit(b / 16);
    HexDigit(b % 16);
    var s := Pair(b) + Gap(i, g) + rest;
    assert s[0] == Digit(b / 16) && s[1] == Digit(b % 16);
    assert HexChar(s[0]) * 0x10 + HexChar(s[1]) == b;
    ChopAt(Pair(b) + Gap(i, g), rest);
  }

  /** The columns of a full line, read back. */
  lemma {:induction false} FullColumns(line: seq<Byte>, i: nat, c: int, g: nat, tail: seq<Byte>)
    requires |line| == 16 && i <= 16
    ensures Columned(Columns(line, i, g) + tail, i, c, g) == Scan(line[i..], if i == 16 then c else line[15], 16, tail)
    decreases 16 - i
  {
    hide Columned;
    var s := Columns(line, i, g) + tail;
    if i == 16 {
      assert s == tail;
      ColumnStop(s, i, c, g);
      assert line[i..] == [];
    } else {
      var rest := Columns(line, i + 1, g) + tail;
      assert s == Pair(line[i]) + Gap(i, g) + rest;
      ReadPair(line[i], rest, i, c, g);
      FullColumns(line, i + 1, line[i], g, tail);
      assert line[i..] == [line[i]] + line[i + 1..];
    }
  }

  /** A short line from its first blank column on. */
  lemma BlankStop(line: seq<Byte>, c: int, g: nat, tail: seq<Byte>)
    requires |line| < 16
    ensures var blanks := Columns(line, |line|, g);
            && |blanks| > 0 && NoNewline(blanks[1..])
            && Columned(blanks + tail, |line|, c, g) == Scan([], SPACE, |line|, blanks[1..] + tail)
  {
    var blanks := Columns(line, |line|, g);
    BlankColumns(line, |line|, g);
    assert (blanks + tail)[1..] == blanks[1..] + tail;
  }

  lemma ColumnsStep(line: seq<Byte>, i: nat, g: nat, tail: seq<Byte>)
    requires i < |line| <= 16
    ensures Columns(line, i, g) + tail == Pair(line[i]) + Gap(i, g) + (Columns(line, i + 1, g) + tail)
  {
    hide Pair, Gap;
  }

  /** The columns of a short line, read back: they stop at the first blank. */
  lemma {:induction false} ShortColumns(line: seq<Byte>, i: nat, c: int, g: nat, tail: seq<Byte>)
    requires i <= |line| < 16
    ensures |Columns(line, |line|, g)| > 0 && NoNewline(Columns(line, |line|, g)[1..])
    ensures Columned(Columns(line, i, g) + tail, i, c, g) ==
            Scan(line[i..], SPACE, |line|, Columns(line, |line|, g)[1..] + tail)
    decreases 16 - i
  {
    hide *;
    if i == |line| {
      BlankStop(line, c, g, tail);
      assert line[i..] == [];
    } else {
      ColumnsStep(line, i, g, tail);
      ReadPair(line[i], Columns(line, i + 1, g) + tail, i, c, g);
      ShortColumns(line, i + 1, line[i], g, tail);
      assert line[i..] == [line[i]] + line[i + 1..];
    }
  }

  lemma {:induction false} SkipsTo(s: seq<Byte>, tail: seq<Byte>)
    requires NoNewline(s)
    ensures AfterNewline(s + [NEWLINE] + tail) == Some(tail)
  {
    var t := s + [NEWLINE] + tail;
    if s == [] {
      assert t[1..] == tail;
    } else {
      assert t[1..] == s[1..] + [NEWLINE] + tail;
      SkipsTo(s[1..], tail);
    }
  }

  ghost function Rest(line: seq<Byte>, iso: bool, tail: seq<Byte>): seq<Byte> {
    [SPACE] + ShownAll(line, iso) + [NEWLINE] + tail
  }

  /** A full line whose last byte is a blank is skipped to its end like a short one; that is the same
      place. */
  lemma FullBack(s: seq<Byte>, line: seq<Byte>, g: nat, iso: bool, tail: seq<Byte>)
    requires |line| == 16 && Chop(s, 10) == Columns(line, 0, g) + Rest(line, iso, tail)
    ensures Data(s, g) == line + Data(tail, g)
  {
    hide Columns, Columned, AfterNewline, ShownAll;
    FullColumns(line, 0, 0, g, Rest(line, iso, tail));
    assert line[0..] == line;
    if line[15] == SPACE {
      ShownNoNewline(line, iso);
      SkipsTo([SPACE] + ShownAll(line, iso), tail);
    } else {
      ChopAt([SPACE] + ShownAll(line, iso) + [NEWLINE], tail);
    }
  }

  lemma ShortBack(s: seq<Byte>, line: seq<Byte>, g: nat, iso: bool, tail: seq<Byte>)
    requires |line| < 16 && Chop(s, 10) == Columns(line, 0, g) + Rest(line, iso, tail)
    ensures Data(s, g) == line + Data(tail, g)
  {
    hide Columns, Columned, AfterNewline, ShownAll;
    var after := Rest(line, iso, tail);
    ShortColumns(line, 0, 0, g, after);
    assert line[0..] == line;
    var r := Columned(Columns(line, 0, g) + after, 0, 0, g);
    var blank := Columns(line, |line|, g)[1..];
    var shown := blank + [SPACE] + ShownAll(line, iso);
    ShownNoNewline(line, iso);
    assert r.rest == shown + [NEWLINE] + tail;
    SkipsTo(shown, tail);
  }

  /** One line, read back, whatever follows it. */
  lemma LineBack(a: nat, line: seq<Byte>, g: nat, iso: bool, tail: seq<Byte>)
    requires 0 < |line| <= 16
    ensures Data(Line(a, line, g, iso) + tail, g) == line + Data(tail, g)
  {
    hide Columns, Columned, Data, ShownAll, Address;
    var s := Line(a, line, g, iso) + tail;
    var text := Columns(line, 0, g) + Rest(line, iso, tail);
    assert s == Address(a) + text;
    ChopAt(Address(a), text);
    if |line| == 16 {
      FullBack(s, line, g, iso, tail);
    } else {
      ShortBack(s, line, g, iso, tail);
    }
  }

  lemma NoData(g: nat)
    ensures Data([], g) == []
  {
  }

  /** Decoding gives back any data from its text, whatever the addresses, the grouping (the same on both
      sides) and the iso flag. */
  lemma {:induction false} RoundTrip(data: seq<Byte>, a: nat, g: nat, iso: bool)
    ensures Data(Text(data, a, g, iso), g) == data
    decreases |data|
  {
    hide Data, Line;
    if data == [] {
      NoData(g);
    } else {
      var line, rest := First(data, 16), Chop(data, 16);
      LineBack(a, line, g, iso, Text(rest, a + 16, g, iso));
      RoundTrip(rest, a + 16, g, iso);
      assert line + rest == data;
    }
  }

  // ---- what is printed, column by column ----

  const HEX := "0123456789abcdef"

  function Power16(n: nat): (r: nat)
    ensures r > 0
  {
    if n == 0 then 1 else 16 * Power16(n - 1)
  }

  /** Where column `i` starts in the hexadecimal part: each byte takes two places, each complete group before it one. */
  function At(i: nat, g: nat): nat {
    2 * i + i / (g + 1)
  }

  predicate Printable(b: Byte, iso: bool) {
    0x20 <= b < 0x7f || (iso && 0xa0 <= b)
  }

  /** The digits of `a`, of which there are eight. */
  ghost predicate ShowsAddress(s: seq<Byte>, a: nat) {
    && |s| >= 10 && s[8] == ':' as int && s[9] == ' ' as int
    && forall j :: 0 <= j < 8 ==> s[j] == HEX[a / Power16(7 - j) % 16] as int
  }

  /** Column `k`, at `p`: the byte in hexadecimal, or blanks if there is none; and a blank where a group ends. */
  ghost predicate ShowsColumn(s: seq<Byte>, p: nat, line: seq<Byte>, k: nat, g: nat) {
    && p + 1 < |s|
    && (k < |line| ==> s[p] == HEX[line[k] / 16] as int && s[p + 1] == HEX[line[k] % 16] as int)
    && (k >= |line| ==> s[p] == s[p + 1] == ' ' as int)
    && ((k + 1) % (g + 1) == 0 ==> p + 2 < |s| && s[p + 2] == ' ' as int)
  }

  /** A line as printed: the address, 16 columns, a blank, the bytes as characters, a newline. */
  ghost predicate ShowsLine(s: seq<Byte>, a: nat, line: seq<Byte>, g: nat, iso: bool) {
    var w := 10 + At(16, g);
    && |s| == w + |line| + 2
    && ShowsAddress(s, a)
    && (forall k: nat :: k < 16 ==> ShowsColumn(s, 10 + At(k, g), line, k, g))
    && s[w] == ' ' as int && s[w + 1 + |line|] == '\n' as int
    && forall k :: 0 <= k < |line| ==> s[w + 1 + k] == if Printable(line[k], iso) then line[k] else '.' as int
  }

  lemma AtNext(i: nat, g: nat)
    ensures At(i + 1, g) == At(i, g) + 2 + if EndsGroup(i, g) then 1 else 0
    ensures EndsGroup(i, g) <==> (i + 1) % (g + 1) == 0
  {
    var d, q, r := g + 1, i / (g + 1), i % (g + 1);
    assert i == d * q + r;
    if r == g {
      Quotient(i + 1, d, q + 1, 0);
    } else {
      Quotient(i + 1, d, q, r + 1);
    }
  }

  lemma Quotient(n: nat, d: nat, q: nat, r: nat)
    requires n == d * q + r && r < d
    ensures n / d == q && n % d == r
  {
    var k := n / d;
    if k < q {
      Times(d, k + 1, q);
    } else if k > q {
      Times(d, q + 1, k);
    }
  }

  lemma Times(d: nat, m: nat, n: nat)
    requires m <= n
    ensures d * m <= d * n
  {
  }

  lemma HexIs(n: nat)
    requires n < 16
    ensures Digit(n) == HEX[n] as int
  {
  }

  lemma {:induction false} DigitsShow(a: nat, n: nat, j: nat)
    requires j < n
    ensures Digits(a, n)[j] == HEX[a / Power16(n - 1 - j) % 16] as int
    decreases n
  {
    hide Power16;
    DigitsEnd(a, n);
    if j < n - 1 {
      var k: nat := n - 2 - j;
      DigitsShow(a / 16, n - 1, j);
      PowerNext(k);
      DivTwice(a, Power16(k));
    } else {
      PowerNext(0);
      HexIs(a % 16);
    }
  }

  lemma DigitsEnd(a: nat, n: nat)
    requires n > 0
    ensures Digits(a, n) == Digits(a / 16, n - 1) + [Digit(a % 16)]
  {
  }

  lemma PowerNext(k: nat)
    ensures Power16(k + 1) == 16 * Power16(k) && Power16(0) == 1
  {
  }

  lemma DivTwice(a: nat, p: nat)
    requires p > 0
    ensures a / 16 / p == a / (16 * p)
  {
    var u, v := a / 16, a % 16;
    var q, r := u / p, u % p;
    assert a == 16 * (p * q + r) + v;
    Regroup(p, q);
    Quotient(a, 16 * p, q, 16 * r + v);
  }

  lemma Regroup(p: nat, q: nat)
    ensures 16 * (p * q) == 16 * p * q
  {
  }

  lemma ColumnShift(pre: seq<Byte>, s: seq<Byte>, p: nat, q: nat, more: seq<Byte>, line: seq<Byte>, k: nat, g: nat)
    requires ShowsColumn(s, p, line, k, g) && q == |pre| + p
    ensures ShowsColumn(pre + s + more, q, line, k, g)
  {
    forall j | 0 <= j < |s| ensures (pre + s + more)[|pre| + j] == s[j] {}
  }

  lemma FirstColumn(line: seq<Byte>, k: nat, g: nat)
    requires k < 16
    ensures ShowsColumn(Columns(line, k, g), 0, line, k, g)
  {
    AtNext(k, g);
    if k < |line| {
      HexIs(line[k] / 16);
      HexIs(line[k] % 16);
    }
  }

  lemma {:induction false} ColumnsLength(line: seq<Byte>, i: nat, g: nat)
    requires i <= 16
    ensures |Columns(line, i, g)| + At(i, g) == At(16, g)
    decreases 16 - i
  {
    hide At;
    if i < 16 {
      AtNext(i, g);
      ColumnsLength(line, i + 1, g);
    }
  }

  lemma {:induction false} ColumnsShow(line: seq<Byte>, i: nat, g: nat, k: nat, p: nat)
    requires i <= k < 16 && At(i, g) + p == At(k, g)
    ensures ShowsColumn(Columns(line, i, g), p, line, k, g)
    decreases 16 - i
  {
    hide At, ShowsColumn, EndsGroup, Pair;
    if i == k {
      FirstColumn(line, k, g);
    } else {
      var pre := (if i < |line| then Pair(line[i]) else [SPACE, SPACE]) + Gap(i, g);
      AtNext(i, g);
      AtGrows(i + 1, k, g);
      PairLength(line, i);
      ColumnsShow(line, i + 1, g, k, p - |pre|);
      ColumnShift(pre, Columns(line, i + 1, g), p - |pre|, p, [], line, k, g);
      assert pre + Columns(line, i + 1, g) + [] == Columns(line, i, g);
    }
  }

  lemma PairLength(line: seq<Byte>, i: nat)
    ensures i < |line| ==> |Pair(line[i])| == 2
  {
  }

  lemma {:induction false} AtGrows(i: nat, k: nat, g: nat)
    requires i <= k
    ensures At(i, g) <= At(k, g)
    decreases k - i
  {
    hide At;
    if i < k {
      AtNext(i, g);
      AtGrows(i + 1, k, g);
    }
  }

  lemma AtZero(g: nat)
    ensures At(0, g) == 0
  {
  }

  lemma AddressShows(a: nat)
    ensures ShowsAddress(Address(a), a)
  {
    hide Power16;
    forall j | 0 <= j < 8 ensures Address(a)[j] == HEX[a / Power16(7 - j) % 16] as int {
      DigitsShow(a, 8, j);
    }
  }

  lemma {:induction false} ShownAt(line: seq<Byte>, iso: bool, i: nat)
    requires i < |line|
    ensures ShownAll(line, iso)[i] == Shown(line[i], iso)
  {
    if i > 0 {
      ShownAt(line[1..], iso, i - 1);
    }
  }

  lemma ShownIs(b: Byte, iso: bool)
    ensures Shown(b, iso) == if Printable(b, iso) then b else '.' as int
  {
  }

  /** One line as it is printed. */
  lemma LineShows(a: nat, line: seq<Byte>, g: nat, iso: bool)
    requires |line| <= 16
    ensures ShowsLine(Line(a, line, g, iso), a, line, g, iso)
  {
    hide Address, Columns, ShownAll, ShowsColumn, Power16, At, Shown, Printable;
    var pre, cols := Address(a), Columns(line, 0, g);
    var more := [SPACE] + ShownAll(line, iso) + [NEWLINE];
    var s := Line(a, line, g, iso);
    AddressShows(a);
    ColumnsLength(line, 0, g);
    AtZero(g);
    assert s == pre + cols + more;
    forall j | 0 <= j < 10 ensures s[j] == pre[j] {}
    forall k: nat | k < 16 ensures ShowsColumn(s, 10 + At(k, g), line, k, g) {
      ColumnsShow(line, 0, g, k, At(k, g));
      ColumnShift(pre, cols, At(k, g), 10 + At(k, g), more, line, k, g);
    }
    var w := 10 + At(16, g);
    forall j | 0 <= j < |more| ensures s[w + j] == more[j] {}
    forall k | 0 <= k < |line|
      ensures s[w + 1 + k] == if Printable(line[k], iso) then line[k] else '.' as int
    {
      ShownAt(line, iso, k);
      ShownIs(line[k], iso);
      assert more[1 + k] == ShownAll(line, iso)[k];
    }
  }

  /** Line `n` of the text, at its place: the bytes from 16 * n on, at their address. */
  ghost predicate ShowsNth(text: seq<Byte>, data: seq<Byte>, n: nat, a: nat, g: nat, iso: bool)
    requires 16 * n < |data|
  {
    var line := data[16 * n..if |data| < 16 * n + 16 then |data| else 16 * n + 16];
    var start := n * (At(16, g) + 28);
    var end := start + At(16, g) + 12 + |line|;
    end <= |text| && ShowsLine(text[start..end], a + 16 * n, line, g, iso)
  }

  /** Every line shows what it should, and there is nothing else. */
  ghost predicate ShowsData(text: seq<Byte>, data: seq<Byte>, a: nat, g: nat, iso: bool) {
    && (forall n: nat :: 16 * n < |data| ==> ShowsNth(text, data, n, a, g, iso))
    && |text| == |data| + (|data| + 15) / 16 * (At(16, g) + 12)
  }

  lemma {:induction false} TextLength(data: seq<Byte>, a: nat, g: nat, iso: bool)
    ensures |Text(data, a, g, iso)| == |data| + (|data| + 15) / 16 * (At(16, g) + 12)
    decreases |data|
  {
    hide At, ShowsAddress, ShowsColumn, Line;
    if data != [] {
      LineShows(a, First(data, 16), g, iso);
      TextLength(Chop(data, 16), a + 16, g, iso);
      assert (|data| + 15) / 16 == (|Chop(data, 16)| + 15) / 16 + 1;
    }
  }

  lemma LaterLine(text: seq<Byte>, more: seq<Byte>, data: seq<Byte>, n: nat, a: nat, g: nat, iso: bool)
    requires n > 0 && 16 * n < |data| && |text| == At(16, g) + 28
    requires ShowsNth(more, data[16..], n - 1, a + 16, g, iso)
    ensures ShowsNth(text + more, data, n, a, g, iso)
  {
    hide At, ShowsLine;
    var m := n - 1;
    var w := At(16, g) + 28;
    var line := data[16 * n..if |data| < 16 * n + 16 then |data| else 16 * n + 16];
    assert line == data[16..][16 * m..if |data| - 16 < 16 * m + 16 then |data| - 16 else 16 * m + 16];
    assert n * w == w + m * w;
    var start, len := m * w, At(16, g) + 12 + |line|;
    assert (text + more)[n * w..n * w + len] == more[start..start + len];
  }

  lemma {:induction false} TextShows(data: seq<Byte>, n: nat, a: nat, g: nat, iso: bool)
    requires 16 * n < |data|
    ensures ShowsNth(Text(data, a, g, iso), data, n, a, g, iso)
    decreases n
  {
    hide At, ShowsAddress, ShowsColumn, Line;
    var line, more := First(data, 16), Text(Chop(data, 16), a + 16, g, iso);
    var text := Line(a, line, g, iso);
    LineShows(a, line, g, iso);
    if n == 0 {
      assert (text + more)[0..|text|] == text;
      assert data[0..if |data| < 16 then |data| else 16] == line && 0 * (At(16, g) + 28) == 0;
    } else {
      TextShows(data[16..], n - 1, a + 16, g, iso);
      LaterLine(text, more, data, n, a, g, iso);
    }
  }

  /** What the text of any data shows. */
  lemma AllShown(data: seq<Byte>, a: nat, g: nat, iso: bool)
    ensures ShowsData(Text(data, a, g, iso), data, a, g, iso)
  {
    hide Text, ShowsNth;
    TextLength(data, a, g, iso);
    forall n: nat | 16 * n < |data| ensures ShowsNth(Text(data, a, g, iso), data, n, a, g, iso) {
      TextShows(data, n, a, g, iso);
    }
  }

  // ---- the program ----

  /** A file being read. */
  class Reader {
    const data: seq<Byte>
    var pos: nat

    constructor (data: seq<Byte>)
      ensures this.data == data && pos == 0
    {
      this.data, pos := data, 0;
    }

    ghost predicate Valid()
      reads this
    {
      pos <= |data|
    }

    ghost function Left(): seq<Byte>
      requires Valid()
      reads this
    {
      data[pos..]
    }

    method Getc() returns (c: int)
      requires Valid()
      modifies this
      ensures Valid()
      ensures c == if old(Left()) == [] then EOF else old(Left())[0]
      ensures Left() == Chop(old(Left()), 1)
    {
      if pos == |data| {
        return EOF;
      }
      c := data[pos];
      pos := pos + 1;
    }

    /** fread into a buffer that is not looked at. */
    method Skip(n: nat)
      requires Valid()
      modifies this
      ensures Valid() && Left() == Chop(old(Left()), n)
    {
      pos := if |data| - pos <= n then |data| else pos + n;
    }
  }

  lemma ChopTwice(s: seq<Byte>, m: nat, n: nat)
    ensures Chop(Chop(s, m), n) == Chop(s, m + n)
  {
  }

  ghost predicate Stops(s: seq<Byte>, i: nat) {
    i == 16 || s == [] || s[0] == SPACE
  }

  lemma ColumnStop(s: seq<Byte>, i: nat, c: int, g: nat)
    requires i <= 16 && Stops(s, i)
    ensures Columned(s, i, c, g) ==
            if i == 16 then Scan([], c, 16, s) else Scan([], if s == [] then EOF else SPACE, i, Chop(s, 1))
  {
  }

  lemma ColumnStep(s: seq<Byte>, i: nat, c: int, g: nat)
    requires i <= 16 && !Stops(s, i)
    ensures var v := HexChar(s[0]) * 0x10 + HexChar(if |s| > 1 then s[1] else EOF);
            var r := Columned(Chop(s, if EndsGroup(i, g) then 3 else 2), i + 1, v, g);
            Columned(s, i, c, g) == Scan([v % 256] + r.out, r.c, r.i, r.rest)
  {
  }

  /** What a line comes to, when `out` has been read from it and the rest reads as `r`. */
  ghost function Add(out: seq<Byte>, r: Scan): Scan {
    Scan(out + r.out, r.c, r.i, r.rest)
  }

  lemma AddOne(out: seq<Byte>, b: Byte, r: Scan)
    ensures Add(out, Scan([b] + r.out, r.c, r.i, r.rest)) == Add(out + [b], r)
  {
    assert out + ([b] + r.out) == out + [b] + r.out;
  }

  /** hexl -un: the inner loop, one line. */
  method DecodeLine(fp: Reader, g: nat) returns (out: seq<Byte>, c: int, i: nat)
    requires fp.Valid()
    modifies fp
    ensures fp.Valid() && Columned(old(fp.Left()), 0, 0, g) == Scan(out, c, i, fp.Left())
  {
    hide Columned;
    out, c, i := [], 0, 0;
    ghost var whole := Columned(fp.Left(), 0, 0, g);
    while i < 16
      invariant i <= 16 && fp.Valid()
      invariant whole == Add(out, Columned(fp.Left(), i, c, g))
    {
      ghost var s, before := fp.Left(), c;
      c := fp.Getc();
      if c == SPACE || c == EOF {
        ColumnStop(s, i, before, g);
        return;
      }
      ColumnStep(s, i, before, g);
      var d := fp.Getc();
      c := HexChar(c) * 0x10 + HexChar(d);
      ChopTwice(s, 1, 1);
      if EndsGroup(i, g) {
        var _ := fp.Getc();
        ChopTwice(s, 2, 1);
      }
      AddOne(out, c % 256, Columned(fp.Left(), i + 1, c, g));
      out := out + [c % 256];
      i := i + 1;
    }
    ColumnStop(fp.Left(), i, c, g);
  }

  lemma DataOf(s: seq<Byte>, g: nat)
    ensures var r := Columned(Chop(s, 10), 0, 0, g);
            var k := AfterNewline(r.rest);
            Data(s, g) ==
              if r.c == SPACE then (if k.None? then r.out else r.out + Data(k.rest, g))
              else if r.i < 16 then r.out
              else r.out + Data(Chop(r.rest, 18), g)
  {
  }

  lemma Joined(out: seq<Byte>, bytes: seq<Byte>, more: seq<Byte>)
    ensures out + (bytes + more) == (out + bytes) + more
  {
  }

  /** hexl -un. */
  method Decode(input: seq<Byte>, g: nat) returns (out: seq<Byte>)
    ensures out == Data(input, g)
  {
    hide Columned, AfterNewline, Data;
    var fp := new Reader(input);
    out := [];
    assert [] + Data(input, g) == Data(input, g);
    while true
      invariant fp.Valid() && out + Data(fp.Left(), g) == Data(input, g)
      decreases |fp.Left()|
    {
      ghost var s := fp.Left();
      DataOf(s, g);
      fp.Skip(10);
      var bytes, c, i := DecodeLine(fp, g);
      ghost var sofar := out;
      out := out + bytes;
      if c == SPACE {
        c := SkipLine(fp);
        if c == EOF {
          return;
        }
      } else {
        if i < 16 {
          return;
        }
        Shrinks(s, g);
        fp.Skip(18);
      }
      Joined(sofar, bytes, Data(fp.Left(), g));
    }
  }

  lemma Shrinks(s: seq<Byte>, g: nat)
    requires Columned(Chop(s, 10), 0, 0, g).i == 16
    ensures |Columned(Chop(s, 10), 0, 0, g).rest| < |s|
  {
  }

  /** Skip to the end of the line. */
  method SkipLine(fp: Reader) returns (c: int)
    requires fp.Valid()
    modifies fp
    ensures fp.Valid()
    ensures var k := AfterNewline(old(fp.Left())); if k.None? then c == EOF else c != EOF && fp.Left() == k.rest
  {
    c := fp.Getc();
    while c != NEWLINE && c != EOF
      invariant fp.Valid()
      invariant c == EOF ==> AfterNewline(old(fp.Left())) == None
      invariant c == NEWLINE ==> AfterNewline(old(fp.Left())) == Some(fp.Left())
      invariant c != EOF && c != NEWLINE ==> AfterNewline(old(fp.Left())) == AfterNewline(fp.Left())
      decreases c != EOF, |fp.Left()|
    {
      c := fp.Getc();
    }
  }

  /** What puts prints of a buffer: up to the first null, and a newline. */
  ghost function CString(s: seq<Byte>): seq<Byte> {
    if s == [] || s[0] == 0 then [NEWLINE] else [s[0]] + CString(s[1..])
  }

  method Puts(s: array<Byte>) returns (out: seq<Byte>)
    ensures out == CString(s[..])
  {
    out := [];
    var i := 0;
    while i < s.Length && s[i] != 0
      invariant 0 <= i <= s.Length
      invariant CString(s[..]) == out + CString(s[i..])
    {
      ghost var sofar := out;
      out := out + [s[i]];
      assert s[i..][1..] == s[i + 1..];
      assert sofar + ([s[i]] + CString(s[i + 1..])) == out + CString(s[i + 1..]);
      i := i + 1;
    }
    out := out + [NEWLINE];
  }

  lemma {:induction false} ShownString(line: seq<Byte>, iso: bool, rest: seq<Byte>)
    requires rest == [] || rest[0] == 0
    ensures CString(ShownAll(line, iso) + rest) == ShownAll(line, iso) + [NEWLINE]
  {
    var s := ShownAll(line, iso);
    if line == [] {
      assert s + rest == rest;
    } else {
      assert (s + rest)[1..] == ShownAll(line[1..], iso) + rest;
      ShownString(line[1..], iso, rest);
    }
  }

  /** The buffer after a line: a blank, what is shown of the line, and a null. */
  ghost predicate Buffered(s: seq<Byte>, line: seq<Byte>, i: nat, iso: bool) {
    && |s| == 18 && s[0] == SPACE && s[17] == 0
    && forall j :: 1 <= j <= i && j <= 16 ==> s[j] == if j <= |line| then Shown(line[j - 1], iso) else 0
  }

  lemma BufferShows(s: seq<Byte>, line: seq<Byte>, iso: bool)
    requires |line| <= 16 && Buffered(s, line, 16, iso)
    ensures CString(s) == [SPACE] + ShownAll(line, iso) + [NEWLINE]
  {
    var n := |line| + 1;
    forall j | 0 <= j < |line|
      ensures s[1..n][j] == ShownAll(line, iso)[j]
    {
      ShownAt(line, iso, j);
    }
    assert s[1..] == ShownAll(line, iso) + s[n..];
    assert s[n] == 0;
    ShownString(line, iso, s[n..]);
    assert CString(s) == [s[0]] + CString(s[1..]);
    assert [SPACE] + (ShownAll(line, iso) + [NEWLINE]) == [SPACE] + ShownAll(line, iso) + [NEWLINE];
  }

  /** hexl: the inner loop, one line, of which the first column is already known to be there. */
  method EncodeLine(fp: Reader, a: nat, g: nat, iso: bool, s: array<Byte>) returns (out: seq<Byte>, c: int, i: nat)
    requires fp.Valid() && s.Length == 18 && s[0] == SPACE && s[17] == 0
    modifies fp, s
    ensures fp.Valid() && s[0] == SPACE && s[17] == 0 && fp.Left() == Chop(old(fp.Left()), 16)
    ensures var line := First(old(fp.Left()), 16);
            && (c == EOF <==> |line| < 16)
            && if line == [] then i == 0 && out == []
               else i == 16 && out == Address(a) + Columns(line, 0, g) && Buffered(s[..], line, 16, iso)
  {
    hide Columns, Address;
    ghost var all := fp.Left();
    ghost var line := First(all, 16);
    out, c, i := [], 0, 0;
    ghost var whole := Address(a) + Columns(line, 0, g);
    while i < 16
      invariant i <= 16 && fp.Valid() && fp.Left() == Chop(all, i)
      invariant i > 0 ==> line != [] && (c == EOF <==> |line| < i) && out + Columns(line, i, g) == whole
      invariant i == 0 ==> out == []
      invariant Buffered(s[..], line, i, iso)
    {
      c := fp.Getc();
      ChopTwice(all, i, 1);
      ghost var before := out;
      if c == EOF {
        if i == 0 {
          break;
        }
        out := out + [SPACE, SPACE];
        s[i + 1] := 0;
      } else {
        if i == 0 {
          out := out + Address(a);
          before := out;
        }
        s[i + 1] := Shown(c, iso);
        out := out + Pair(c);
      }
      if EndsGroup(i, g) {
        out := out + [SPACE];
      }
      NextColumn(line, i, g, before, out);
      i := i + 1;
    }
    if i == 16 {
      LastColumn(line, g, out);
    }
  }

  lemma NextColumn(line: seq<Byte>, i: nat, g: nat, before: seq<Byte>, out: seq<Byte>)
    requires i < 16 && out == before + (if i < |line| then Pair(line[i]) else [SPACE, SPACE]) + Gap(i, g)
    ensures out + Columns(line, i + 1, g) == before + Columns(line, i, g)
  {
  }

  lemma LastColumn(line: seq<Byte>, g: nat, out: seq<Byte>)
    ensures out + Columns(line, 16, g) == out
  {
  }

  /** hexl: the text, and what each line of it shows. */
  method Encode(input: seq<Byte>, g: nat, iso: bool) returns (out: seq<Byte>)
    ensures out == Text(input, 0, g, iso) && ShowsData(out, input, 0, g, iso)
  {
    hide Columns, Address, ShownAll, CString, ShowsData;
    AllShown(input, 0, g, iso);
    var fp := new Reader(input);
    var address := 0;
    var s := new Byte[18];
    s[0], s[17] := SPACE, 0;
    out := [];
    while true
      invariant fp.Valid() && out + Text(fp.Left(), address, g, iso) == Text(input, 0, g, iso)
      invariant s[0] == SPACE && s[17] == 0
      decreases |fp.Left()|
    {
      ghost var all, sofar := fp.Left(), out;
      ghost var line := First(all, 16);
      var text, c, i := EncodeLine(fp, address, g, iso, s);
      out := out + text;
      if i != 0 {
        var shown := Puts(s);
        BufferShows(s[..], line, iso);
        out := out + shown;
        TextOf(all, address, g, iso, sofar, text, shown, out);
      }
      if c == EOF {
        return;
      }
      address := address + 0x10;
    }
  }

  lemma TextOf(all: seq<Byte>, a: nat, g: nat, iso: bool, sofar: seq<Byte>, text: seq<Byte>, shown: seq<Byte>,
               out: seq<Byte>)
    requires all != [] && out == sofar + text + shown
    requires text == Address(a) + Columns(First(all, 16), 0, g)
    requires shown == [SPACE] + ShownAll(First(all, 16), iso) + [NEWLINE]
    ensures sofar + Text(all, a, g, iso) == out + Text(Chop(all, 16), a + 16, g, iso)
  {
    hide Columns, Address, ShownAll;
    assert Line(a, First(all, 16), g, iso) == text + shown;
    var more := Text(Chop(all, 16), a + 16, g, iso);
    assert Text(all, a, g, iso) == text + shown + more;
    assert sofar + (text + shown + more) == out + more;
  }

  /** hexl, and then hexl -un. */
  method ThereAndBack(input: seq<Byte>, g: nat, iso: bool) returns (text: seq<Byte>, back: seq<Byte>)
    ensures back == input
  {
    text := Encode(input, g, iso);
    back := Decode(text, g);
    RoundTrip(input, 0, g, iso);
  }
}
