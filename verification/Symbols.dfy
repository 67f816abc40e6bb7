/** The kernel's symbol map: text lines of address, type and name, parsed once and searched by address. */
module Symbols {
  import opened Word64
  import opened Numerals

  datatype Symbol = Symbol(name: string, base: nat)

  // ---------------------------------------------------------------------------
  // Addresses

  function Hex2Int(c: char): (d: nat)
    ensures d < 16
  {
    if '0' <= c <= '9' then (c - '0') as nat
    else if 'a' <= c <= 'f' then (c - 'a') as nat + 10
    else 0
  }

  /** The number the characters denote in base 16; other characters count as zero. */
  function HexValue(s: string): nat {
    if s == "" then 0 else HexValue(s[..|s| - 1]) * 16 + Hex2Int(s[|s| - 1])
  }

  /** `strtoaddr`, from the last character to the first. */
  method Strtoaddr(s: string) returns (addr: nat)
    ensures addr == Wrap(HexValue(s))
  {
    hide Wrap, Hex2Int, Power;
    addr := 0;
    var j := 0;
    assert s[..|s|] == s && s[|s|..] == "";
    WrapSmall(HexValue(s));
    while j < |s|
      invariant 0 <= j <= |s|
      invariant Wrap(addr + Power(16, j) * HexValue(s[..|s| - j])) == Wrap(HexValue(s)) && addr < TWO64
    {
      var d := Hex2Int(s[|s| - j - 1]);
      HexStep(s[..|s| - j], addr, j);
      assert s[..|s| - j][..|s| - j - 1] == s[..|s| - j - 1];
      var next := addr + d * Power(16, j);
      WrapShift(next, Power(16, j + 1) * HexValue(s[..|s| - j - 1]));
      addr := Wrap(next);
      j := j + 1;
    }
    assert s[..0] == "";
    assert Power(16, j) * 0 == 0;
  }

  lemma {:induction false} WrapSmall(v: nat)
    ensures Wrap(0 + Power(16, 0) * v) == Wrap(v)
  {
  }

  lemma {:induction false} HexStep(t: string, addr: nat, j: nat)
    requires t != ""
    ensures addr + Power(16, j) * HexValue(t)
            == addr + Hex2Int(t[|t| - 1]) * Power(16, j) + Power(16, j + 1) * HexValue(t[..|t| - 1])
  {
    var p, h, d := Power(16, j), HexValue(t[..|t| - 1]), Hex2Int(t[|t| - 1]);
    assert Power(16, j + 1) == 16 * p;
    Spread(p, h, d);
  }

  lemma {:induction false} Spread(p: nat, h: nat, d: nat)
    ensures p * (h * 16 + d) == d * p + 16 * p * h
  {
    assert p * (h * 16) == 16 * p * h;
  }

  /** Printing an address in lower-case hexadecimal and reading it gives it back. */
  lemma {:induction false} HexRoundTrip(v: nat)
    ensures HexValue(Digits(v, 16, false)) == v
  {
    if v >= 16 {
      Halves(v, 16);
      HexRoundTrip(v / 16);
      var s := Digits(v, 16, false);
      assert s[..|s| - 1] == Digits(v / 16, 16, false);
    } else {
      var s := Digits(v, 16, false);
      assert s[..0] == "" && HexValue("") == 0;
    }
  }

  // ---------------------------------------------------------------------------
  // Lines

  /** The first place of a character; the length if there is none. */
  function First(s: string, c: char): (k: nat)
    ensures k <= |s| && (forall i :: 0 <= i < k ==> s[i] != c) && (k < |s| ==> s[k] == c)
  {
    if s == "" || s[0] == c then 0
    else
      var t := s[1..];
      assert forall i :: 0 <= i < |t| ==> t[i] == s[i + 1];
      First(t, c) + 1
  }

  /** One past the last place of a character; 0 if there is none. */
  function AfterLast(s: string, c: char): (k: nat)
    ensures k <= |s| && (forall i :: k <= i < |s| ==> s[i] != c) && (k > 0 ==> s[k - 1] == c)
  {
    if s == "" then 0
    else if s[|s| - 1] == c then |s|
    else AfterLast(s[..|s| - 1], c)
  }

  /** An address, a type and a name: at least two blanks. */
  predicate LineOk(line: string) {
    First(line, ' ') + 1 < AfterLast(line, ' ')
  }

  function SymbolOf(line: string): Symbol {
    Symbol(line[AfterLast(line, ' ')..], Wrap(HexValue(line[..First(line, ' ')])))
  }

  /** Every complete line is one. */
  predicate MapOk(text: string) {
    var k := First(text, '\n');
    k < |text| ==> LineOk(text[..k]) && MapOk(text[k + 1..])
  }

  /** The symbols of the complete lines, in order. */
  function MapOf(text: string): seq<Symbol> {
    var k := First(text, '\n');
    if k == |text| then [] else [SymbolOf(text[..k])] + MapOf(text[k + 1..])
  }

  /** The name and the address of a finished line. */
  method EndLine(buf: string, start: nat, end: nat, typeStart: Option<nat>, nameStart: Option<nat>) returns (symbol: Symbol)
    requires start <= end <= |buf| && Marks(buf[start..end], typeStart, nameStart) && LineOk(buf[start..end])
    ensures symbol == SymbolOf(buf[start..end])
  {
    hide First, AfterLast, Wrap, HexValue;
    ghost var line := buf[start..end];
    MarksDone(line, typeStart, nameStart);
    var name := buf[start + nameStart.value..end];
    assert name == line[nameStart.value..];
    var addrLen := typeStart.value - 1;
    var addrText := buf[start..start + addrLen];
    assert addrText == line[..addrLen];
    var addr := Strtoaddr(addrText);
    symbol := Symbol(name, addr);
  }

  /** `symbols_parse_map`: one pass with the positions of the type and the name in the current line. */
  method ParseMap(buf: string) returns (list: seq<Symbol>)
    requires MapOk(buf)
    ensures list == MapOf(buf)
  {
    hide MapOf, MapOk, LineOk, SymbolOf, First, AfterLast;
    list := [];
    var lineStart, pos := 0, 0;
    var typeStart: Option<nat>, nameStart: Option<nat> := None, None;
    assert buf[0..] == buf && [] + MapOf(buf) == MapOf(buf);
    NoBlank(buf[0..0]);
    while pos < |buf|
      invariant 0 <= lineStart <= pos <= |buf| && MapOk(buf[lineStart..])
      invariant list + MapOf(buf[lineStart..]) == MapOf(buf)
      invariant forall i :: lineStart <= i < pos ==> buf[i] != '\n'
      invariant Marks(buf[lineStart..pos], typeStart, nameStart)
    {
      ghost var line := buf[lineStart..pos];
      if buf[pos] == '\n' {
        LineDone(buf[lineStart..], pos - lineStart);
        assert buf[lineStart..][..pos - lineStart] == line;
        assert buf[lineStart..][pos - lineStart + 1..] == buf[pos + 1..];
        var symbol := EndLine(buf, lineStart, pos, typeStart, nameStart);
        assert list + ([symbol] + MapOf(buf[pos + 1..])) == list + [symbol] + MapOf(buf[pos + 1..]);
        list := list + [symbol];
        lineStart, pos := pos + 1, pos + 1;
        typeStart, nameStart := None, None;
        NoBlank(buf[pos..pos]);
      } else {
        MarksNext(line, buf[pos], typeStart, nameStart);
        assert buf[lineStart..pos + 1] == line + [buf[pos]];
        if buf[pos] == ' ' {
          if typeStart == None {
            typeStart := Some(pos - lineStart + 1);
          } else {
            nameStart := Some(pos - lineStart + 1);
          }
        }
        pos := pos + 1;
      }
    }
    Unfinished(buf[lineStart..]);
    assert list + [] == list;
  }

  /** The position after the first blank, and after the last of several. */
  ghost predicate Marks(line: string, typeStart: Option<nat>, nameStart: Option<nat>) {
    && (typeStart.None? <==> First(line, ' ') == |line|)
    && (typeStart.Some? ==> typeStart.value == First(line, ' ') + 1)
    && (nameStart.Some? <==> typeStart.Some? && First(line, ' ') + 1 < AfterLast(line, ' '))
    && (nameStart.Some? ==> nameStart.value == AfterLast(line, ' '))
  }

  lemma {:induction false} NoBlank(s: string)
    requires s == ""
    ensures Marks(s, None, None)
  {
  }

  lemma {:induction false} FirstAppend(s: string, c: char, x: char)
    ensures First(s + [x], c) == if First(s, c) < |s| then First(s, c) else if x == c then |s| else |s| + 1
  {
    var t := s + [x];
    var k := First(t, c);
    assert forall i :: 0 <= i < |s| ==> t[i] == s[i];
    assert t[|s|] == x;
  }

  lemma {:induction false} MarksNext(line: string, x: char, typeStart: Option<nat>, nameStart: Option<nat>)
    requires Marks(line, typeStart, nameStart)
    ensures var n := |line| + 1;
            Marks(line + [x], if x == ' ' && typeStart.None? then Some(n) else typeStart,
                  if x == ' ' && typeStart.Some? then Some(n) else nameStart)
  {
    hide First;
    FirstAppend(line, ' ', x);
    var t := line + [x];
    assert t[..|t| - 1] == line && t[|t| - 1] == x;
  }

  lemma {:induction false} MarksDone(line: string, typeStart: Option<nat>, nameStart: Option<nat>)
    requires Marks(line, typeStart, nameStart) && LineOk(line)
    ensures typeStart == Some(First(line, ' ') + 1) && nameStart == Some(AfterLast(line, ' '))
    ensures First(line, ' ') < |line| && AfterLast(line, ' ') <= |line|
  {
    hide First, AfterLast;
  }

  lemma {:induction false} LineDone(text: string, k: nat)
    requires k < |text| && text[k] == '\n' && (forall i :: 0 <= i < k ==> text[i] != '\n') && MapOk(text)
    ensures LineOk(text[..k]) && MapOk(text[k + 1..]) && MapOf(text) == [SymbolOf(text[..k])] + MapOf(text[k + 1..])
  {
    hide LineOk, SymbolOf;
    assert First(text, '\n') == k;
  }

  lemma {:induction false} Unfinished(text: string)
    requires forall i :: 0 <= i < |text| ==> text[i] != '\n'
    ensures MapOf(text) == []
  {
    assert First(text, '\n') == |text|;
  }

  // ---------------------------------------------------------------------------
  // Printing a map

  datatype Entry = Entry(base: nat, kind: string, name: string)

  /** No blanks and no line ends inside the parts. */
  predicate EntryOk(e: Entry) {
    e.base < TWO64 && Word(e.kind) && Word(e.name)
  }

  predicate Word(s: string) {
    forall i :: 0 <= i < |s| ==> s[i] != ' ' && s[i] != '\n'
  }

  function LineOf(e: Entry): string {
    Digits(e.base, 16, false) + " " + e.kind + " " + e.name
  }

  function TextOf(es: seq<Entry>): string {
    if es == [] then "" else LineOf(es[0]) + "\n" + TextOf(es[1..])
  }

  function SymbolsOf(es: seq<Entry>): seq<Symbol> {
    if es == [] then [] else [Symbol(es[0].name, es[0].base)] + SymbolsOf(es[1..])
  }

  /** Parsing a printed map gives its entries back, in order. */
  lemma {:induction false} MapRoundTrip(es: seq<Entry>)
    requires forall i :: 0 <= i < |es| ==> EntryOk(es[i])
    ensures MapOk(TextOf(es)) && MapOf(TextOf(es)) == SymbolsOf(es)
  {
    hide LineOf, LineOk, SymbolOf;
    if es == [] {
      assert First("", '\n') == 0;
    } else {
      var line, rest := LineOf(es[0]), TextOf(es[1..]);
      var text := line + "\n" + rest;
      LineParts(es[0]);
      MapRoundTrip(es[1..]);
      assert forall i :: 0 <= i < |line| ==> text[i] == line[i];
      assert text[|line|] == '\n';
      assert First(text, '\n') == |line|;
      assert text[..|line|] == line && text[|line| + 1..] == rest;
    }
  }

  lemma {:induction false} LineParts(e: Entry)
    requires EntryOk(e)
    ensures LineOk(LineOf(e)) && SymbolOf(LineOf(e)) == Symbol(e.name, e.base)
    ensures forall i :: 0 <= i < |LineOf(e)| ==> LineOf(e)[i] != '\n'
  {
    hide Digits, HexValue, Wrap, First, AfterLast;
    var hex := Digits(e.base, 16, false);
    HexWord(e.base);
    HexRoundTrip(e.base);
    assert LineOf(e) == hex + " " + e.kind + " " + e.name;
    Blanks(hex, e.kind, e.name);
    assert Wrap(e.base) == e.base;
  }

  /** Three words with blanks between them. */
  lemma {:induction false} Blanks(a: string, b: string, c: string)
    requires Word(a) && Word(b) && Word(c)
    ensures var line := a + " " + b + " " + c;
            && First(line, ' ') == |a| && line[..|a|] == a
            && AfterLast(line, ' ') == |a| + |b| + 2 && line[|a| + |b| + 2..] == c
            && forall i :: 0 <= i < |line| ==> line[i] != '\n'
  {
    hide First, AfterLast;
    var line, n, m := a + " " + b + " " + c, |a|, |a| + 1 + |b|;
    assert forall i :: 0 <= i < n ==> line[i] == a[i];
    assert line[n] == ' ' && line[m] == ' ';
    assert forall i :: n < i < m ==> line[i] == b[i - n - 1];
    assert forall i :: m < i < |line| ==> line[i] == c[i - m - 1];
    assert line[..n] == a && line[m + 1..] == c;
    FirstIs(line, n);
    LastIs(line, m);
  }

  lemma {:induction false} FirstIs(s: string, n: nat)
    requires n < |s| && s[n] == ' ' && forall i :: 0 <= i < n ==> s[i] != ' '
    ensures First(s, ' ') == n
  {
  }

  lemma {:induction false} LastIs(s: string, m: nat)
    requires m < |s| && s[m] == ' ' && forall i :: m < i < |s| ==> s[i] != ' '
    ensures AfterLast(s, ' ') == m + 1
  {
  }

  lemma {:induction false} HexWord(v: nat)
    ensures Word(Digits(v, 16, false))
  {
    if v >= 16 {
      Halves(v, 16);
      HexWord(v / 16);
    }
  }

  // ---------------------------------------------------------------------------
  // Search

  ghost predicate Ascending(list: seq<Symbol>) {
    forall i, j :: 0 <= i < j < |list| ==> list[i].base <= list[j].base
  }

  /**
   `symbols_lookup_address`: the last symbol that begins strictly below the address. A symbol
   that begins at the address itself is passed over.
   */
  method LookupAddress(list: seq<Symbol>, offset: nat, address: nat) returns (best: Option<nat>)
    requires Ascending(list)
    ensures var a := Wrap(address - offset);
            && (best.None? ==> forall i :: 0 <= i < |list| ==> a <= list[i].base)
            && (best.Some? ==> best.value < |list| && list[best.value].base < a
                               && forall i :: best.value < i < |list| ==> a <= list[i].base)
  {
    hide Wrap;
    var a := Wrap(address - offset);
    best := None;
    var i := 0;
    while i < |list|
      invariant i <= |list| && (best.None? ==> forall j :: 0 <= j < i ==> a <= list[j].base)
      invariant best.Some? ==> best.value < i && list[best.value].base < a && forall j :: best.value < j < i ==> a <= list[j].base
    {
      if a > list[i].base {
        best := Some(i);
      } else if list[i].base > a {
        break;
      }
      i := i + 1;
    }
  }
}
