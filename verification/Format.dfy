/**
 Format specifications and what they print, in the configuration the kernel builds nanoprintf
 with: field widths, precisions, large lengths and binary, no floating point, no writeback.
 */
module Format {
  import opened Word64
  import opened Numerals

  datatype Given = Absent | Literal | Star

  datatype Length = Plain | Short | Byte | Long | LongLong | IntMax | SizeT | PtrDiff

  datatype Conv = Percent | Char | Text | Signed | Binary | Octal | Hex | Unsigned | Pointer

  /** A format specification; `sign` is what a non-negative signed number is preceded by. */
  datatype Spec = Spec(width: int, widthGiven: Given, left: bool, zero: bool, prec: int, precGiven: Given,
                       sign: string, alt: bool, upper: bool, length: Length, conv: Conv)

  // ---------------------------------------------------------------------------
  // Parsing

  /** The character under the cursor; the terminator at the end. */
  function At(f: string, i: nat): char {
    if i < |f| then f[i] else '\0'
  }

  datatype Flags = Flags(left: bool, zero: bool, sign: string, alt: bool)

  predicate IsFlag(c: char) {
    c == '-' || c == '0' || c == '+' || c == ' ' || c == '#'
  }

  function Flagged(g: Flags, c: char): Flags {
    if c == '-' then g.(left := true, zero := false)
    else if c == '0' then g.(zero := !g.left)
    else if c == '+' then g.(sign := "+")
    else if c == ' ' then (if g.sign == "" then g.(sign := " ") else g)
    else g.(alt := true)
  }

  function ParseFlags(f: string, i: nat, g: Flags): (r: (Flags, nat))
    ensures i <= |f| ==> i <= r.1 <= |f|
    decreases |f| - i
  {
    if i < |f| && IsFlag(f[i]) then ParseFlags(f, i + 1, Flagged(g, f[i])) else (g, i)
  }

  predicate IsDecimal(c: char) {
    '0' <= c <= '9'
  }

  function ParseNumber(f: string, i: nat, acc: nat): (r: (nat, nat))
    ensures i <= |f| ==> i <= r.1 <= |f|
    decreases |f| - i
  {
    if i < |f| && IsDecimal(f[i]) then ParseNumber(f, i + 1, acc * 10 + (f[i] - '0') as nat) else (acc, i)
  }

  /** The field width, and how it is given. */
  function ParseWidth(f: string, i: nat): (r: (int, Given, nat))
    ensures i <= |f| ==> i <= r.2 <= |f|
  {
    if At(f, i) == '*' then (0, Star, i + 1)
    else var n := ParseNumber(f, i, 0); (n.0, if IsDecimal(At(f, i)) then Literal else Absent, n.1)
  }

  /** The precision. A negative literal counts as not given, but its digits are kept. */
  function ParsePrecision(f: string, i: nat): (r: (int, Given, nat))
    ensures i <= |f| ==> i <= r.2 <= |f|
  {
    if At(f, i) != '.' then (0, Absent, i)
    else if At(f, i + 1) == '*' then (0, Star, i + 2)
    else if At(f, i + 1) == '-' then var n := ParseNumber(f, i + 2, 0); (n.0, Absent, n.1)
    else var n := ParseNumber(f, i + 1, 0); (n.0, Literal, n.1)
  }

  function ParseLength(f: string, i: nat): (r: (Length, nat))
    ensures i <= |f| ==> i <= r.1 <= |f|
  {
    match At(f, i)
    case 'h' => if At(f, i + 1) == 'h' then (Byte, i + 2) else (Short, i + 1)
    case 'l' => if At(f, i + 1) == 'l' then (LongLong, i + 2) else (Long, i + 1)
    case 'j' => (IntMax, i + 1)
    case 'z' => (SizeT, i + 1)
    case 't' => (PtrDiff, i + 1)
    case _ => (Plain, i)
  }

  function ConvOf(c: char): Option<Conv> {
    match c
    case '%' => Some(Percent)
    case 'c' => Some(Char)
    case 's' => Some(Text)
    case 'i' => Some(Signed)
    case 'd' => Some(Signed)
    case 'o' => Some(Octal)
    case 'u' => Some(Unsigned)
    case 'X' => Some(Hex)
    case 'x' => Some(Hex)
    case 'p' => Some(Pointer)
    case 'B' => Some(Binary)
    case 'b' => Some(Binary)
    case _ => None
  }

  /** What the conversion does to the other fields. */
  function Settle(c: char, conv: Conv, zero: bool, precGiven: Given): (bool, Given) {
    match conv
    case Percent => (zero, Absent)
    case Char => (zero, Absent)
    case Pointer => (zero, Absent)
    case Text => (false, precGiven)
    case Binary => (zero, precGiven)
    case _ => (zero && precGiven == Absent, precGiven)
  }

  /** `npf_parse_format_spec` at a '%': the specification and where it ends, if there is one. */
  function Parse(f: string, i: nat): (r: Option<(Spec, nat)>)
    requires i < |f|
    ensures r.Some? ==> i + 1 < r.value.1 <= |f|
  {
    var g := ParseFlags(f, i + 1, Flags(false, false, "", false));
    var w := ParseWidth(f, g.1);
    var p := ParsePrecision(f, w.2);
    var l := ParseLength(f, p.2);
    var c := At(f, l.1);
    var conv := ConvOf(c);
    if conv.None? then None
    else
      var z := Settle(c, conv.value, g.0.zero, p.1);
      Some((Spec(w.0, w.1, g.0.left, z.0, p.0, z.1, g.0.sign, g.0.alt, c == 'X' || c == 'B', l.0, conv.value), l.1 + 1))
  }

  // ---------------------------------------------------------------------------
  // Arguments

  datatype Arg = Int(value: int) | Str(text: string)

  function IntOf(args: seq<Arg>): int {
    if args != [] && args[0].Int? then args[0].value else 0
  }

  /** The characters in front of the first zero. */
  function UpToZero(t: string): string {
    if t == "" || t[0] == '\0' then "" else [t[0]] + UpToZero(t[1..])
  }

  function TextOf(args: seq<Arg>): string {
    if args != [] && args[0].Str? then UpToZero(args[0].text) else ""
  }

  function Rest(args: seq<Arg>): seq<Arg> {
    if args == [] then [] else args[1..]
  }

  const TWO32: nat := 0x1_0000_0000

  function Modulus(l: Length): nat {
    match l
    case Plain => TWO32
    case Short => 0x1_0000
    case Byte => 0x100
    case _ => TWO64
  }

  /** The argument as the unsigned type of its length. */
  function AsUnsigned(v: int, m: nat): (r: nat)
    requires m > 0
    ensures r < m && (0 <= v < m ==> r == v)
  {
    v % m
  }

  /** The argument as the signed type of its length. */
  function AsSigned(v: int, m: nat): (r: int)
    requires m > 0 && m % 2 == 0
    ensures 0 <= r + m / 2 < m
  {
    (v + m / 2) % m - m / 2
  }

  /** Widths and precisions given as arguments. A negative width means left-justified, a negative precision none. */
  function Starred(s: Spec, args: seq<Arg>): (Spec, seq<Arg>) {
    var w := AsSigned(IntOf(args), TWO32);
    var s1 := if s.widthGiven != Star then s else if w < 0 then s.(width := -w, left := true) else s.(width := w);
    var rest := if s.widthGiven == Star then Rest(args) else args;
    var p := AsSigned(IntOf(rest), TWO32);
    if s.precGiven != Star then (s1, rest)
    else (s1.(prec := p, precGiven := if p < 0 then Absent else Star), Rest(rest))
  }

  // ---------------------------------------------------------------------------
  // Conversion

  /** A converted argument: sign, prefix and digits or text; the precision that remains; whether it is the number zero. */
  datatype Piece = Piece(sign: string, prefix: string, body: string, prec: int, isZero: bool)

  /** Zero with an explicit precision of zero has no digits. */
  predicate Silent(s: Spec, v: int) {
    v == 0 && s.precGiven != Absent && s.prec == 0
  }

  function Abs(v: int): nat { if v < 0 then -v else v }

  function BaseOf(c: Conv): (b: nat)
    ensures 2 <= b <= 16
  {
    match c
    case Binary => 2
    case Octal => 8
    case Hex => 16
    case Pointer => 16
    case _ => 10
  }

  function SignedPiece(s: Spec, v: int): Piece {
    Piece(if v < 0 then "-" else s.sign, "", if Silent(s, v) then "" else Digits(Abs(v), 10, s.upper), s.prec, v == 0)
  }

  function UnsignedPiece(s: Spec, v: nat): Piece {
    var digits := if Silent(s, v) then "" else Digits(v, BaseOf(s.conv), s.upper);
    var alt := v != 0 && s.alt;
    Piece("",
          if alt && s.conv == Hex then (if s.upper then "0X" else "0x")
          else if alt && s.conv == Binary then (if s.upper then "0B" else "0b")
          else "",
          if alt && s.conv == Octal then "0" + digits else digits,
          if Silent(s, v) && s.conv == Octal && s.alt then 1 else s.prec,
          v == 0)
  }

  /** A string cut to the precision, if one is given. */
  function Cut(s: Spec, t: string): string {
    if s.precGiven == Absent || |t| <= s.prec then t
    else if s.prec <= 0 then ""
    else t[..s.prec]
  }

  function Convert(s: Spec, args: seq<Arg>): Piece {
    match s.conv
    case Percent => Piece("", "", "%", s.prec, false)
    case Char => Piece("", "", [AsUnsigned(IntOf(args), 0x100) as char], s.prec, false)
    case Text => Piece("", "", Cut(s, TextOf(args)), s.prec, false)
    case Signed => SignedPiece(s, AsSigned(IntOf(args), Modulus(s.length)))
    case Pointer => Piece("", "0x", Digits(AsUnsigned(IntOf(args), TWO64), 16, false), s.prec, false)
    case _ => UnsignedPiece(s, AsUnsigned(IntOf(args), Modulus(s.length)))
  }

  function Taken(s: Spec, args: seq<Arg>): seq<Arg> {
    if s.conv == Percent then args else Rest(args)
  }

  // ---------------------------------------------------------------------------
  // Layout

  function Repeat(c: char, n: int): (s: string)
    ensures |s| == if n > 0 then n else 0
    ensures forall i :: 0 <= i < |s| ==> s[i] == c
    decreases n
  {
    if n <= 0 then "" else [c] + Repeat(c, n - 1)
  }

  /** The character a field is filled with, if it is filled at all. */
  function PadChar(s: Spec, p: Piece): Option<char> {
    if s.widthGiven == Absent then None
    else if !s.zero then Some(' ')
    else if s.conv == Text || s.conv == Char || s.conv == Percent then None
    else if s.precGiven != Absent && p.prec == 0 && p.isZero then Some(' ')
    else Some('0')
  }

  /** How many zeros the precision asks for in front of the digits. */
  function PrecPad(s: Spec, p: Piece): nat {
    if s.conv == Text || p.prec <= |p.body| then 0 else p.prec - |p.body|
  }

  /** The converted argument by itself. */
  function Natural(s: Spec, p: Piece): nat {
    |p.sign| + |p.prefix| + PrecPad(s, p) + |p.body|
  }

  function FieldPad(s: Spec, p: Piece): nat {
    if s.width <= Natural(s, p) then 0 else s.width - Natural(s, p)
  }

  /** The field: zeros go between the sign or prefix and the digits, blanks outside. */
  function Layout(s: Spec, p: Piece): string {
    var pad := PadChar(s, p);
    var digits := Repeat('0', PrecPad(s, p)) + p.body;
    if pad.None? then p.prefix + (p.sign + digits)
    else if s.left then p.prefix + (p.sign + digits) + Repeat(pad.value, FieldPad(s, p))
    else if pad.value == '0' then p.sign + p.prefix + (Repeat('0', FieldPad(s, p)) + digits)
    else Repeat(pad.value, FieldPad(s, p)) + (p.prefix + (p.sign + digits))
  }

  /** One specification with its arguments. */
  function Render(s: Spec, args: seq<Arg>): string {
    var t := Starred(s, args);
    Layout(t.0, Convert(t.0, t.1))
  }

  function After(s: Spec, args: seq<Arg>): seq<Arg> {
    var t := Starred(s, args);
    Taken(t.0, t.1)
  }

  /** Everything a format prints, from a position on, up to its end or a zero. */
  function Output(f: string, i: nat, args: seq<Arg>): string
    decreases |f| - i
  {
    if i >= |f| || f[i] == '\0' then ""
    else if f[i] != '%' || Parse(f, i).None? then [f[i]] + Output(f, i + 1, args)
    else
      var r := Parse(f, i).value;
      Render(r.0, args) + Output(f, r.1, After(r.0, args))
  }

  // ---------------------------------------------------------------------------
  // Width

  /** A filled field is exactly as wide as asked for, unless its content is wider. */
  lemma {:induction false} FieldWidth(s: Spec, p: Piece)
    ensures |Layout(s, p)| == if PadChar(s, p).Some? && s.width > Natural(s, p) then s.width else Natural(s, p)
  {
  }
}
