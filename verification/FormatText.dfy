/** Writing a format specification down and parsing it gives the specification back. */
module FormatText {
  import opened Word64
  import opened Numerals
  import opened Format

  /** Specifications that have a canonical text: no field holds more than the text can say. */
  predicate Writable(s: Spec) {
    && !(s.left && s.zero) && (s.sign == "" || s.sign == "+" || s.sign == " ")
    && (if s.widthGiven == Literal then s.width > 0 else s.width == 0)
    && (if s.precGiven == Literal then s.prec >= 0 else s.prec == 0)
    && (s.upper ==> s.conv == Hex || s.conv == Binary)
    && (s.conv == Percent || s.conv == Char || s.conv == Pointer ==> s.precGiven == Absent)
    && (s.conv == Text ==> !s.zero)
    && (s.conv == Signed || s.conv == Octal || s.conv == Hex || s.conv == Unsigned ==> s.zero ==> s.precGiven == Absent)
  }

  function FlagsText(s: Spec): string {
    (if s.left then "-" else "") + ((if s.zero then "0" else "") + (s.sign + (if s.alt then "#" else "")))
  }

  function WidthText(s: Spec): string {
    match s.widthGiven
    case Absent => ""
    case Star => "*"
    case Literal => if s.width > 0 then Digits(s.width, 10, false) else ""
  }

  function PrecText(s: Spec): string {
    match s.precGiven
    case Absent => ""
    case Star => ".*"
    case Literal => if s.prec >= 0 then "." + Digits(s.prec, 10, false) else ""
  }

  function LengthText(l: Length): string {
    match l
    case Plain => ""
    case Short => "h"
    case Byte => "hh"
    case Long => "l"
    case LongLong => "ll"
    case IntMax => "j"
    case SizeT => "z"
    case PtrDiff => "t"
  }

  function ConvChar(s: Spec): char {
    match s.conv
    case Percent => '%'
    case Char => 'c'
    case Text => 's'
    case Signed => 'd'
    case Octal => 'o'
    case Unsigned => 'u'
    case Hex => if s.upper then 'X' else 'x'
    case Binary => if s.upper then 'B' else 'b'
    case Pointer => 'p'
  }

  function Written(s: Spec): string {
    "%" + (FlagsText(s) + (WidthText(s) + (PrecText(s) + (LengthText(s.length) + [ConvChar(s)]))))
  }

  /** `part` stands at position `i` of `f`. */
  ghost predicate Stands(f: string, i: nat, part: string) {
    i + |part| <= |f| && f[i..i + |part|] == part
  }

  lemma {:induction false} Halve(f: string, i: nat, a: string, b: string)
    requires Stands(f, i, a + b)
    ensures Stands(f, i, a) && Stands(f, i + |a|, b)
  {
    assert f[i..i + |a|] == (a + b)[..|a|] == a;
    assert f[i + |a|..i + |a| + |b|] == (a + b)[|a|..] == b;
  }

  lemma {:induction false} FirstOf(f: string, i: nat, a: string)
    requires Stands(f, i, a) && a != ""
    ensures i < |f| && f[i] == a[0]
  {
    assert f[i..i + |a|][0] == f[i];
  }

  // ---------------------------------------------------------------------------
  // The parts

  lemma {:induction false} FlagStep(f: string, i: nat, g: Flags, c: string)
    requires Stands(f, i, c) && (c == "" || (|c| == 1 && IsFlag(c[0])))
    ensures ParseFlags(f, i, g) == ParseFlags(f, i + |c|, if c == "" then g else Flagged(g, c[0]))
  {
    if c != "" {
      FirstOf(f, i, c);
    }
  }

  lemma {:induction false} Quarter(f: string, i: nat, a: string, b: string, c: string, d: string)
    requires Stands(f, i, a + (b + (c + d)))
    ensures Stands(f, i, a) && Stands(f, i + |a|, b) && Stands(f, i + |a| + |b|, c) && Stands(f, i + |a| + |b| + |c|, d)
  {
    hide Stands;
    Halve(f, i, a, b + (c + d));
    Halve(f, i + |a|, b, c + d);
    Halve(f, i + |a| + |b|, c, d);
  }

  lemma {:induction false} FlagsParsed(f: string, i: nat, s: Spec)
    requires Writable(s) && Stands(f, i, FlagsText(s)) && !IsFlag(At(f, i + |FlagsText(s)|))
    ensures ParseFlags(f, i, Flags(false, false, "", false)) == (Flags(s.left, s.zero, s.sign, s.alt), i + |FlagsText(s)|)
  {
    hide ParseFlags, Stands, Flagged;
    var a, b, d := if s.left then "-" else "", if s.zero then "0" else "", if s.alt then "#" else "";
    var j := i + |a| + |b|;
    Quarter(f, i, a, b, s.sign, d);
    FirstFlags(f, i, s, a, b);
    LastFlags(f, j, s, d);
    FlagsEnd(f, j + |s.sign| + |d|, Flags(s.left, s.zero, s.sign, s.alt));
  }

  lemma {:induction false} FirstFlags(f: string, i: nat, s: Spec, a: string, b: string)
    requires Writable(s) && a == (if s.left then "-" else "") && b == if s.zero then "0" else ""
    requires Stands(f, i, a) && Stands(f, i + |a|, b)
    ensures ParseFlags(f, i, Flags(false, false, "", false)) == ParseFlags(f, i + |a| + |b|, Flags(s.left, s.zero, "", false))
  {
    hide ParseFlags, Stands, Flagged;
    FlagValues(s);
    FlagStep(f, i, Flags(false, false, "", false), a);
    FlagStep(f, i + |a|, Flags(s.left, false, "", false), b);
  }

  lemma {:induction false} LastFlags(f: string, j: nat, s: Spec, d: string)
    requires Writable(s) && d == if s.alt then "#" else ""
    requires Stands(f, j, s.sign) && Stands(f, j + |s.sign|, d)
    ensures ParseFlags(f, j, Flags(s.left, s.zero, "", false))
            == ParseFlags(f, j + |s.sign| + |d|, Flags(s.left, s.zero, s.sign, s.alt))
  {
    hide ParseFlags, Stands, Flagged;
    FlagValues(s);
    FlagStep(f, j, Flags(s.left, s.zero, "", false), s.sign);
    FlagStep(f, j + |s.sign|, Flags(s.left, s.zero, s.sign, false), d);
  }

  lemma {:induction false} FlagValues(s: Spec)
    requires Writable(s)
    ensures var g0 := Flags(false, false, "", false);
            var g1 := g0.(left := s.left);
            var g2 := g1.(zero := s.zero);
            var g3 := g2.(sign := s.sign);
            && (s.left ==> Flagged(g0, '-') == g1) && (s.zero ==> Flagged(g1, '0') == g2)
            && (s.sign != "" ==> |s.sign| == 1 && IsFlag(s.sign[0]) && Flagged(g2, s.sign[0]) == g3)
            && (s.alt ==> Flagged(g3, '#') == g3.(alt := true))
  {
  }

  lemma {:induction false} FlagsEnd(f: string, i: nat, g: Flags)
    requires !IsFlag(At(f, i))
    ensures ParseFlags(f, i, g) == (g, i)
  {
  }

  lemma {:induction false} NumberStep(f: string, i: nat, n: nat)
    requires Stands(f, i, Digits(n, 10, false))
    ensures ParseNumber(f, i, 0) == ParseNumber(f, i + |Digits(n, 10, false)|, n)
  {
    hide ParseNumber;
    if n < 10 {
      FirstOf(f, i, Digits(n, 10, false));
      OneDigit(f, i, 0, n);
    } else {
      var q, r := n / 10, n % 10;
      var ds, c := Digits(q, 10, false), [DigitChar(r, false)];
      Halve(f, i, ds, c);
      NumberStep(f, i, q);
      FirstOf(f, i + |ds|, c);
      OneDigit(f, i + |ds|, q, r);
    }
  }

  lemma {:induction false} OneDigit(f: string, i: nat, acc: nat, d: nat)
    requires i < |f| && d < 10 && f[i] == DigitChar(d, false)
    ensures ParseNumber(f, i, acc) == ParseNumber(f, i + 1, acc * 10 + d) && IsDecimal(f[i])
  {
  }

  lemma {:induction false} NumberParsed(f: string, i: nat, n: nat)
    requires Stands(f, i, Digits(n, 10, false)) && !IsDecimal(At(f, i + |Digits(n, 10, false)|))
    ensures ParseNumber(f, i, 0) == (n, i + |Digits(n, 10, false)|) && IsDecimal(At(f, i))
    ensures n > 0 ==> At(f, i) != '0'
  {
    NumberStep(f, i, n);
    FirstOf(f, i, Digits(n, 10, false));
    FirstDigit(n);
  }

  /** A positive number does not begin with a zero. */
  lemma {:induction false} FirstDigit(n: nat)
    ensures var c := Digits(n, 10, false)[0]; IsDecimal(c) && (n > 0 ==> c != '0')
  {
    if n >= 10 {
      FirstDigit(n / 10);
    }
  }

  lemma {:induction false} WidthParsed(f: string, i: nat, s: Spec)
    requires Writable(s) && Stands(f, i, WidthText(s))
    requires !IsDecimal(At(f, i + |WidthText(s)|)) && At(f, i + |WidthText(s)|) != '*'
    ensures ParseWidth(f, i) == (s.width, s.widthGiven, i + |WidthText(s)|)
    ensures s.widthGiven != Absent ==> !IsFlag(At(f, i))
  {
    hide Digits, ParseNumber;
    match s.widthGiven
    case Absent => NoNumber(f, i);
    case Star => FirstOf(f, i, "*");
    case Literal => NumberParsed(f, i, s.width);
  }

  lemma {:induction false} NoNumber(f: string, i: nat)
    requires !IsDecimal(At(f, i))
    ensures ParseNumber(f, i, 0) == (0, i)
  {
  }

  lemma {:induction false} PrecParsed(f: string, i: nat, s: Spec)
    requires Writable(s) && Stands(f, i, PrecText(s))
    requires !IsDecimal(At(f, i + |PrecText(s)|)) && (s.precGiven == Absent ==> At(f, i) != '.')
    ensures ParsePrecision(f, i) == (s.prec, s.precGiven, i + |PrecText(s)|)
    ensures s.precGiven != Absent ==> At(f, i) == '.'
  {
    hide Digits, ParseNumber;
    match s.precGiven
    case Absent =>
    case Star =>
      Halve(f, i, ".", "*");
      FirstOf(f, i, ".");
      FirstOf(f, i + 1, "*");
    case Literal =>
      Halve(f, i, ".", Digits(s.prec, 10, false));
      FirstOf(f, i, ".");
      NumberParsed(f, i + 1, s.prec);
  }

  lemma {:induction false} LengthParsed(f: string, i: nat, l: Length, c: char)
    requires Stands(f, i, LengthText(l) + [c]) && ConvOf(c).Some?
    ensures ParseLength(f, i) == (l, i + |LengthText(l)|) && At(f, i + |LengthText(l)|) == c
    ensures !IsDecimal(At(f, i)) && !IsFlag(At(f, i)) && At(f, i) != '*' && At(f, i) != '.'
  {
    var t := LengthText(l);
    Halve(f, i, t, [c]);
    FirstOf(f, i + |t|, [c]);
    if |t| > 0 {
      FirstOf(f, i, t);
    }
    if |t| > 1 {
      Halve(f, i, t[..1], t[1..] + [c]) by { assert t[..1] + (t[1..] + [c]) == t + [c]; }
      FirstOf(f, i + 1, t[1..] + [c]);
    }
  }

  /** Parsing a written specification gives it back and ends where it ends, whatever follows. */
  lemma {:induction false} ParseRoundTrip(f: string, i: nat, s: Spec)
    requires Writable(s) && Stands(f, i, Written(s))
    ensures i < |f| && Parse(f, i) == Some((s, i + |Written(s)|))
  {
    hide Digits, ParseFlags, ParseWidth, ParsePrecision, ParseLength, FlagsText, WidthText, PrecText, LengthText, Stands, ConvOf,
         Settle, Writable, ConvChar;
    var j, k, m := Placed(f, i, s);
    Parsed(f, i, s, j, k, m);
    ConvKnown(s);
  }

  /** Where the parts stand. */
  lemma {:induction false} Placed(f: string, i: nat, s: Spec) returns (j: nat, k: nat, m: nat)
    requires Stands(f, i, Written(s))
    ensures i < |f| && j == i + 1 + |FlagsText(s)| && k == j + |WidthText(s)| && m == k + |PrecText(s)|
    ensures i + |Written(s)| == m + |LengthText(s.length)| + 1
    ensures Stands(f, i + 1, FlagsText(s)) && Stands(f, j, WidthText(s)) && Stands(f, k, PrecText(s))
    ensures Stands(f, m, LengthText(s.length) + [ConvChar(s)])
  {
    hide Digits, FlagsText, WidthText, PrecText, LengthText, Stands, ConvChar;
    var a, b, c, d, e := FlagsText(s), WidthText(s), PrecText(s), LengthText(s.length), [ConvChar(s)];
    Halve(f, i, "%", a + (b + (c + (d + e))));
    FirstOf(f, i, "%");
    Halve(f, i + 1, a, b + (c + (d + e)));
    j := i + 1 + |a|;
    Halve(f, j, b, c + (d + e));
    k := j + |b|;
    Halve(f, k, c, d + e);
    m := k + |c|;
  }

  lemma {:induction false} Parsed(f: string, i: nat, s: Spec, j: nat, k: nat, m: nat)
    requires Writable(s) && j == i + 1 + |FlagsText(s)| && k == j + |WidthText(s)| && m == k + |PrecText(s)|
    requires Stands(f, i + 1, FlagsText(s)) && Stands(f, j, WidthText(s)) && Stands(f, k, PrecText(s))
    requires Stands(f, m, LengthText(s.length) + [ConvChar(s)])
    ensures ParseFlags(f, i + 1, Flags(false, false, "", false)) == (Flags(s.left, s.zero, s.sign, s.alt), j)
    ensures ParseWidth(f, j) == (s.width, s.widthGiven, k) && ParsePrecision(f, k) == (s.prec, s.precGiven, m)
    ensures ParseLength(f, m) == (s.length, m + |LengthText(s.length)|) && At(f, m + |LengthText(s.length)|) == ConvChar(s)
  {
    hide Digits, ParseFlags, ParseWidth, ParsePrecision, ParseLength, FlagsText, WidthText, PrecText, LengthText, Stands, ConvOf,
         Settle, Writable, ConvChar;
    ConvKnown(s);
    LengthParsed(f, m, s.length, ConvChar(s));
    Emptiness(s);
    PrecParsed(f, k, s);
    WidthParsed(f, j, s);
    FlagsParsed(f, i + 1, s);
  }

  lemma {:induction false} ConvKnown(s: Spec)
    requires Writable(s)
    ensures ConvOf(ConvChar(s)) == Some(s.conv) && s.upper == (ConvChar(s) == 'X' || ConvChar(s) == 'B')
    ensures Settle(ConvChar(s), s.conv, s.zero, s.precGiven) == (s.zero, s.precGiven)
  {
  }

  lemma {:induction false} Emptiness(s: Spec)
    requires Writable(s)
    ensures s.widthGiven == Absent ==> |WidthText(s)| == 0
    ensures s.precGiven == Absent ==> |PrecText(s)| == 0
  {
  }
}
