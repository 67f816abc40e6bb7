/**
 What the parts of a conversion mean, apart from how they are computed: letters and flags, the
 arguments taken, the bits of a length, the text between the padding, and where the padding is.
 */
module FormatMeaning {
  import opened Word64
  import opened Numerals
  import opened Format

  // ---------------------------------------------------------------------------
  // Letters and flags

  /** The conversion letters; any other character is no conversion. */
  lemma {:induction false} Letters(c: char)
    ensures (ConvOf(c) == Some(Signed) <==> c == 'd' || c == 'i') && (ConvOf(c) == Some(Unsigned) <==> c == 'u')
    ensures (ConvOf(c) == Some(Octal) <==> c == 'o') && (ConvOf(c) == Some(Hex) <==> c == 'x' || c == 'X')
    ensures (ConvOf(c) == Some(Binary) <==> c == 'b' || c == 'B') && (ConvOf(c) == Some(Pointer) <==> c == 'p')
    ensures (ConvOf(c) == Some(Char) <==> c == 'c') && (ConvOf(c) == Some(Text) <==> c == 's') && (ConvOf(c) == Some(Percent) <==> c == '%')
  {
  }

  /** The length letters, at any place of a format. */
  lemma {:induction false} LengthLetters(f: string, i: nat)
    ensures var r, c, d := ParseLength(f, i), At(f, i), At(f, i + 1);
            && (r.0 == Byte <==> c == 'h' && d == 'h') && (r.0 == Short <==> c == 'h' && d != 'h')
            && (r.0 == LongLong <==> c == 'l' && d == 'l') && (r.0 == Long <==> c == 'l' && d != 'l')
            && (r.0 == IntMax <==> c == 'j') && (r.0 == SizeT <==> c == 'z') && (r.0 == PtrDiff <==> c == 't')
            && r.1 == i + if r.0 == Plain then 0 else if r.0 == Byte || r.0 == LongLong then 2 else 1
  {
  }

  /** Upper-case output is asked for by the letters X and B. */
  lemma {:induction false} UpperLetters(f: string, i: nat)
    requires i < |f| && Parse(f, i).Some?
    ensures var r := Parse(f, i).value; r.1 <= |f| && r.1 > 0 && (r.0.upper <==> f[r.1 - 1] == 'X' || f[r.1 - 1] == 'B')
    ensures var r := Parse(f, i).value; ConvOf(f[r.1 - 1]) == Some(r.0.conv)
  {
    hide ParseFlags, ParseWidth, ParsePrecision, ParseLength, Settle;
  }

  /** What a stretch of flags makes of the flags before it: '-' beats '0', and '+' beats the blank. */
  ghost predicate Gathered(g: Flags, part: string, r: Flags) {
    && (r.left <==> g.left || '-' in part)
    && (r.zero <==> (g.zero || '0' in part) && !g.left && '-' !in part)
    && (r.alt <==> g.alt || '#' in part)
    && r.sign == (if '+' in part then "+" else if ' ' in part && g.sign == "" then " " else g.sign)
  }

  lemma {:induction false} GatheredNext(g: Flags, c: char, part: string, r: Flags)
    requires IsFlag(c) && (g.left ==> !g.zero) && Gathered(Flagged(g, c), part, r)
    ensures Gathered(g, [c] + part, r)
  {
    var all := [c] + part;
    assert forall x :: x in all <==> x == c || x in part;
  }

  /** The set of flags counts, not their order. */
  lemma {:induction false} FlagSet(f: string, i: nat, g: Flags)
    requires i <= |f| && (g.left ==> !g.zero)
    ensures var r := ParseFlags(f, i, g);
            && i <= r.1 <= |f| && Gathered(g, f[i..r.1], r.0)
            && (r.1 < |f| ==> f[r.1] != '-' && f[r.1] != '0' && f[r.1] != '+' && f[r.1] != ' ' && f[r.1] != '#')
    decreases |f| - i
  {
    hide Gathered;
    if i < |f| && IsFlag(f[i]) {
      var h := Flagged(g, f[i]);
      FlagSet(f, i + 1, h);
      var r := ParseFlags(f, i + 1, h);
      GatheredNext(g, f[i], f[i + 1..r.1], r.0);
      assert f[i..r.1] == [f[i]] + f[i + 1..r.1];
    } else {
      NoneGathered(g);
      assert f[i..i] == "";
    }
  }

  lemma {:induction false} NoneGathered(g: Flags)
    requires g.left ==> !g.zero
    ensures Gathered(g, "", g)
  {
  }

  // ---------------------------------------------------------------------------
  // Arguments

  /** A conversion takes one argument, none for %%, and one more for each star. */
  lemma {:induction false} TakesArguments(s: Spec, args: seq<Arg>)
    ensures var k := (if s.widthGiven == Star then 1 else 0) + (if s.precGiven == Star then 1 else 0) + if s.conv == Percent then 0 else 1;
            After(s, args) == args[Min(k, |args|)..]
  {
    hide AsSigned;
    var t := Starred(s, args);
    var n := (if s.widthGiven == Star then 1 else 0) + if s.precGiven == Star then 1 else 0;
    assert t.0.conv == s.conv;
    assert t.1 == args[Min(n, |args|)..];
  }

  /** A star width is the absolute value, on the left if negative; a negative star precision is none. */
  lemma {:induction false} StarValues(s: Spec, args: seq<Arg>)
    requires |args| >= 2 && args[0].Int? && args[1].Int?
    requires -0x8000_0000 <= args[0].value < 0x8000_0000 && -0x8000_0000 <= args[1].value < 0x8000_0000
    requires s.widthGiven == Star && s.precGiven == Star
    ensures var t, w, p := Starred(s, args).0, args[0].value, args[1].value;
            && t.width == Abs(w) && t.left == (s.left || w < 0)
            && (p < 0 ==> t.precGiven == Absent) && (p >= 0 ==> t.precGiven == Star && t.prec == p)
            && t.conv == s.conv && t.sign == s.sign && t.alt == s.alt && t.upper == s.upper && t.zero == s.zero && t.length == s.length
  {
    Bits(args[0].value, Plain);
    Bits(args[1].value, Plain);
  }

  function BitsOf(l: Length): nat {
    match l
    case Plain => 32
    case Short => 16
    case Byte => 8
    case Long => 64
    case LongLong => 64
    case IntMax => 64
    case SizeT => 64
    case PtrDiff => 64
  }

  lemma {:induction false} SmallPowers()
    ensures Pow2(8) == 0x100 && Pow2(16) == 0x1_0000 && Pow2(32) == TWO32 && Pow2(64) == TWO64
  {
    Pow2Plus8(0);
    Pow2Plus8(8);
    Pow2Plus8(16);
    Pow2Plus8(24);
    Pow2Of64();
  }

  /** The argument is taken modulo 2 to the number of bits of its length, into the range of the signed or unsigned type. */
  lemma {:induction false} Bits(v: int, l: Length)
    ensures var m, u, i := Pow2(BitsOf(l)), AsUnsigned(v, Modulus(l)), AsSigned(v, Modulus(l));
            && 0 <= u < m && (u - v) % m == 0 && (0 <= v < m ==> u == v)
            && -(m / 2) <= i < m / 2 && (i - v) % m == 0 && (-(m / 2) <= v < m / 2 ==> i == v)
  {
    hide Pow2, AsUnsigned, AsSigned;
    assert Modulus(l) == Pow2(BitsOf(l)) && Modulus(l) % 2 == 0 by { SmallPowers(); }
    TakenModulo(v, Modulus(l));
  }

  lemma {:induction false} TakenModulo(v: int, m: nat)
    requires m > 0 && m % 2 == 0
    ensures var u, i := AsUnsigned(v, m), AsSigned(v, m);
            && 0 <= u < m && (u - v) % m == 0 && (0 <= v < m ==> u == v)
            && -(m / 2) <= i < m / 2 && (i - v) % m == 0 && (-(m / 2) <= v < m / 2 ==> i == v)
  {
    var h := m / 2;
    Congruent(v, m);
    Congruent(v + h, m);
    assert AsSigned(v, m) - v == (v + h) % m - (v + h);
  }

  lemma {:induction false} Congruent(v: int, m: nat)
    requires m > 0
    ensures (v % m - v) % m == 0 && 0 <= v % m < m && (0 <= v < m ==> v % m == v)
  {
    var q := v / m;
    assert v == m * q + v % m;
    assert v % m - v == m * (-q) by { assert m * (-q) == -(m * q); }
    ModOffset(-q, 0, m);
    if 0 <= v < m {
      DivUnique(v, m, 0);
    }
  }

  // ---------------------------------------------------------------------------
  // Texts

  lemma {:induction false} UpToZeroIs(t: string)
    ensures var p := UpToZero(t); |p| <= |t| && p == t[..|p|] && '\0' !in p && (|p| == |t| || t[|p|] == '\0')
  {
    if t != "" && t[0] != '\0' {
      UpToZeroIs(t[1..]);
      var p := UpToZero(t[1..]);
      assert t[..|p| + 1] == [t[0]] + t[1..][..|p|];
    }
  }

  /** %s prints the text up to its end, the first zero or the precision, whichever comes first. */
  lemma {:induction false} TextPayload(s: Spec, args: seq<Arg>)
    requires s.conv == Text && args != [] && args[0].Str?
    ensures var t, p, piece := args[0].text, Convert(s, args).body, Convert(s, args);
            && |p| <= |t| && p == t[..|p|] && '\0' !in p
            && (s.precGiven != Absent ==> |p| <= Max(0, if s.prec < 0 then 0 else s.prec))
            && (|p| == |t| || t[|p|] == '\0' || (s.precGiven != Absent && |p| == if s.prec < 0 then 0 else s.prec))
            && piece.sign == "" && piece.prefix == ""
  {
    UpToZeroIs(args[0].text);
  }

  /** %c prints the low byte of its argument, %% a percent sign. */
  lemma {:induction false} CharPayload(s: Spec, args: seq<Arg>)
    requires args != [] && args[0].Int?
    ensures s.conv == Char ==> |Convert(s, args).body| == 1 && (Convert(s, args).body[0] as int - args[0].value) % 0x100 == 0
                               && Convert(s, args).body[0] as int < 0x100
    ensures s.conv == Percent ==> Convert(s, args).body == "%"
    ensures s.conv == Char || s.conv == Percent ==> Convert(s, args).sign == "" && Convert(s, args).prefix == ""
  {
    Congruent(args[0].value, 0x100);
  }

  // ---------------------------------------------------------------------------
  // Numbers

  /** Exactly the digits of a number in a base: they read as it, and there is no leading zero. */
  ghost predicate Numeral(t: string, base: nat, v: nat, upper: bool) {
    && t != "" && (t[0] == '0' ==> |t| == 1) && Value(t, base, 0) == v
    && forall i :: 0 <= i < |t| ==> DigitOf(t[i], base, upper)
  }

  predicate DigitOf(c: char, base: nat, upper: bool) {
    var d := c as int;
    (48 <= d < 58 && d - 48 < base)
    || (if upper then 65 <= d < 71 && d - 55 < base else 97 <= d < 103 && d - 87 < base)
  }

  lemma {:induction false} DigitsNumeral(v: nat, base: nat, upper: bool)
    requires 2 <= base <= 16
    ensures Numeral(Digits(v, base, upper), base, v, upper)
  {
    hide Value;
    DigitsValue(v, base, upper, "");
    assert Digits(v, base, upper) + "" == Digits(v, base, upper);
    NothingMore(base, v);
    DigitsPlain(v, base, upper);
  }

  lemma {:induction false} NothingMore(base: nat, v: nat)
    ensures Value("", base, v) == v
  {
  }

  lemma {:induction false} DigitsPlain(v: nat, base: nat, upper: bool)
    requires 2 <= base <= 16
    ensures var t := Digits(v, base, upper);
            t != "" && (v > 0 ==> t[0] != '0') && (v == 0 ==> t == "0") && forall i :: 0 <= i < |t| ==> DigitOf(t[i], base, upper)
  {
    if v >= base {
      Halves(v, base);
      DigitsPlain(v / base, base, upper);
      Quotient(v, base);
    }
  }

  lemma {:induction false} Quotient(v: nat, base: nat)
    requires base > 0 && v >= base
    ensures v / base > 0
  {
    assert v == base * (v / base) + v % base;
  }

  /** %d: a minus sign or the sign flag, then the digits; nothing for zero with precision zero. */
  lemma {:induction false} SignedPayload(s: Spec, args: seq<Arg>)
    requires s.conv == Signed && args != [] && args[0].Int?
    ensures var v, p := AsSigned(args[0].value, Modulus(s.length)), Convert(s, args);
            && p.sign == (if v < 0 then "-" else s.sign) && p.prefix == "" && p.isZero == (v == 0) && p.prec == s.prec
            && (if v == 0 && s.precGiven != Absent && s.prec == 0 then p.body == "" else Numeral(p.body, 10, Abs(v), s.upper))
  {
    hide Digits, AsSigned, Numeral;
    DigitsNumeral(Abs(AsSigned(args[0].value, Modulus(s.length))), 10, s.upper);
  }

  /** %u, %o, %x, %b: the digits, and with # a prefix for a number that is not zero. */
  lemma {:induction false} UnsignedPayload(s: Spec, args: seq<Arg>)
    requires s.conv in {Unsigned, Octal, Hex, Binary} && args != [] && args[0].Int?
    ensures var v, p := AsUnsigned(args[0].value, Modulus(s.length)), Convert(s, args);
            var base := match s.conv case Unsigned => 10 case Octal => 8 case Hex => 16 case _ => 2;
            var none := v == 0 && s.precGiven != Absent && s.prec == 0;
            && p.sign == "" && p.isZero == (v == 0)
            && (p.prefix == if s.alt && v != 0 && s.conv == Hex then (if s.upper then "0X" else "0x")
                            else if s.alt && v != 0 && s.conv == Binary then (if s.upper then "0B" else "0b")
                            else "")
            && (none ==> p.body == "") && (none && s.conv == Octal && s.alt ==> p.prec == 1)
            && (!none && s.conv == Octal && s.alt && v != 0 ==> |p.body| > 1 && p.body[0] == '0' && Numeral(p.body[1..], 8, v, s.upper))
            && (!none && !(s.conv == Octal && s.alt && v != 0) ==> Numeral(p.body, base, v, s.upper))
            && (!(none && s.conv == Octal && s.alt) ==> p.prec == s.prec)
  {
    hide Digits, AsUnsigned, Numeral;
    var v := AsUnsigned(args[0].value, Modulus(s.length));
    DigitsNumeral(v, BaseOf(s.conv), s.upper);
    assert ("0" + Digits(v, BaseOf(s.conv), s.upper))[1..] == Digits(v, BaseOf(s.conv), s.upper);
  }

  /** %p: 0x and the digits of the word. */
  lemma {:induction false} PointerPayload(s: Spec, args: seq<Arg>)
    requires s.conv == Pointer && args != [] && args[0].Int?
    ensures var p := Convert(s, args);
            p.sign == "" && p.prefix == "0x" && Numeral(p.body, 16, AsUnsigned(args[0].value, TWO64), false)
  {
    hide Digits, AsUnsigned, Numeral;
    DigitsNumeral(AsUnsigned(args[0].value, TWO64), 16, false);
  }

  // ---------------------------------------------------------------------------
  // Layout

  /** Zeros up to the precision in front of the digits, but not in front of a text. */
  function Shown(s: Spec, p: Piece): string {
    Repeat('0', if s.conv == Text then 0 else p.prec - |p.body|) + p.body
  }

  /**
   Blanks go to the left of the whole or, if left-justified, to its right; zeros go between sign
   and prefix and the digits. There are as many as are missing to the width.
   */
  lemma {:induction false} Justified(s: Spec, p: Piece)
    ensures var whole, field, shown := p.prefix + p.sign + Shown(s, p), Layout(s, p), Shown(s, p);
            var missing := Max(0, if s.width > |whole| then s.width - |whole| else 0);
            && (s.widthGiven == Absent ==> field == whole)
            && (s.widthGiven != Absent && !s.zero && !s.left ==> field == Repeat(' ', missing) + whole)
            && (s.widthGiven != Absent && !s.zero && s.left ==> field == whole + Repeat(' ', missing))
            && (s.widthGiven != Absent && s.zero && !s.left && s.conv in {Signed, Unsigned, Octal, Hex, Binary, Pointer}
                && !(s.precGiven != Absent && p.prec == 0 && p.isZero) ==>
                  field == p.sign + p.prefix + Repeat('0', missing) + shown)
  {
    var n := if s.conv == Text then 0 else p.prec - |p.body|;
    SameRepeat('0', n, PrecPad(s, p));
    var digits := Shown(s, p);
    assert p.prefix + (p.sign + digits) == p.prefix + p.sign + digits;
    var fill := FieldPad(s, p);
    assert Repeat(' ', fill) + (p.prefix + (p.sign + digits)) == Repeat(' ', fill) + (p.prefix + p.sign + digits);
    assert p.sign + p.prefix + (Repeat('0', fill) + digits) == p.sign + p.prefix + Repeat('0', fill) + digits;
  }

  lemma {:induction false} SameRepeat(c: char, m: int, n: int)
    requires (if m > 0 then m else 0) == if n > 0 then n else 0
    ensures Repeat(c, m) == Repeat(c, n)
  {
  }

  // ---------------------------------------------------------------------------
  // Formats

  /** Text without percent signs is printed as it is. */
  lemma {:induction false} PlainText(f: string, i: nat, args: seq<Arg>)
    requires i <= |f| && forall k :: i <= k < |f| ==> f[k] != '%' && f[k] != '\0'
    ensures Output(f, i, args) == f[i..]
    decreases |f| - i
  {
    if i < |f| {
      PlainText(f, i + 1, args);
      assert f[i..] == [f[i]] + f[i + 1..];
    }
  }
}
