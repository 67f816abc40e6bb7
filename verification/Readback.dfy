/** Reading a printed integer back gives the argument. */
module Readback {
  import opened Word64
  import opened Numerals
  import opened Format

  // ---------------------------------------------------------------------------
  // A reader

  predicate HasPrefix(s: string, base: nat) {
    |s| >= 2 && s[0] == '0' && ((base == 16 && (s[1] == 'x' || s[1] == 'X')) || (base == 2 && (s[1] == 'b' || s[1] == 'B')))
  }

  /** Digits, after the prefix of the base if it is there, up to the first other character. */
  function ReadNumber(s: string, base: nat): nat {
    if HasPrefix(s, base) then Value(s[2..], base, 0) else Value(s, base, 0)
  }

  /** Blanks, an optional sign, a number. */
  function Read(s: string, base: nat): int {
    if s == [] then 0
    else if s[0] == ' ' then Read(s[1..], base)
    else if s[0] == '-' then 0 - ReadNumber(s[1..], base)
    else if s[0] == '+' then ReadNumber(s[1..], base)
    else ReadNumber(s, base)
  }

  lemma {:induction false} SkipBlanks(n: int, s: string, base: nat)
    ensures Read(Repeat(' ', n) + s, base) == Read(s, base)
    decreases n
  {
    if n > 0 {
      var t := Repeat(' ', n) + s;
      assert t[0] == ' ' && t[1..] == Repeat(' ', n - 1) + s;
      SkipBlanks(n - 1, s, base);
    } else {
      assert Repeat(' ', n) + s == s;
    }
  }

  /** Leading zeros do not count. */
  lemma {:induction false} SkipZeros(n: int, s: string, base: nat)
    requires 2 <= base <= 16
    ensures Value(Repeat('0', n) + s, base, 0) == Value(s, base, 0)
    decreases n
  {
    if n > 0 {
      var t := Repeat('0', n) + s;
      assert t[0] == '0' && t[1..] == Repeat('0', n - 1) + s;
      assert 0 * base + 0 == 0;
      SkipZeros(n - 1, s, base);
    } else {
      assert Repeat('0', n) + s == s;
    }
  }

  lemma {:induction false} StopAtBlanks(n: int, base: nat, v: nat)
    requires 2 <= base <= 16
    ensures Value(Repeat(' ', n), base, v) == v
  {
  }

  // ---------------------------------------------------------------------------
  // Digits of a base, with zeros before and blanks after

  /** Only digits and blanks. */
  predicate Clean(s: string, base: nat) {
    forall i :: 0 <= i < |s| ==> s[i] == ' ' || DigitValue(s[i], base).Some?
  }

  lemma {:induction false} DigitsClean(v: nat, base: nat, upper: bool)
    requires 2 <= base <= 16
    ensures forall i :: 0 <= i < |Digits(v, base, upper)| ==> DigitValue(Digits(v, base, upper)[i], base).Some?
  {
    hide DigitChar, DigitValue;
    if v < base {
      DigitRound(v, upper, base);
    } else {
      Halves(v, base);
      DigitsClean(v / base, base, upper);
      DigitRound(v % base, upper, base);
    }
  }

  /** Without a prefix, a number that begins with a digit is read from its start. */
  lemma {:induction false} ReadClean(s: string, base: nat)
    requires 2 <= base <= 16 && Clean(s, base)
    ensures !HasPrefix(s, base)
    ensures s != [] && s[0] != ' ' ==> Read(s, base) == Value(s, base, 0)
  {
  }

  /** The digits of a piece: zeros, the number, perhaps nothing for zero, and blanks after it. */
  ghost predicate Denotes(body: string, base: nat, v: nat) {
    && (forall i :: 0 <= i < |body| ==> DigitValue(body[i], base).Some?)
    && forall rest :: Value(body + rest, base, 0) == Value(rest, base, v)
  }

  lemma {:induction false} NumberDenotes(v: nat, base: nat, upper: bool)
    requires 2 <= base <= 16
    ensures Denotes(Digits(v, base, upper), base, v)
  {
    hide Digits, Value, DigitValue;
    DigitsClean(v, base, upper);
    forall rest ensures Value(Digits(v, base, upper) + rest, base, 0) == Value(rest, base, v) {
      DigitsValue(v, base, upper, rest);
    }
  }

  lemma {:induction false} NothingDenotes(base: nat)
    ensures Denotes("", base, 0)
  {
    hide Value;
    forall rest ensures Value("" + rest, base, 0) == Value(rest, base, 0) {
      assert "" + rest == rest;
    }
  }

  /** Zeros in front change nothing. */
  lemma {:induction false} PaddedDenotes(n: int, body: string, base: nat, v: nat)
    requires 2 <= base <= 16 && Denotes(body, base, v)
    ensures Denotes(Repeat('0', n) + body, base, v)
  {
    hide Value, Repeat;
    forall rest ensures Value((Repeat('0', n) + body) + rest, base, 0) == Value(rest, base, v) {
      assert (Repeat('0', n) + body) + rest == Repeat('0', n) + (body + rest);
      SkipZeros(n, body + rest, base);
    }
  }

  // ---------------------------------------------------------------------------
  // Fields

  /** What stands to the left of the digits, and whether it is a minus. */
  lemma {:induction false} ReadSigned(sign: string, digits: string, blanks: int, base: nat, v: nat)
    requires 2 <= base <= 16 && Denotes(digits, base, v) && (sign == "" || sign == "-" || sign == "+" || sign == " ")
    ensures Read(sign + digits + Repeat(' ', blanks), base) == if sign == "-" then 0 - v else v
  {
    hide Value, Repeat, DigitValue;
    var tail := digits + Repeat(' ', blanks);
    assert sign + digits + Repeat(' ', blanks) == sign + tail;
    ReadDigits(digits, blanks, base, v);
    if sign == "" {
      assert sign + tail == tail;
    } else {
      assert (sign + tail)[0] == sign[0] && (sign + tail)[1..] == tail;
    }
  }

  lemma {:induction false} ReadDigits(digits: string, blanks: int, base: nat, v: nat)
    requires 2 <= base <= 16 && Denotes(digits, base, v)
    ensures var tail := digits + Repeat(' ', blanks); ReadNumber(tail, base) == v && Read(tail, base) == v
  {
    hide DigitValue, Value;
    var tail := digits + Repeat(' ', blanks);
    StopAtBlanks(blanks, base, v);
    assert Clean(tail, base);
    ReadClean(tail, base);
    if digits == "" {
      assert tail == Repeat(' ', blanks) && Repeat(' ', blanks) + "" == Repeat(' ', blanks);
      SkipBlanks(blanks, "", base);
      assert Read("", base) == 0;
      assert digits + "" == "";
      assert Value(digits + "", base, 0) == Value("", base, v);
      EmptyValue(base, 0);
      EmptyValue(base, v);
    } else {
      DigitNotBlank(digits[0], base);
      assert tail[0] == digits[0];
    }
  }

  lemma {:induction false} EmptyValue(base: nat, acc: nat)
    ensures Value("", base, acc) == acc
  {
  }

  lemma {:induction false} DigitNotBlank(c: char, base: nat)
    requires base <= 16 && DigitValue(c, base).Some?
    ensures c != ' ' && c != '-' && c != '+'
  {
  }

  lemma {:induction false} ReadPrefixed(prefix: string, digits: string, blanks: int, base: nat, v: nat)
    requires Denotes(digits, base, v)
    requires (base == 16 && (prefix == "0x" || prefix == "0X")) || (base == 2 && (prefix == "0b" || prefix == "0B"))
    ensures Read(prefix + digits + Repeat(' ', blanks), base) == v
  {
    hide DigitValue, Value, Repeat;
    var tail := digits + Repeat(' ', blanks);
    var all := prefix + digits + Repeat(' ', blanks);
    assert all == prefix + tail;
    assert all[0] == prefix[0] && all[1] == prefix[1] && all[2..] == tail;
    StopAtBlanks(blanks, base, v);
  }

  /** The piece of an integer: its sign or its prefix, and digits that denote its absolute value. */
  ghost predicate PieceOf(p: Piece, base: nat, v: int) {
    && Denotes(p.body, base, Abs(v))
    && (p.prefix == "" || (p.sign == "" && v >= 0))
    && (p.sign == "-" <==> v < 0) && (p.sign == "" || p.sign == "-" || p.sign == "+" || p.sign == " ")
    && (p.prefix == "" || (base == 16 && (p.prefix == "0x" || p.prefix == "0X")) || (base == 2 && (p.prefix == "0b" || p.prefix == "0B")))
  }

  lemma {:induction false} ReadPiece(p: Piece, base: nat, v: int, zeros: int, blanks: int)
    requires 2 <= base <= 16 && PieceOf(p, base, v)
    ensures Read(p.sign + p.prefix + (Repeat('0', zeros) + p.body) + Repeat(' ', blanks), base) == v
    ensures Read(p.prefix + (p.sign + (Repeat('0', zeros) + p.body)) + Repeat(' ', blanks), base) == v
  {
    hide Denotes, Repeat, Read;
    var digits := Repeat('0', zeros) + p.body;
    PaddedDenotes(zeros, p.body, base, Abs(v));
    if p.prefix == "" {
      ReadSigned(p.sign, digits, blanks, base, Abs(v));
      assert p.sign + p.prefix + digits + Repeat(' ', blanks) == p.sign + digits + Repeat(' ', blanks);
      assert p.prefix + (p.sign + digits) + Repeat(' ', blanks) == p.sign + digits + Repeat(' ', blanks);
    } else {
      ReadPrefixed(p.prefix, digits, blanks, base, v);
      assert p.sign + p.prefix + digits + Repeat(' ', blanks) == p.prefix + digits + Repeat(' ', blanks);
      assert p.prefix + (p.sign + digits) + Repeat(' ', blanks) == p.prefix + digits + Repeat(' ', blanks);
    }
  }

  /** A zero after the digits multiplies by the base. */
  lemma {:induction false} ZeroAfter(body: string, base: nat, v: nat)
    requires 2 <= base <= 16 && Denotes(body, base, v)
    ensures Denotes(body + "0", base, v * base)
  {
    hide Value, DigitChar;
    forall rest ensures Value((body + "0") + rest, base, 0) == Value(rest, base, v * base) {
      assert (body + "0") + rest == body + ("0" + rest);
      assert DigitChar(0, false) == '0' by { ZeroChar(); }
      DigitStep(0, false, base, rest, v);
      assert ['0'] + rest == "0" + rest;
    }
  }

  lemma {:induction false} ZeroChar()
    ensures DigitChar(0, false) == '0'
  {
  }

  lemma {:induction false} ZerosAfter(n: nat, body: string, base: nat, v: nat)
    requires 2 <= base <= 16 && Denotes(body, base, v)
    ensures Denotes(body + Repeat('0', n), base, v * Power(base, n))
    decreases n
  {
    hide Denotes;
    if n == 0 {
      assert body + Repeat('0', 0) == body;
    } else {
      ZeroAfter(body, base, v);
      ZerosAfter(n - 1, body + "0", base, v * base);
      assert Repeat('0', n) == "0" + Repeat('0', n - 1);
      assert (body + "0") + Repeat('0', n - 1) == body + ("0" + Repeat('0', n - 1));
      assert v * base * Power(base, n - 1) == v * (base * Power(base, n - 1));
    }
  }

  /** What a field is read back as: zeros it is filled up with on the right count. */
  function Reads(s: Spec, p: Piece, base: nat, v: int): int {
    if s.left && PadChar(s, p) == Some('0') then v * Power(base, FieldPad(s, p)) else v
  }

  lemma {:induction false} PowerPositive(b: nat, n: nat)
    requires b > 1
    ensures Power(b, n) >= 1 && (n > 0 ==> Power(b, n) > 1)
  {
    if n > 0 {
      PowerPositive(b, n - 1);
      MulAtLeast(b, Power(b, n - 1));
    }
  }

  lemma {:induction false} ReadFilled(p: Piece, base: nat, v: int, zeros: int, fill: nat)
    requires 2 <= base <= 16 && PieceOf(p, base, v)
    ensures Read(p.prefix + (p.sign + (Repeat('0', zeros) + p.body)) + Repeat('0', fill), base) == v * Power(base, fill)
  {
    hide Denotes, Repeat, Read, Power;
    var p1, k := p.(body := p.body + Repeat('0', fill)), Power(base, fill);
    ZerosAfter(fill, p.body, base, Abs(v));
    PowerPositive(base, fill);
    MulAtLeast(k, v);
    assert v * k == k * v && Abs(v) * k == Abs(v * k) by { Magnitude(v, k); }
    ReadPiece(p1, base, v * k, zeros, 0);
    EmptyRepeat();
    assert p.prefix + (p.sign + (Repeat('0', zeros) + p.body)) + Repeat('0', fill)
           == p.prefix + (p.sign + (Repeat('0', zeros) + (p.body + Repeat('0', fill)))) + "";
  }

  lemma {:induction false} Magnitude(v: int, k: nat)
    ensures v * k == k * v && Abs(v) * k == Abs(v * k) && (k > 0 ==> (v * k < 0 <==> v < 0))
  {
  }

  /** A field that holds an integer, read back. */
  lemma {:induction false} ReadLayout(s: Spec, p: Piece, base: nat, v: int)
    requires 2 <= base <= 16 && PieceOf(p, base, v)
    ensures Read(Layout(s, p), base) == Reads(s, p, base, v)
  {
    hide Denotes, Read, PieceOf, Repeat, Power;
    var pp, fp, pad := PrecPad(s, p), FieldPad(s, p), PadChar(s, p);
    var digits := Repeat('0', pp) + p.body;
    if pad == None {
      ReadPiece(p, base, v, pp, 0);
      EmptyRepeat();
      assert p.prefix + (p.sign + digits) + "" == p.prefix + (p.sign + digits);
    } else if s.left && pad.value == '0' {
      ReadFilled(p, base, v, pp, fp);
    } else if s.left {
      ReadPiece(p, base, v, pp, fp);
    } else if pad.value == '0' {
      ZerosJoin(fp, pp, p.body);
      ReadPiece(p, base, v, fp + pp, 0);
      EmptyRepeat();
      assert Layout(s, p) + "" == Layout(s, p);
    } else {
      SkipBlanks(fp, p.prefix + (p.sign + digits), base);
      ReadPiece(p, base, v, pp, 0);
      EmptyRepeat();
      assert p.prefix + (p.sign + digits) + "" == p.prefix + (p.sign + digits);
    }
  }

  lemma {:induction false} EmptyRepeat()
    ensures Repeat(' ', 0) == ""
  {
  }

  lemma {:induction false} ZerosJoin(m: nat, n: nat, body: string)
    ensures Repeat('0', m) + (Repeat('0', n) + body) == Repeat('0', m + n) + body
    decreases m
  {
    if m > 0 {
      ZerosJoin(m - 1, n, body);
      assert Repeat('0', m) == ['0'] + Repeat('0', m - 1);
      assert Repeat('0', m + n) == ['0'] + Repeat('0', m - 1 + n);
      assert (['0'] + Repeat('0', m - 1)) + (Repeat('0', n) + body) == ['0'] + (Repeat('0', m - 1) + (Repeat('0', n) + body));
      assert (['0'] + Repeat('0', m - 1 + n)) + body == ['0'] + (Repeat('0', m - 1 + n) + body);
    } else {
      assert Repeat('0', 0) + (Repeat('0', n) + body) == Repeat('0', n) + body;
    }
  }

  // ---------------------------------------------------------------------------
  // The integer conversions

  predicate Numeric(c: Conv) {
    c == Signed || c == Unsigned || c == Octal || c == Hex || c == Binary || c == Pointer
  }

  /** The integer a numeric conversion prints: the argument as its own type. */
  function Meant(s: Spec, args: seq<Arg>): int {
    if s.conv == Signed then AsSigned(IntOf(args), Modulus(s.length))
    else if s.conv == Pointer then AsUnsigned(IntOf(args), TWO64)
    else AsUnsigned(IntOf(args), Modulus(s.length))
  }

  /** Only the signs the parser produces. */
  predicate SignOk(s: Spec) {
    s.sign == "" || s.sign == "+" || s.sign == " "
  }

  lemma {:induction false} ConvertOk(s: Spec, args: seq<Arg>)
    requires Numeric(s.conv) && SignOk(s)
    ensures PieceOf(Convert(s, args), BaseOf(s.conv), Meant(s, args))
  {
    hide Denotes, Digits;
    var base, v := BaseOf(s.conv), Meant(s, args);
    NothingDenotes(base);
    NumberDenotes(Abs(v), base, s.upper);
    NumberDenotes(Abs(v), base, false);
    if s.conv == Octal {
      LeadingZero(Digits(Abs(v), base, s.upper), base, Abs(v));
    }
  }

  lemma {:induction false} LeadingZero(body: string, base: nat, v: nat)
    requires 2 <= base <= 16 && Denotes(body, base, v)
    ensures Denotes("0" + body, base, v)
  {
    hide Denotes;
    PaddedDenotes(1, body, base, v);
    assert Repeat('0', 1) == "0" + Repeat('0', 0);
    assert Repeat('0', 1) + body == "0" + body;
  }

  /** Zeros on the right of a non-zero number: what a negative width given as an argument does under the flag '0'. */
  predicate Spoiled(s: Spec, args: seq<Arg>) {
    var t := Starred(s, args);
    var p := Convert(t.0, t.1);
    t.0.left && PadChar(t.0, p) == Some('0') && FieldPad(t.0, p) > 0 && Meant(t.0, t.1) != 0
  }

  /**
   Every integer conversion, with every combination of flags, width and precision, reads back as
   its argument, the most negative number included, if and only if it is not filled up with
   zeros on the right.
   */
  lemma {:induction false} IntegerRoundTrip(s: Spec, args: seq<Arg>)
    requires Numeric(s.conv) && SignOk(s)
    ensures var t := Starred(s, args);
            Read(Render(s, args), BaseOf(s.conv)) == Meant(t.0, t.1) <==> !Spoiled(s, args)
  {
    hide Denotes, Read, PieceOf, Layout, Power, Convert, Meant, PadChar, FieldPad, BaseOf;
    var t := Starred(s, args);
    var p, v := Convert(t.0, t.1), Meant(t.0, t.1);
    ConvertOk(t.0, t.1);
    ReadLayout(t.0, p, BaseOf(s.conv), v);
    PowerPositive(BaseOf(s.conv), FieldPad(t.0, p));
    Multiplied(v, Power(BaseOf(s.conv), FieldPad(t.0, p)));
    if FieldPad(t.0, p) == 0 {
      NoPower(BaseOf(s.conv));
    }
  }

  lemma {:induction false} Multiplied(v: int, k: nat)
    requires k >= 1
    ensures v * k == v <==> v == 0 || k == 1
  {
    if v > 0 && k > 1 {
      MulAtLeast(v, k - 1);
      assert v * k == v + v * (k - 1);
    } else if v < 0 && k > 1 {
      MulAtLeast(-v, k - 1);
      assert v * k == v - (-v) * (k - 1);
    }
  }

  lemma {:induction false} NoPower(b: nat)
    ensures Power(b, 0) == 1
  {
  }

  lemma {:induction false} FlagsExclusive(f: string, i: nat, g: Flags)
    requires !(g.left && g.zero) && (g.sign == "" || g.sign == "+" || g.sign == " ")
    ensures var r := ParseFlags(f, i, g).0; !(r.left && r.zero) && (r.sign == "" || r.sign == "+" || r.sign == " ")
    decreases |f| - i
  {
    if i < |f| && IsFlag(f[i]) {
      FlagsExclusive(f, i + 1, Flagged(g, f[i]));
    }
  }

  /** A specification written in a format, with its width written there or none, always reads back. */
  lemma {:induction false} WrittenRoundTrip(f: string, i: nat, args: seq<Arg>)
    requires i < |f| && Parse(f, i).Some? && Numeric(Parse(f, i).value.0.conv) && Parse(f, i).value.0.widthGiven != Star
    ensures var s := Parse(f, i).value.0; var t := Starred(s, args);
            Read(Render(s, args), BaseOf(s.conv)) == Meant(t.0, t.1)
  {
    hide ParseFlags, ParseWidth, ParsePrecision, ParseLength, ConvOf, Read, Render, Convert, Meant;
    var s := Parse(f, i).value.0;
    FlagsExclusive(f, i + 1, Flags(false, false, "", false));
    IntegerRoundTrip(s, args);
  }

  /** The exception: `%0*d` of -4 and 7. */
  lemma {:induction false} ZerosOnTheRight()
    ensures var s := Spec(0, Star, false, true, 0, Absent, "", false, false, Plain, Signed);
            var args := [Int(-4), Int(7)];
            Render(s, args) == "7000" && Read(Render(s, args), 10) == 7000
  {
    var s := Spec(0, Star, false, true, 0, Absent, "", false, false, Plain, Signed);
    var args := [Int(-4), Int(7)];
    var t := Starred(s, args);
    assert Rest(args) == [Int(7)];
    assert AsSigned(-4, TWO32) == -4 && AsSigned(7, TWO32) == 7;
    var p := Convert(t.0, t.1);
    assert p.body == "7";
    assert Repeat('0', 3) == "000";
    assert Layout(t.0, p) == "" + ("" + (Repeat('0', 0) + "7")) + Repeat('0', 3);
    assert Render(s, args) == "7000";
    FourDigits();
  }

  lemma {:induction false} FourDigits()
    ensures Read("7000", 10) == 7000
  {
    var s := "7000";
    assert s[1..] == "000" && s[1..][1..] == "00" && s[1..][1..][1..] == "0" && s[1..][1..][1..][1..] == "";
    assert Value("", 10, 7000) == 7000;
    assert Value("0", 10, 700) == 7000;
    assert Value("00", 10, 70) == 7000;
    assert Value("000", 10, 7) == 7000;
  }
}
