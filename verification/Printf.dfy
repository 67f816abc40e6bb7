/** `npf_vpprintf` and `npf_vsnprintf`: printing character by character into a buffer that may be too small. */
module Printf {
  import opened Word64
  import opened Numerals
  import opened Format

  /**
   The counting and the bounded output function together. `all` is everything printed so far,
   whether it was stored or not; `before` is what the buffer held at first.
   */
  class Sink {
    const dst: array?<char>
    var cur: nat
    var n: nat
    ghost var all: string
    ghost const before: string

    ghost function Frame(): set<object> {
      if dst == null then {this} else {this, dst}
    }

    ghost predicate Valid()
      reads Frame()
    {
      && n == |all|
      && (dst != null ==>
            && |before| == dst.Length && cur == Min(n, dst.Length)
            && dst[..cur] == all[..cur] && dst[cur..] == before[cur..])
    }

    constructor (dst: array?<char>)
      ensures Valid() && all == "" && n == 0 && this.dst == dst && (dst != null ==> before == dst[..])
    {
      this.dst := dst;
      cur, n, all := 0, 0, "";
      before := if dst == null then "" else dst[..];
    }

    /** `npf_putc_cnt` with `npf_bufputc`, or `npf_bufputc_nop` where there is no buffer. */
    method Put(c: char)
      requires Valid()
      modifies Frame()
      ensures Valid() && all == old(all) + [c]
    {
      n := n + 1;
      all := all + [c];
      if dst != null && cur < dst.Length {
        dst[cur] := c;
        cur := cur + 1;
      }
    }

    method PutRepeat(c: char, count: int)
      requires Valid()
      modifies Frame()
      ensures Valid() && all == old(all) + Repeat(c, count)
    {
      var left := count;
      while left > 0
        invariant Valid() && (left >= 0 || left == count)
        invariant all + Repeat(c, left) == old(all) + Repeat(c, count)
        decreases left
      {
        assert all + ([c] + Repeat(c, left - 1)) == (all + [c]) + Repeat(c, left - 1);
        Put(c);
        left := left - 1;
      }
      assert all + Repeat(c, left) == all;
    }

    method PutText(s: string)
      requires Valid()
      modifies Frame()
      ensures Valid() && all == old(all) + s
    {
      var i := 0;
      assert s[..0] == "";
      while i < |s|
        invariant i <= |s| && Valid() && all == old(all) + s[..i]
      {
        assert s[..i + 1] == s[..i] + [s[i]];
        Put(s[i]);
        i := i + 1;
      }
      assert s[..|s|] == s;
    }

    /** The conversion buffer holds the digits in reverse. */
    method PutReversed(buf: array<char>, len: nat)
      requires Valid() && len <= buf.Length && buf != dst
      modifies Frame()
      ensures Valid() && all == old(all) + Reversed(buf[..len])
    {
      var left := len;
      ghost var s := buf[..len];
      assert s[..len] == s;
      while left > 0
        invariant 0 <= left <= len && Valid() && buf[..len] == s
        invariant all + Reversed(s[..left]) == old(all) + Reversed(s)
      {
        ReversedLast(s[..left]);
        assert s[..left][..left - 1] == s[..left - 1];
        assert all + ([s[left - 1]] + Reversed(s[..left - 1])) == (all + [s[left - 1]]) + Reversed(s[..left - 1]);
        left := left - 1;
        assert buf[left] == s[left];
        Put(buf[left]);
      }
      assert s[..0] == "" && all + "" == all;
    }

    /** The bits of a number, the most significant of `len` first. */
    method PutBinary(v: nat, len: nat)
      requires Valid() && len == |Digits(v, 2, false)|
      modifies Frame()
      ensures Valid() && all == old(all) + Digits(v, 2, false)
    {
      hide Digits, Pow2;
      ghost var s := Digits(v, 2, false);
      var left := len;
      assert s[..0] == "" && s[..len] == s;
      while left > 0
        invariant 0 <= left <= len == |s| && Valid() && all == old(all) + s[..len - left]
      {
        left := left - 1;
        Bit(v, left);
        assert s[..len - left] == s[..len - left - 1] + [s[len - left - 1]];
        Put('0' + (v / Pow2(left) % 2) as char);
      }
    }
  }

  ghost function Reversed(s: string): string {
    if s == "" then "" else Reversed(s[1..]) + [s[0]]
  }

  lemma {:induction false} ReversedLast(s: string)
    requires s != ""
    ensures Reversed(s) == [s[|s| - 1]] + Reversed(s[..|s| - 1])
  {
    if |s| > 1 {
      ReversedLast(s[1..]);
      assert s[1..][..|s| - 2] == s[..|s| - 1][1..];
    }
  }

  lemma {:induction false} ReversedAt(s: string, t: string)
    requires |s| == |t| && forall i :: 0 <= i < |s| ==> s[i] == t[|t| - 1 - i]
    ensures Reversed(s) == t
  {
    if s != "" {
      var u := t[..|t| - 1];
      ReversedAt(s[1..], u);
      assert t == u + [s[0]];
    }
  }

  /** A bit of a number is a digit of its binary text. */
  lemma {:induction false} Bit(v: nat, k: nat)
    requires k < |Digits(v, 2, false)|
    ensures Digits(v, 2, false)[|Digits(v, 2, false)| - 1 - k] == '0' + (v / Pow2(k) % 2) as char
    decreases k
  {
    if k > 0 {
      Bit(v / 2, k - 1);
      HalfShift(v, k);
    }
  }

  lemma {:induction false} HalfShift(v: nat, k: nat)
    requires k > 0
    ensures v / 2 / Pow2(k - 1) == v / Pow2(k)
  {
    var p := Pow2(k - 1);
    assert Pow2(k) == 2 * p;
    var q := v / (2 * p);
    var r := v % (2 * p);
    assert v == (2 * p) * q + r;
    assert (2 * p) * q == 2 * (p * q);
    assert v / 2 == p * q + r / 2;
    assert r / 2 < p;
    DivUnique(v / 2, p, q);
  }

  /** `npf_bin_len`. */
  method BinLen(v: nat) returns (n: nat)
    ensures n == |Digits(v, 2, false)|
  {
    if v == 0 {
      return 1;
    }
    var u := v;
    n := 0;
    while u != 0
      invariant |Digits(v, 2, false)| == n + (if u == 0 then 0 else |Digits(u, 2, false)|)
      decreases u
    {
      n, u := n + 1, u / 2;
    }
  }

  // ---------------------------------------------------------------------------
  // npf_parse_format_spec

  method ParseDigits(f: string, i: nat) returns (n: nat, cur: nat)
    requires i <= |f|
    ensures (n, cur) == ParseNumber(f, i, 0)
  {
    n, cur := 0, i;
    while cur < |f| && IsDecimal(f[cur])
      invariant i <= cur <= |f| && ParseNumber(f, cur, n) == ParseNumber(f, i, 0)
      decreases |f| - cur
    {
      n, cur := n * 10 + (f[cur] - '0') as nat, cur + 1;
    }
  }

  method ParseFlagsAt(f: string, i: nat) returns (g: Flags, cur: nat)
    requires i <= |f|
    ensures (g, cur) == ParseFlags(f, i, Flags(false, false, "", false))
  {
    hide Flagged;
    g, cur := Flags(false, false, "", false), i;
    while cur < |f| && IsFlag(f[cur])
      invariant i <= cur <= |f|
      invariant ParseFlags(f, cur, g) == ParseFlags(f, i, Flags(false, false, "", false))
      decreases |f| - cur
    {
      g, cur := Flagged(g, f[cur]), cur + 1;
    }
  }

  method ParseWidthAt(f: string, i: nat) returns (width: int, given: Given, cur: nat)
    requires i <= |f|
    ensures (width, given, cur) == ParseWidth(f, i)
  {
    hide ParseNumber;
    width, given, cur := 0, Absent, i;
    if At(f, cur) == '*' {
      return 0, Star, cur + 1;
    }
    if IsDecimal(At(f, cur)) {
      given := Literal;
    }
    width, cur := ParseDigits(f, cur);
  }

  method ParsePrecisionAt(f: string, i: nat) returns (prec: int, given: Given, cur: nat)
    requires i <= |f|
    ensures (prec, given, cur) == ParsePrecision(f, i)
  {
    hide ParseNumber;
    prec, given, cur := 0, Absent, i;
    if At(f, cur) == '.' {
      cur := cur + 1;
      if At(f, cur) == '*' {
        return 0, Star, cur + 1;
      }
      if At(f, cur) == '-' {
        cur := cur + 1;
      } else {
        given := Literal;
      }
      prec, cur := ParseDigits(f, cur);
    }
  }

  /** `npf_parse_format_spec`, with the cursor on a '%'. It never moves past the terminator. */
  method ParseFormatSpec(f: string, i: nat) returns (r: Option<(Spec, nat)>)
    requires i < |f|
    ensures r == Parse(f, i) && (r.Some? ==> r.value.1 <= |f|)
  {
    hide ParseFlags, ParseWidth, ParsePrecision, ParseLength, ConvOf, Settle;
    var g, afterFlags := ParseFlagsAt(f, i + 1);
    var width, widthGiven, afterWidth := ParseWidthAt(f, afterFlags);
    var prec, precGiven, afterPrec := ParsePrecisionAt(f, afterWidth);
    var l := ParseLength(f, afterPrec);
    var c := At(f, l.1);
    var conv := ConvOf(c);
    if conv == None {
      return None;
    }
    var z := Settle(c, conv.value, g.zero, precGiven);
    r := Some((Spec(width, widthGiven, g.left, z.0, prec, z.1, g.sign, g.alt, c == 'X' || c == 'B', l.0, conv.value), l.1 + 1));
  }

  // ---------------------------------------------------------------------------
  // One conversion

  /** How much of a string the precision lets through. */
  method TextLength(s: Spec, t: string) returns (len: nat)
    ensures len <= |t| && t[..len] == Cut(s, t)
  {
    len := 0;
    while (s.precGiven == Absent || len < s.prec) && len < |t|
      invariant len <= |t| && (len > 0 && s.precGiven != Absent ==> len <= s.prec)
    {
      len := len + 1;
    }
  }

  /** The converted argument: in the buffer in reverse, or left where it is. */
  ghost predicate Holds(s: Spec, args: seq<Arg>, body: string, buf: seq<char>, len: nat) {
    && |body| == len
    && (if s.conv == Text then len <= |TextOf(args)| && body == TextOf(args)[..len]
        else if s.conv == Binary then
          body == "" || body == Digits(AsUnsigned(IntOf(args), Modulus(s.length)), 2, false)
        else len <= |buf| && Reversed(buf[..len]) == body)
  }

  lemma {:induction false} ReversedMore(s: string, t: string, c: char)
    requires |s| == |t| && forall i :: 0 <= i < |s| ==> s[i] == t[|t| - 1 - i]
    ensures Reversed(s + [c]) == [c] + t
  {
    ReversedAt(s + [c], [c] + t);
  }

  /** The digits of a number in the buffer, with room for the zero of the alternative octal form. */
  method ConvertNumber(v: nat, buf: array<char>, base: nat, upper: bool, zero: bool) returns (len: nat)
    requires buf.Length == BUFFER && v < TWO64 && (base == 8 || base == 10 || base == 16)
    modifies buf
    ensures len <= BUFFER && Reversed(buf[..len]) == (if zero then "0" else "") + Digits(v, base, upper)
    ensures len == |Digits(v, base, upper)| + if zero then 1 else 0
  {
    hide Digits;
    len := UtoaRev(v, buf, base, upper);
    ghost var digits := Digits(v, base, upper);
    ReversedAt(buf[..len], digits);
    if zero {
      ghost var done := buf[..len];
      buf[len] := '0';
      assert buf[..len + 1] == done + ['0'];
      ReversedMore(done, digits, '0');
      len := len + 1;
    } else {
      assert "" + digits == digits;
    }
  }

  lemma {:induction false} BinaryCase(v: nat, upper: bool)
    ensures Digits(v, 2, upper) == Digits(v, 2, false)
  {
    if v >= 2 {
      BinaryCase(v / 2, upper);
    }
  }

  /** The conversion switch of `npf_vpprintf`. */
  method ConvertArg(s: Spec, args: seq<Arg>, buf: array<char>) returns (sign: string, prefix: string, prec: int, isZero: bool, len: nat)
    requires buf.Length == BUFFER
    modifies buf
    ensures var p := Convert(s, args);
            && sign == p.sign && prefix == p.prefix && prec == p.prec && isZero == p.isZero
            && Holds(s, args, p.body, buf[..], len)
  {
    hide Digits;
    sign, prefix, prec, isZero, len := "", "", s.prec, false, 0;
    match s.conv {
      case Percent =>
        buf[0], len := '%', 1;
        assert Reversed(buf[..1]) == "%" by { ReversedAt(buf[..1], "%"); }
      case Char =>
        buf[0], len := AsUnsigned(IntOf(args), 0x100) as char, 1;
        ReversedAt(buf[..1], [buf[0]]);
      case Text =>
        len := TextLength(s, TextOf(args));
      case Signed =>
        var v := AsSigned(IntOf(args), Modulus(s.length));
        sign, isZero := if v < 0 then "-" else s.sign, v == 0;
        if !Silent(s, v) {
          len := ConvertNumber(Abs(v), buf, 10, s.upper, false);
          assert "" + Digits(Abs(v), 10, s.upper) == Digits(Abs(v), 10, s.upper);
        } else {
          assert buf[..0] == "";
        }
      case Pointer =>
        len := ConvertNumber(AsUnsigned(IntOf(args), TWO64), buf, 16, false, false);
        assert "" + Digits(AsUnsigned(IntOf(args), TWO64), 16, false) == Digits(AsUnsigned(IntOf(args), TWO64), 16, false);
        prefix := "0x";
      case _ =>
        prefix, prec, isZero, len := ConvertUnsigned(s, AsUnsigned(IntOf(args), Modulus(s.length)), buf);
    }
  }

  method ConvertUnsigned(s: Spec, v: nat, buf: array<char>) returns (prefix: string, prec: int, isZero: bool, len: nat)
    requires buf.Length == BUFFER && v < TWO64 && (s.conv == Binary || s.conv == Octal || s.conv == Hex || s.conv == Unsigned)
    modifies buf
    ensures var p := UnsignedPiece(s, v);
            && prefix == p.prefix && prec == p.prec && isZero == p.isZero && |p.body| == len
            && (if s.conv == Binary then p.body == "" || p.body == Digits(v, 2, false)
                else len <= BUFFER && Reversed(buf[..len]) == p.body)
  {
    hide Digits;
    prefix, prec, isZero, len := "", s.prec, v == 0, 0;
    if Silent(s, v) {
      if s.conv == Octal && s.alt {
        prec := 1;
      }
      assert buf[..0] == "";
    } else if s.conv == Binary {
      len := BinLen(v);
      BinaryCase(v, s.upper);
    } else {
      var zero := v != 0 && s.alt && s.conv == Octal;
      len := ConvertNumber(v, buf, if s.conv == Octal then 8 else if s.conv == Hex then 16 else 10, s.upper, zero);
      assert "" + Digits(v, BaseOf(s.conv), s.upper) == Digits(v, BaseOf(s.conv), s.upper);
    }
    if v != 0 && s.alt {
      if s.conv == Hex {
        prefix := if s.upper then "0X" else "0x";
      } else if s.conv == Binary {
        prefix := if s.upper then "0B" else "0b";
      }
    }
  }

  /** The payload of a field. */
  method PutBody(out: Sink, s: Spec, args: seq<Arg>, buf: array<char>, len: nat, ghost body: string)
    requires out.Valid() && buf != out.dst && Holds(s, args, body, buf[..], len)
    modifies out.Frame()
    ensures out.Valid() && out.all == old(out.all) + body
  {
    hide Digits;
    if s.conv == Text {
      out.PutText(TextOf(args)[..len]);
    } else if s.conv == Binary {
      if len > 0 {
        out.PutBinary(AsUnsigned(IntOf(args), Modulus(s.length)), len);
      } else {
        assert old(out.all) + "" == old(out.all);
      }
    } else {
      assert buf[..][..len] == buf[..len];
      out.PutReversed(buf, len);
    }
  }

  /** Widths and precisions given as arguments. */
  method StarArgs(spec: Spec, given: seq<Arg>) returns (s: Spec, args: seq<Arg>)
    ensures (s, args) == Starred(spec, given)
  {
    hide AsSigned;
    s, args := spec, given;
    if s.widthGiven == Star {
      var w := AsSigned(IntOf(args), TWO32);
      s, args := if w < 0 then s.(width := -w, left := true) else s.(width := w), Rest(args);
    }
    if s.precGiven == Star {
      var p := AsSigned(IntOf(args), TWO32);
      s, args := s.(prec := p, precGiven := if p < 0 then Absent else Star), Rest(args);
    }
  }

  /** One format specification. */
  method Print(out: Sink, spec: Spec, given: seq<Arg>) returns (rest: seq<Arg>)
    requires out.Valid()
    modifies out.Frame()
    ensures out.Valid() && out.all == old(out.all) + Render(spec, given) && rest == After(spec, given)
  {
    hide Digits, Convert, Repeat, Sink.Valid, Holds, Layout, Starred;
    var s, args := StarArgs(spec, given);
    var buf := new char[BUFFER];
    var sign, prefix, prec, isZero, len := ConvertArg(s, args, buf);
    ghost var p := Convert(s, args);
    BodyLength(s, args, p.body, buf[..], len);
    var precPad := if s.conv == Text || prec <= len then 0 else prec - len;
    var fieldPad := s.width - len - |sign| - |prefix| - precPad;
    var pad := None;
    if s.widthGiven != Absent {
      if !s.zero {
        pad := Some(' ');
      } else if s.conv != Text && s.conv != Char && s.conv != Percent {
        pad := if s.precGiven != Absent && prec == 0 && isZero then Some(' ') else Some('0');
      }
    }
    PrintField(out, s, args, p, sign, prefix, buf, len, precPad, fieldPad, pad);
    rest := if s.conv == Percent then args else Rest(args);
  }

  lemma {:induction false} BodyLength(s: Spec, args: seq<Arg>, body: string, buf: seq<char>, len: nat)
    requires Holds(s, args, body, buf, len)
    ensures |body| == len
  {
  }

  /** What comes before the payload: padding, prefix, and the sign if zeros follow it. */
  ghost function Lead(s: Spec, p: Piece): string {
    var pad, fill := PadChar(s, p), FieldPad(s, p);
    if s.left || pad.None? then p.prefix
    else if pad.value == '0' then p.sign + p.prefix + Repeat('0', fill)
    else Repeat(pad.value, fill) + p.prefix
  }

  ghost function LateSign(s: Spec, p: Piece): string {
    if !s.left && PadChar(s, p) == Some('0') then "" else p.sign
  }

  ghost function Trail(s: Spec, p: Piece): string {
    if s.left && PadChar(s, p).Some? then Repeat(PadChar(s, p).value, FieldPad(s, p)) else ""
  }

  lemma {:induction false} Parts(s: Spec, p: Piece)
    ensures Lead(s, p) + LateSign(s, p) + Repeat('0', PrecPad(s, p)) + p.body + Trail(s, p) == Layout(s, p)
  {
    hide Repeat;
  }

  method PutLead(out: Sink, s: Spec, ghost p: Piece, first: string, prefix: string, fieldPad: int, pad: Option<char>)
    returns (sign: string)
    requires out.Valid() && pad == PadChar(s, p) && fieldPad == s.width - Natural(s, p) && first == p.sign && prefix == p.prefix
    modifies out.Frame()
    ensures out.Valid() && out.all == old(out.all) + Lead(s, p) && sign == LateSign(s, p)
  {
    hide Repeat, Sink.Valid, PadChar, Natural;
    ghost var all := out.all;
    FillIs(if pad.Some? then pad.value else ' ', fieldPad, FieldPad(s, p));
    sign := first;
    if !s.left && pad.Some? {
      if pad.value == '0' {
        out.PutText(sign);
        sign := "";
        out.PutText(prefix);
        out.PutRepeat('0', fieldPad);
        assert out.all == all + (p.sign + p.prefix + Repeat('0', FieldPad(s, p)));
      } else {
        out.PutRepeat(pad.value, fieldPad);
        out.PutText(prefix);
        assert out.all == all + (Repeat(pad.value, FieldPad(s, p)) + p.prefix);
      }
    } else {
      out.PutText(prefix);
    }
  }

  /** The field around the payload. */
  method PrintField(out: Sink, s: Spec, args: seq<Arg>, ghost p: Piece, first: string, prefix: string, buf: array<char>, len: nat,
                    precPad: nat, fieldPad: int, pad: Option<char>)
    requires first == p.sign && prefix == p.prefix && out.Valid() && buf != out.dst && Holds(s, args, p.body, buf[..], len)
    requires precPad == PrecPad(s, p) && pad == PadChar(s, p) && fieldPad == s.width - Natural(s, p)
    modifies out.Frame()
    ensures out.Valid() && out.all == old(out.all) + Layout(s, p)
  {
    hide Digits, Repeat, Sink.Valid, Holds, Lead, LateSign, Layout, PadChar, Natural, PrecPad;
    ghost var all := out.all;
    var sign := PutLead(out, s, p, first, prefix, fieldPad, pad);
    out.PutText(sign);
    out.PutRepeat('0', precPad);
    PutBody(out, s, args, buf, len, p.body);
    FillIs(if pad.Some? then pad.value else ' ', fieldPad, FieldPad(s, p));
    if s.left && pad.Some? {
      out.PutRepeat(pad.value, fieldPad);
    } else {
      assert out.all + "" == out.all;
    }
    Parts(s, p);
    Join(all, Lead(s, p), LateSign(s, p), Repeat('0', precPad), p.body, Trail(s, p));
  }

  lemma {:induction false} Join(a: string, b: string, c: string, d: string, e: string, f: string)
    ensures a + b + c + d + e + f == a + (b + c + d + e + f)
  {
  }

  lemma {:induction false} FillIs(c: char, n: int, fill: nat)
    requires fill == if n > 0 then n else 0
    ensures Repeat(c, n) == Repeat(c, fill)
  {
  }

  // ---------------------------------------------------------------------------
  // The whole format

  /** `npf_vpprintf`: what is printed depends on the format and the arguments only. */
  method Vpprintf(out: Sink, f: string, args: seq<Arg>) returns (n: nat)
    requires out.Valid() && out.all == ""
    modifies out.Frame()
    ensures out.Valid() && out.all == Output(f, 0, args) && n == |out.all|
  {
    hide Parse, Render, After, Output, Sink.Valid;
    var cur, rest := 0, args;
    assert "" + Output(f, 0, args) == Output(f, 0, args);
    while cur < |f| && f[cur] != '\0'
      invariant cur <= |f| && out.Valid() && out.all + Output(f, cur, rest) == Output(f, 0, args)
      decreases |f| - cur
    {
      OutputNext(f, cur, rest, out.all);
      var spec := None;
      if f[cur] == '%' {
        spec := ParseFormatSpec(f, cur);
      }
      if spec == None {
        out.Put(f[cur]);
        cur := cur + 1;
      } else {
        rest := Print(out, spec.value.0, rest);
        cur := spec.value.1;
      }
    }
    OutputNext(f, cur, rest, out.all);
    Counted(out);
    n := out.n;
  }

  /** One turn of the loop over the format. */
  lemma {:induction false} OutputNext(f: string, i: nat, args: seq<Arg>, all: string)
    requires i <= |f|
    ensures i == |f| || f[i] == '\0' ==> all + Output(f, i, args) == all
    ensures i < |f| && f[i] != '\0' && (f[i] != '%' || Parse(f, i).None?) ==>
              all + Output(f, i, args) == (all + [f[i]]) + Output(f, i + 1, args)
    ensures i < |f| && f[i] == '%' && Parse(f, i).Some? ==>
              var r := Parse(f, i).value;
              all + Output(f, i, args) == (all + Render(r.0, args)) + Output(f, r.1, After(r.0, args))
  {
    hide Parse, Render, After;
  }

  lemma {:induction false} Counted(out: Sink)
    requires out.Valid()
    ensures out.n == |out.all|
  {
  }

  /**
   `npf_vsnprintf`: the length of the whole output is returned whatever the buffer's size, and
   a buffer of `k` characters gets the first `k - 1` of the output, or all of it, then a zero.
   What lies behind keeps its contents, but for the last character.
   */
  method Vsnprintf(buffer: array?<char>, f: string, args: seq<Arg>) returns (n: nat)
    modifies if buffer == null then {} else {buffer}
    ensures n == |Output(f, 0, args)|
    ensures buffer != null && buffer.Length > 0 ==>
              var k := Min(n, buffer.Length - 1);
              && buffer[..k] == Output(f, 0, args)[..k] && buffer[k] == '\0' && buffer[buffer.Length - 1] == '\0'
              && forall i :: k < i < buffer.Length - 1 ==> buffer[i] == old(buffer[i])
  {
    hide Output;
    var out := new Sink(buffer);
    n := Vpprintf(out, f, args);
    ghost var text := out.all;
    out.Put('\0');
    if buffer != null && buffer.Length > 0 {
      ghost var k := Min(n, buffer.Length - 1);
      Stored(out, text, k);
      buffer[buffer.Length - 1] := '\0';
    }
  }

  lemma {:induction false} Stored(out: Sink, text: string, k: nat)
    requires out.Valid() && out.dst != null && out.all == text + ['\0'] && out.dst.Length > 0
    requires k == Min(|text|, out.dst.Length - 1)
    ensures out.dst[..k] == text[..k] && (|text| < out.dst.Length ==> out.dst[k] == '\0')
    ensures forall i :: k < i < out.dst.Length - 1 ==> out.dst[i] == out.before[i]
  {
    var d, c := out.dst, out.cur;
    assert forall i :: 0 <= i < k ==> d[i] == d[..c][i] && out.all[..c][i] == text[i];
    if |text| < d.Length {
      assert d[..c][k] == out.all[..c][k] == '\0';
    }
    forall i | k < i < d.Length - 1 ensures d[i] == out.before[i] {
      assert c <= i;
      assert d[c..][i - c] == out.before[c..][i - c];
    }
  }
}
