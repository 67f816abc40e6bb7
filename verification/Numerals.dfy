/** Numbers as text: the digits `npf_utoa_rev` writes, and reading them back. */
module Numerals {
  import opened Word64

  /** NANOPRINTF_CONVERSION_BUFFER_SIZE. */
  const BUFFER: nat := 23

  function DigitChar(d: nat, upper: bool): char
    requires d < 16
  {
    if d < 10 then '0' + d as char
    else if upper then 'A' + (d - 10) as char
    else 'a' + (d - 10) as char
  }

  /** The value of a digit in a base, if the character is one. */
  function DigitValue(c: char, base: nat): Option<nat> {
    var d :=
      if '0' <= c <= '9' then (c - '0') as nat
      else if 'a' <= c <= 'f' then (c - 'a') as nat + 10
      else if 'A' <= c <= 'F' then (c - 'A') as nat + 10
      else 16;
    if d < base then Some(d) else None
  }

  lemma {:induction false} DigitRound(d: nat, upper: bool, base: nat)
    requires d < base <= 16
    ensures DigitValue(DigitChar(d, upper), base) == Some(d)
  {
  }

  /** A number in a base, most significant digit first. */
  function Digits(v: nat, base: nat, upper: bool): (s: string)
    requires 2 <= base <= 16
    ensures |s| > 0
  {
    if v < base then [DigitChar(v, upper)] else Digits(v / base, base, upper) + [DigitChar(v % base, upper)]
  }

  /** The number that leading digits denote, taken up from `acc`; it ends at the first other character. */
  function Value(s: string, base: nat, acc: nat): nat {
    if s == [] || DigitValue(s[0], base).None? then acc
    else Value(s[1..], base, acc * base + DigitValue(s[0], base).value)
  }

  function Power(b: nat, n: nat): nat {
    if n == 0 then 1 else b * Power(b, n - 1)
  }

  /** Reading a number's digits, then whatever follows, continues from the number. */
  lemma {:induction false} DigitsValue(v: nat, base: nat, upper: bool, rest: string)
    requires 2 <= base <= 16
    ensures Value(Digits(v, base, upper) + rest, base, 0) == Value(rest, base, v)
  {
    hide DigitChar, DigitValue, Value;
    if v < base {
      DigitStep(v, upper, base, rest, 0);
      assert 0 * base + v == v;
    } else {
      var q, r := v / base, v % base;
      var ds, c := Digits(q, base, upper), DigitChar(r, upper);
      Halves(v, base);
      DigitsValue(q, base, upper, [c] + rest);
      DigitStep(r, upper, base, rest, q);
      assert (ds + [c]) + rest == ds + ([c] + rest);
      Split(v, base);
    }
  }

  lemma {:induction false} Split(v: nat, b: nat)
    requires b > 0
    ensures v == v / b * b + v % b
  {
  }

  lemma {:induction false} DigitStep(d: nat, upper: bool, base: nat, rest: string, acc: nat)
    requires d < base <= 16
    ensures Value([DigitChar(d, upper)] + rest, base, acc) == Value(rest, base, acc * base + d)
  {
    var c := DigitChar(d, upper);
    DigitRound(d, upper, base);
    assert ([c] + rest)[0] == c && ([c] + rest)[1..] == rest;
  }

  /** How long a number gets: `n` digits reach exactly below the `n`th power. */
  lemma {:induction false} DigitsLength(v: nat, base: nat, upper: bool, n: nat)
    requires 2 <= base <= 16 && n > 0
    ensures |Digits(v, base, upper)| <= n <==> v < Power(base, n)
  {
    assert Power(base, 0) == 1 && Power(base, 1) == base * 1;
    if v >= base {
      if n == 1 {
        assert |Digits(v, base, upper)| > 1;
      } else {
        Halves(v, base);
        DigitsLength(v / base, base, upper, n - 1);
        Quotient(v, base, Power(base, n - 1));
      }
    } else {
      AtLeastBase(base, n);
    }
  }

  lemma {:induction false} Quotient(v: nat, b: nat, p: nat)
    requires b > 0
    ensures v / b < p <==> v < b * p
  {
    var q := v / b;
    assert v == b * q + v % b;
    assert b * p == b * q + b * (p - q);
    if q < p {
      MulAtLeast(b, p - q);
    } else if p < q {
      MulAtLeast(b, p - q);
    }
  }

  lemma {:induction false} AtLeastBase(b: nat, n: nat)
    requires b > 0 && n > 0
    ensures Power(b, n) >= b
  {
    if n == 1 {
      assert Power(b, 1) == b * Power(b, 0);
    } else {
      AtLeastBase(b, n - 1);
      MulAtLeast(b, Power(b, n - 1));
    }
  }

  /** A 64-bit number has at most 22 digits from base 8 on, and at most 64 in base 2. */
  lemma {:induction false} WordDigits(v: nat, base: nat, upper: bool)
    requires v < TWO64 && (base == 8 || base == 10 || base == 16)
    ensures |Digits(v, base, upper)| <= BUFFER - 1
  {
    DigitsLength(v, base, upper, 22);
    BigPower(base);
  }

  lemma {:induction false} BigPower(base: nat)
    requires 8 <= base
    ensures Power(base, 22) >= TWO64
  {
    PowerGrows(8, base, 22);
    Power8(0); Power8(4); Power8(8); Power8(12); Power8(16);
    assert Power(8, 0) == 1;
    assert Power(8, 22) == 8 * Power(8, 21) && Power(8, 21) == 8 * Power(8, 20);
  }

  lemma {:induction false} Power8(n: nat)
    ensures Power(8, n + 4) == 4096 * Power(8, n)
  {
    assert Power(8, n + 2) == 64 * Power(8, n);
    assert Power(8, n + 4) == 64 * Power(8, n + 2);
  }

  lemma {:induction false} PowerGrows(a: nat, b: nat, n: nat)
    requires a <= b
    ensures Power(a, n) <= Power(b, n)
  {
    if n > 0 {
      PowerGrows(a, b, n - 1);
      Product(a, b, Power(a, n - 1), Power(b, n - 1));
    }
  }

  lemma {:induction false} Product(a: nat, b: nat, p: nat, q: nat)
    requires a <= b && p <= q
    ensures a * p <= b * q
  {
    var d, e := b - a, q - p;
    assert b * q == a * p + a * e + d * q;
  }

  /** `npf_utoa_rev`: digits from the least significant on, into the conversion buffer. */
  method UtoaRev(val: nat, buf: array<char>, base: nat, upper: bool) returns (n: nat)
    requires buf.Length == BUFFER && val < TWO64 && (base == 8 || base == 10 || base == 16)
    modifies buf
    ensures n == |Digits(val, base, upper)| <= BUFFER - 1
    ensures forall i :: 0 <= i < n ==> buf[i] == Digits(val, base, upper)[n - 1 - i]
  {
    hide Digits, DigitChar, Power;
    WordDigits(val, base, upper);
    ghost var all := Digits(val, base, upper);
    var v: nat := val;
    Unfold(v, base, upper);
    buf[0] := DigitChar(v % base, upper);
    n, v := 1, v / base;
    while v != 0
      invariant 1 <= n <= |all| && v < TWO64
      invariant |all| == n + (if v == 0 then 0 else |Digits(v, base, upper)|)
      invariant v != 0 ==> all[..|all| - n] == Digits(v, base, upper)
      invariant forall i :: 0 <= i < n ==> buf[i] == all[|all| - 1 - i]
      decreases v
    {
      Unfold(v, base, upper);
      buf[n] := DigitChar(v % base, upper);
      assert all[|all| - n - 1] == Digits(v, base, upper)[|Digits(v, base, upper)| - 1];
      if v >= base {
        assert all[..|all| - n - 1] == all[..|all| - n][..|all| - n - 1];
      }
      n, v := n + 1, v / base;
    }
  }

  lemma {:induction false} Unfold(v: nat, base: nat, upper: bool)
    requires 2 <= base <= 16
    ensures var s := Digits(v, base, upper);
            && s[|s| - 1] == DigitChar(v % base, upper)
            && (v < base ==> |s| == 1 && v / base == 0)
            && (v >= base ==> v / base > 0 && v / base < v && s[..|s| - 1] == Digits(v / base, base, upper))
  {
    if v < base {
      DivUnique(v, base, 0);
      assert v == base * (v / base) + v % base;
    } else {
      Halves(v, base);
    }
  }

  lemma {:induction false} Halves(v: nat, base: nat)
    requires 2 <= base <= v
    ensures 0 < v / base < v
  {
    Quotient(v, base, 1);
    Quotient(v, base, v);
    assert base * v == v + (base - 1) * v;
    MulAtLeast(v, base - 1);
  }
}
