/** 64-bit words as naturals below 2^64, with the C wrap-around written out. */
module Word64 {

  const TWO64: nat := 0x1_0000_0000_0000_0000

  datatype Option<+T> = None | Some(value: T)

  /** The value a 64-bit unsigned register holds after computing `x`. */
  function Wrap(x: int): (r: nat)
    ensures r < TWO64
    ensures 0 <= x < TWO64 ==> r == x
  {
    x % TWO64
  }

  /** Wrapping an operand first does not change a wrapped sum. */
  lemma {:induction false} WrapShift(x: int, d: int)
    ensures Wrap(Wrap(x) + d) == Wrap(x + d)
  {
  }

  function Max(a: nat, b: nat): nat { if a > b then a else b }

  function Min(a: nat, b: nat): nat { if a < b then a else b }

  function Pow2(n: nat): (r: nat)
    ensures r > 0
  {
    if n == 0 then 1 else 2 * Pow2(n - 1)
  }

  /** `a` is a power of two that fits a 64-bit register. */
  ghost predicate IsPow2(a: nat) {
    exists k: nat :: k < 64 && a == Pow2(k)
  }

  /** The index of the highest set bit: 63 - clz. */
  function Log2(x: nat): (r: nat)
    requires x > 0
  {
    if x == 1 then 0 else 1 + Log2(x / 2)
  }

  lemma {:induction false} Log2Bounds(x: nat)
    requires x > 0
    ensures Pow2(Log2(x)) <= x < Pow2(Log2(x) + 1)
  {
    if x > 1 {
      Log2Bounds(x / 2);
    }
  }

  lemma {:induction false} Pow2Monotone(m: nat, n: nat)
    requires m <= n
    ensures Pow2(m) <= Pow2(n)
    decreases n - m
  {
    if m < n {
      Pow2Monotone(m + 1, n);
    }
  }

  lemma {:induction false} Log2Monotone(x: nat, y: nat)
    requires 0 < x <= y
    ensures Log2(x) <= Log2(y)
  {
    Log2Bounds(x);
    Log2Bounds(y);
    if Log2(y) < Log2(x) {
      Pow2Monotone(Log2(y) + 1, Log2(x));
      assert false;
    }
  }

  lemma {:induction false} Pow2Plus8(n: nat)
    ensures Pow2(n + 8) == 256 * Pow2(n)
  {
    assert Pow2(n + 2) == 4 * Pow2(n);
    assert Pow2(n + 4) == 4 * Pow2(n + 2);
    assert Pow2(n + 6) == 4 * Pow2(n + 4);
  }

  lemma {:induction false} Pow2Of64()
    ensures Pow2(64) == TWO64
  {
    assert Pow2(0) == 1;
    Pow2Plus8(0);
    Pow2Plus8(8);
    Pow2Plus8(16);
    Pow2Plus8(24);
    Pow2Plus8(32);
    Pow2Plus8(40);
    Pow2Plus8(48);
    Pow2Plus8(56);
  }

  lemma {:induction false} Log2Below64(x: nat)
    requires 0 < x < TWO64
    ensures Log2(x) < 64
  {
    Log2Bounds(x);
    Pow2Of64();
    if Log2(x) >= 64 {
      Pow2Monotone(64, Log2(x));
      assert false;
    }
  }

  lemma {:induction false} Pow2DividesPow2(m: nat, n: nat)
    requires m <= n
    ensures Pow2(n) % Pow2(m) == 0
  {
    if m < n {
      Pow2DividesPow2(m, n - 1);
      MultipleSum(Pow2(n - 1), Pow2(n - 1), Pow2(m));
    } else {
      ModOffset(1, 0, Pow2(m));
    }
  }

  /** A power of two below 2^64 divides 2^64. */
  lemma {:induction false} Pow2Divides(a: nat)
    requires IsPow2(a)
    ensures 0 < a < TWO64 && TWO64 % a == 0
  {
    var k: nat :| k < 64 && a == Pow2(k);
    Pow2Of64();
    Pow2Monotone(k, 63);
    Pow2DividesPow2(k, 64);
  }

  lemma {:induction false} MulAtLeast(a: nat, k: int)
    ensures k >= 1 ==> a * k >= a
    ensures k <= -1 ==> a * k + a <= 0
  {
    if k >= 1 {
      assert a * k == a + a * (k - 1);
    } else if k <= -1 {
      assert a * k == a * (k + 1) - a;
    }
  }

  lemma {:induction false} MultipleMod(q: nat, a: nat)
    requires a > 0
    ensures (a * q) % a == 0
  {
    ModOffset(q, 0, a);
  }

  /** Adding a multiple of `a` does not change a remainder. */
  lemma {:induction false} ModOffset(q: int, r: nat, a: nat)
    requires r < a
    ensures (a * q + r) % a == r
  {
    var x := a * q + r;
    var p, m := x / a, x % a;
    assert x == a * p + m;
    Scaled(a, p, q, m - r);
  }

  /** A multiple of `a` smaller than `a` is zero. */
  lemma {:induction false} Scaled(a: nat, p: int, q: int, d: int)
    requires a * q == a * p + d && 0 < d + a && d < a
    ensures d == 0
  {
    assert a * (q - p) == d;
    MulAtLeast(a, q - p);
  }

  /** Two numbers with one remainder that are less than `a` apart are equal. */
  lemma {:induction false} ModUnique(x: nat, y: nat, a: nat)
    requires a > 0 && x % a == y % a && x <= y < x + a
    ensures x == y
  {
    var p, q, m := x / a, y / a, x % a;
    assert x == a * p + m;
    assert y == a * q + m;
    Scaled(a, p, q, y - x);
  }

  /** Sums of multiples are multiples, in both directions. */
  lemma {:induction false} MultipleSum(x: nat, y: nat, a: nat)
    requires a > 0 && x % a == 0
    ensures (x + y) % a == y % a
    ensures x >= y && y % a == 0 ==> (x - y) % a == 0
  {
    var p, q := x / a, y / a;
    assert x == a * p && y == a * q + y % a;
    assert x + y == a * (p + q) + y % a by { assert a * (p + q) == a * p + a * q; }
    ModOffset(p + q, y % a, a);
    if x >= y && y % a == 0 {
      assert x - y == a * (p - q) + 0 by { assert a * (p - q) == a * p - a * q; }
      ModOffset(p - q, 0, a);
    }
  }

  /** Divisibility is transitive. */
  lemma {:induction false} MultipleTransitive(x: nat, a: nat, b: nat)
    requires a > 0 && b > 0 && x % a == 0 && a % b == 0
    ensures x % b == 0
  {
    var p, q := x / a, a / b;
    assert x == a * p && a == b * q;
    assert x == b * (q * p) by { assert (b * q) * p == b * (q * p); }
    ModOffset(q * p, 0, b);
  }

  lemma {:induction false} DivUnique(x: nat, a: nat, k: nat)
    requires a > 0 && a * k <= x < a * k + a
    ensures x / a == k
  {
    var q, m := x / a, x % a;
    assert x == a * q + m;
    var d := x - a * k;
    assert a * k == a * q + (m - d);
    Scaled(a, q, k, m - d);
    assert a * k == a * q;
    MulInjective(a, k, q);
  }

  lemma {:induction false} MulInjective(a: nat, k: nat, q: nat)
    requires a > 0 && a * k == a * q
    ensures k == q
  {
    assert a * (k - q) == 0;
    MulAtLeast(a, k - q);
  }
}
