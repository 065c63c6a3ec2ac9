/** Python's integer bit operators on non-negative integers, defined bit by bit,
    and the arithmetic facts that turn masks and shifts into div and mod. */
module Bits {

  function Pow2(n: nat): (p: nat)
    ensures p > 0
  {
    if n == 0 then 1 else 2 * Pow2(n - 1)
  }

  /** `a & b` */
  function And(a: nat, b: nat): nat
  {
    if a == 0 || b == 0 then 0
    else (if a % 2 == 1 && b % 2 == 1 then 1 else 0) + 2 * And(a / 2, b / 2)
  }

  /** `a | b` */
  function Or(a: nat, b: nat): nat
    decreases a + b
  {
    if a == 0 && b == 0 then 0
    else (if a % 2 == 1 || b % 2 == 1 then 1 else 0) + 2 * Or(a / 2, b / 2)
  }

  /** `a ^ b` */
  function Xor(a: nat, b: nat): nat
    decreases a + b
  {
    if a == 0 && b == 0 then 0
    else (if a % 2 != b % 2 then 1 else 0) + 2 * Xor(a / 2, b / 2)
  }

  /** Product and quotient of natural numbers, natural again. */
  function Times(a: nat, b: nat): nat {
    a * b
  }

  function Quotient(a: nat, b: nat): nat
    requires b > 0
  {
    a / b
  }

  /** migen's slice `x[lo:lo + width]` */
  function Slice(x: nat, lo: nat, width: nat): (r: nat)
    ensures r < Pow2(width)
  {
    x / Pow2(lo) % Pow2(width)
  }

  /** migen's `bits_for(n)` for n >= 0: the width of a signal that holds n. */
  function BitsFor(n: nat): (w: nat)
    ensures n < Pow2(w)
    ensures n > 0 ==> w > 0 && Pow2(w - 1) <= n
  {
    if n <= 1 then 1 else 1 + BitsFor(n / 2)
  }

  lemma SmallMultiple(d: int, p: nat)
    ensures d == 0 || d * p >= p || d * p <= 0 - p
  {
    if d >= 1 {
      MulAtLeast(d, p);
    } else if d <= -1 {
      MulAtLeast(-d, p);
      assert (-d) * p == 0 - d * p;
    }
  }

  lemma MulAtLeast(d: nat, p: nat)
    requires d >= 1
    ensures d * p >= p
  {
    assert d * p == (d - 1) * p + p;
  }

  /** Quotient and remainder are unique. */
  lemma MulCancel(a: nat, b: nat, p: nat)
    requires p > 0
    requires b < p
    ensures (a * p + b) / p == a && (a * p + b) % p == b
  {
    var x := a * p + b;
    var q, r := x / p, x % p;
    assert x == p * q + r;
    assert (a - q) * p == a * p - q * p;
    assert (a - q) * p == r - b;
    SmallMultiple(a - q, p);
  }

  /** Stepping by one, back to 0 after `d`, counts modulo `d + 1`. */
  lemma ModuloStep(k: nat, d: nat)
    ensures (k + 1) % (d + 1) == if k % (d + 1) == d then 0 else k % (d + 1) + 1
  {
    var m := d + 1;
    var q, r := k / m, k % m;
    assert k == q * m + r;
    if r == d {
      assert k + 1 == (q + 1) * m + 0;
      MulCancel(q + 1, 0, m);
    } else {
      MulCancel(q, r + 1, m);
    }
  }

  lemma {:induction false} Pow2Add(a: nat, b: nat)
    ensures Pow2(a + b) == Pow2(a) * Pow2(b)
  {
    if a > 0 { Pow2Add(a - 1, b); }
  }

  lemma {:induction false} Pow2Monotone(a: nat, b: nat)
    requires a <= b
    ensures Pow2(a) <= Pow2(b)
  {
    if a < b { Pow2Monotone(a, b - 1); }
  }

  lemma {:induction false} OrZero(b: nat)
    ensures Or(0, b) == b
  {
    if b > 0 { OrZero(b / 2); }
  }

  /** OR of a low field with a shifted one is their sum: nothing overlaps. */
  lemma {:induction false} OrIsSum(a: nat, b: nat, n: nat)
    requires a < Pow2(n)
    ensures Or(a, b * Pow2(n)) == a + b * Pow2(n)
  {
    if n == 0 {
      OrZero(b);
    } else {
      var h := b * Pow2(n - 1);
      assert b * Pow2(n) == 2 * h;
      OrIsSum(a / 2, b, n - 1);
    }
  }

  lemma OrCommutes(a: nat, b: nat)
    ensures Or(a, b) == Or(b, a)
    decreases a + b
  {
  }

  /** Splitting off one bit of a modulus. */
  lemma ModDouble(a: nat, p: nat)
    requires p > 0
    ensures a % (2 * p) == a % 2 + 2 * (a / 2 % p)
  {
    var q, r := a / 2 / p, a / 2 % p;
    assert a / 2 == q * p + r;
    assert a == q * (2 * p) + (2 * r + a % 2);
    MulCancel(q, 2 * r + a % 2, 2 * p);
  }

  /** Masking with `2**n - 1` is reduction modulo `2**n`. */
  lemma {:induction false} AndMask(a: nat, n: nat)
    ensures And(a, Pow2(n) - 1) == a % Pow2(n)
  {
    hide And;
    if n == 0 {
      AndZero(a);
    } else {
      AndMask(a / 2, n - 1);
      ModDouble(a, Pow2(n - 1));
      AndOdd(a, Pow2(n - 1));
    }
  }

  lemma AndZero(a: nat)
    ensures And(a, 0) == 0
  {
  }

  lemma AndZeroLeft(b: nat)
    ensures And(0, b) == 0
  {
  }

  lemma AndOdd(a: nat, p: nat)
    requires p > 0
    ensures And(a, 2 * p - 1) == a % 2 + 2 * And(a / 2, p - 1)
  {
    assert (2 * p - 1) / 2 == p - 1 && (2 * p - 1) % 2 == 1;
  }

  /** Dividing by two powers one after the other. */
  /** Bit `i` of a number. */
  predicate Bit(x: nat, i: nat) {
    x / Pow2(i) % 2 == 1
  }

  lemma BitShift(x: nat, i: nat)
    ensures Bit(x, 0) <==> x % 2 == 1
    ensures i > 0 ==> (Bit(x, i) <==> Bit(x / 2, i - 1))
  {
    if i > 0 { DivDiv(x, 2, Pow2(i - 1)); }
  }

  /** The bitwise operators, bit by bit. */
  lemma {:induction false} BitwiseBits(a: nat, b: nat, i: nat)
    ensures Bit(And(a, b), i) <==> Bit(a, i) && Bit(b, i)
    ensures Bit(Or(a, b), i) <==> Bit(a, i) || Bit(b, i)
    ensures Bit(Xor(a, b), i) <==> Bit(a, i) != Bit(b, i)
    decreases i
  {
    hide Bit, And, Or, Xor;
    OneStep(a, b);
    BitShift(a, i);
    BitShift(b, i);
    BitShift(And(a, b), i);
    BitShift(Or(a, b), i);
    BitShift(Xor(a, b), i);
    if i > 0 { BitwiseBits(a / 2, b / 2, i - 1); }
  }

  /** Each operator works on the lowest bits and on the rest. */
  lemma OneStep(a: nat, b: nat)
    ensures And(a, b) / 2 == And(a / 2, b / 2) && (And(a, b) % 2 == 1 <==> a % 2 == 1 && b % 2 == 1)
    ensures Or(a, b) / 2 == Or(a / 2, b / 2) && (Or(a, b) % 2 == 1 <==> a % 2 == 1 || b % 2 == 1)
    ensures Xor(a, b) / 2 == Xor(a / 2, b / 2) && (Xor(a, b) % 2 == 1 <==> (a % 2 == 1) != (b % 2 == 1))
  {
    AndStep(a, b);
    OrStep(a, b);
    XorStep(a, b);
  }

  lemma AndStep(a: nat, b: nat)
    ensures And(a, b) / 2 == And(a / 2, b / 2) && (And(a, b) % 2 == 1 <==> a % 2 == 1 && b % 2 == 1)
  {
  }

  lemma OrStep(a: nat, b: nat)
    ensures Or(a, b) / 2 == Or(a / 2, b / 2) && (Or(a, b) % 2 == 1 <==> a % 2 == 1 || b % 2 == 1)
  {
  }

  lemma XorStep(a: nat, b: nat)
    ensures Xor(a, b) / 2 == Xor(a / 2, b / 2) && (Xor(a, b) % 2 == 1 <==> (a % 2 == 1) != (b % 2 == 1))
  {
  }

  /** XOR with all ones is the complement. */
  lemma {:induction false} XorOnes(a: nat, n: nat)
    requires a < Pow2(n)
    ensures Xor(a, Pow2(n) - 1) == Pow2(n) - 1 - a
    decreases n
  {
    if n > 0 {
      XorOnes(a / 2, n - 1);
      assert (Pow2(n) - 1) / 2 == Pow2(n - 1) - 1 && (Pow2(n) - 1) % 2 == 1;
    }
  }

  lemma DivDiv(x: nat, a: nat, b: nat)
    requires a > 0 && b > 0
    ensures x / (a * b) == x / a / b
  {
    var y, s := x / a, x % a;
    var q, r := y / b, y % b;
    assert y == b * q + r && x == a * y + s;
    DivDivArith(x, y, a, b, q, r, s);
    MulCancel(q, r * a + s, a * b);
  }

  lemma DivDivArith(x: nat, y: nat, a: nat, b: nat, q: nat, r: nat, s: nat)
    requires y == b * q + r && x == a * y + s && r < b && s < a
    ensures x == q * (a * b) + (r * a + s) && r * a + s < a * b
  {
    assert a * y == a * (b * q) + a * r;
    assert a * (b * q) == q * (a * b);
    MulAtLeast(b - r, a);
    assert (b - r) * a == a * b - r * a;
  }

  lemma ModSmall(a: nat, m: nat)
    requires a < m
    ensures a % m == a
  {
  }

  lemma {:induction false} PowersOfInterest()
    ensures Pow2(1) == 2 && Pow2(3) == 8 && Pow2(5) == 32 && Pow2(12) == 4096 && Pow2(17) == 131072
    ensures Pow2(24) == 0x1000000 && Pow2(29) == 0x20000000 && Pow2(32) == 0x1_0000_0000
  {
    assert Pow2(8) == 256 by { assert Pow2(4) == 16; assert Pow2(6) == 64; }
    assert Pow2(12) == 4096 by { Pow2Add(8, 4); assert Pow2(4) == 16; }
    Pow2Add(12, 5); Pow2Add(12, 12); Pow2Add(24, 5); Pow2Add(29, 3);
    assert Pow2(3) == 8 && Pow2(5) == 32;
  }
}
