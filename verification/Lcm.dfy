/** The least common multiple by Euclid's loop. */
module Lcm {

  ghost predicate IsLcm(x: int, y: int, m: int) {
    && x > 0 && y > 0 && m > 0 && m % x == 0 && m % y == 0
    && forall k :: k > 0 && k % x == 0 && k % y == 0 ==> m <= k
  }

  /** `least_common_multiple(x, y)` with Python's floor division; of two zeros it divides by zero. The
      ghost variables express the current pair through (x, y) and back, which is what makes the last
      divisor the greatest. */
  method LeastCommonMultiple(x: int, y: nat) returns (ok: bool, m: int)
    ensures ok <==> x != 0 || y != 0
    ensures x > 0 && y > 0 ==> IsLcm(x, y, m)
    ensures x <= 0 && y > 0 ==> m <= 0
    ensures y == 0 ==> m == 0
  {
    var gcd, rem := x, y;
    ghost var a, b, c, d := 1, 0, 0, 1;
    ghost var p, q, r, s := 1, 0, 0, 1;
    while rem != 0
      invariant rem >= 0 && (y > 0 && rem == 0 ==> gcd > 0) && (x > 0 ==> gcd > 0)
      invariant y == 0 ==> gcd == x && rem == 0
      invariant gcd == a * x + b * y && rem == c * x + d * y
      invariant x == p * gcd + q * rem && y == r * gcd + s * rem
      decreases rem
    {
      ghost var t := gcd / rem;
      Divided(gcd, rem);
      Combine(x, y, gcd, rem, t, a, b, c, d);
      Expand(p, t, rem, gcd % rem, q);
      Expand(r, t, rem, gcd % rem, s);
      a, b, c, d := c, d, a - t * c, b - t * d;
      p, q, r, s := p * t + q, p, r * t + s, r;
      gcd, rem := rem, gcd % rem;
    }
    if gcd == 0 {
      return false, 0;
    }
    ok, m := true, x * y / gcd;
    if y == 0 {
      NoQuotient(x, gcd);
    } else if x > 0 {
      LcmIsLeast(x, y, gcd, p, r, a, b);
    } else {
      NonPositiveQuotient(x, y, gcd, p);
    }
  }

  lemma Divided(n: int, d: int)
    requires d > 0
    ensures n == (n / d) * d + n % d && 0 <= n % d < d
  {
  }

  lemma NoQuotient(x: int, g: int)
    requires g != 0
    ensures x * 0 / g == 0
  {
  }

  /** The next remainder is a combination of x and y, like the two before it. */
  lemma Combine(x: int, y: int, gcd: int, rem: int, t: int, a: int, b: int, c: int, d: int)
    requires gcd == a * x + b * y && rem == c * x + d * y
    ensures gcd - t * rem == (a - t * c) * x + (b - t * d) * y
  {
    Spread(t, c, x, d, y);
    Difference(a, t * c, x);
    Difference(b, t * d, y);
  }

  lemma Spread(t: int, c: int, x: int, d: int, y: int)
    ensures t * (c * x + d * y) == (t * c) * x + (t * d) * y
  {
    Scale(t, c, x);
    Scale(t, d, y);
    Sum(t, c * x, d * y);
  }

  lemma Scale(t: int, c: int, x: int)
    ensures t * (c * x) == (t * c) * x
  {
  }

  lemma Sum(t: int, u: int, v: int)
    ensures t * (u + v) == t * u + t * v
  {
  }

  lemma Difference(a: int, u: int, x: int)
    ensures (a - u) * x == a * x - u * x
  {
  }

  lemma Expand(p: int, t: int, rem: int, e: int, q: int)
    ensures p * (t * rem + e) + q * rem == (p * t + q) * rem + p * e
  {
    Sum(p, t * rem, e);
    Scale(p, t, rem);
    Sum(rem, p * t, q);
  }

  /** A product with a positive factor has the sign and at least the size of the other factor's side. */
  lemma Product(a: int, g: int)
    requires g > 0
    ensures a >= 1 ==> a * g >= g
    ensures a <= -1 ==> a * g <= -g
  {
    if a >= 1 {
      assert a * g == g + (a - 1) * g;
    } else if a <= -1 {
      assert a * g == (a + 1) * g - g;
    }
  }

  lemma DivExact(k: int, g: int)
    requires g > 0
    ensures (k * g) / g == k && (k * g) % g == 0
  {
    var n := k * g;
    var e := n / g;
    assert n == e * g + n % g;
    assert (k - e) * g == n % g;
    Product(k - e, g);
  }

  lemma NonPositiveQuotient(x: int, y: int, g: int, p: int)
    requires x <= 0 < y && g > 0 && x == p * g
    ensures x * y / g <= 0
  {
    assert x * y == (p * y) * g;
    DivExact(p * y, g);
    Product(p, g);
    if p < 0 { Product(p, y); }
  }

  lemma MultipleOf(k: int, x: int) returns (q: int)
    requires x > 0 && k % x == 0
    ensures k == q * x
  {
    q := k / x;
    assert k == x * (k / x) + k % x;
  }

  lemma LcmIsLeast(x: int, y: int, g: int, p: int, r: int, a: int, b: int)
    requires x > 0 && y > 0 && g > 0 && x == p * g && y == r * g && g == a * x + b * y
    ensures IsLcm(x, y, x * y / g)
  {
    var m := x * r;
    LcmMultiples(x, y, g, p, r);
    forall k | k > 0 && k % x == 0 && k % y == 0 ensures m <= k {
      var u := MultipleOf(k, x);
      var v := MultipleOf(k, y);
      CommonMultiple(k, u, v, x, y, g, a, b, m);
    }
  }

  lemma LcmMultiples(x: int, y: int, g: int, p: int, r: int)
    requires x > 0 && y > 0 && g > 0 && x == p * g && y == r * g
    ensures var m := x * r;
            m > 0 && m * g == x * y && x * y / g == m && m % x == 0 && m % y == 0
  {
    var m := x * r;
    assert x * y == m * g;
    DivExact(m, g);
    Product(r, g);
    Product(x, r);
    assert m == r * x && m == p * y;
    DivExact(r, x);
    DivExact(p, y);
  }

  /** Bezout: a common multiple of x and y is a multiple of m, where m * g == x * y. */
  lemma CommonMultiple(k: int, u: int, v: int, x: int, y: int, g: int, a: int, b: int, m: int)
    requires k > 0 && g > 0 && k == u * x && k == v * y && g == a * x + b * y && m * g == x * y
    ensures m <= k
  {
    var w := a * v + b * u;
    calc {
      k * g;
      k * (a * x) + k * (b * y);
      (v * y) * (a * x) + (u * x) * (b * y);
      (a * v) * (x * y) + (b * u) * (x * y);
      w * (m * g);
      (w * m) * g;
    }
    assert (k - w * m) * g == 0;
    Product(k - w * m, g);
    if m > 0 { Product(w, m); }
  }
}
