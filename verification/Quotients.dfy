/** Quotients and remainders of natural numbers. */
module Quotients {

  lemma QuotientAndRest(q: nat, r: nat, d: nat)
    requires r < d
    ensures (q * d + r) / d == q && (q * d + r) % d == r
  {
    var n := q * d + r;
    assert n == d * (n / d) + n % d;
    if n / d < q {
      Multiples(d, n / d, q);
    } else if n / d > q {
      Multiples(d, q, n / d);
    }
  }

  lemma Multiples(d: nat, a: nat, b: nat)
    requires a < b
    ensures d * a + d <= d * b
  {
    assert d * b == d * a + d * (b - a);
    assert d * (b - a) == d + d * (b - a - 1);
  }

  lemma DivMod(n: nat, d: nat)
    requires d > 0
    ensures (n / d) * d + n % d == n && 0 <= n % d < d
  {
  }

  lemma QuotientBelow(n: nat, s: nat, d: nat)
    requires d > 0 && n < s * d
    ensures n / d < s
  {
    DivMod(n, d);
    if n / d >= s {
      Multiples(d, s, n / d + 1);
    }
  }

  lemma DigitBelow(q: nat, r: nat, s: nat, d: nat)
    requires q < s && r < d
    ensures q * d + r < s * d
  {
    Multiples(d, q, s);
  }

  lemma RowsFit(i: nat, height: nat, width: nat)
    requires i < height
    ensures (i + 1) * width == i * width + width <= height * width
  {
    Multiples(width, i, height);
  }

  lemma QuotientBounds(a: nat, d: nat)
    requires d > 0
    ensures 0 <= a / d && d * (a / d) <= a < d * (a / d) + d
  {
  }

  lemma FactorCancels(d: nat, a: nat, b: nat)
    requires d * a < d * b
    ensures a < b
  {
  }

  lemma ProductMonotone(a: nat, b: nat, c: nat, d: nat)
    requires a <= b && c <= d
    ensures a * c <= b * d
  {
    assert b * d == a * c + a * (d - c) + (b - a) * d;
  }
}
