/**
 Powers of two, and the few facts about products and quotients that the machine arithmetic needs.
 */
module Powers {

  function Pow2(p: nat): (r: nat)
    ensures r >= 1
  {
    if p == 0 then 1 else 2 * Pow2(p - 1)
  }

  lemma {:induction false} Pow2Adds(a: nat, b: nat)
    ensures Pow2(a + b) == Pow2(a) * Pow2(b)
  {
    if a > 0 {
      Pow2Adds(a - 1, b);
      Times(2, Pow2(a - 1), Pow2(b));
    }
  }

  lemma {:induction false} Pow2Grows(a: nat, b: nat)
    requires a <= b
    ensures Pow2(a) <= Pow2(b)
  {
    if a < b { Pow2Grows(a, b - 1); }
  }

  lemma Times(a: int, b: int, c: int)
    ensures (a * b) * c == a * (b * c)
  {
  }

  lemma TimesGrows(a: int, b: int, c: int)
    requires a <= b && 0 <= c
    ensures a * c <= b * c
  {
  }

  /** The quotient is the one number with a remainder in range. */
  lemma QuotientIs(n: int, d: int, q: int)
    requires d > 0 && q * d <= n < (q + 1) * d
    ensures n / d == q
  {
    var p := n / d;
    assert p * d <= n < (p + 1) * d;
    if p < q { TimesGrows(p + 1, q, d); }
    if p > q { TimesGrows(q + 1, p, d); }
  }

  lemma QuotientAtLeast(n: int, d: int, q: int)
    requires d > 0 && q * d <= n
    ensures q <= n / d
  {
    if n / d < q { TimesGrows(n / d + 1, q, d); }
  }

  lemma QuotientAtMost(n: int, d: int, q: int)
    requires d > 0 && n < (q + 1) * d
    ensures n / d <= q
  {
    if n / d > q { TimesGrows(q + 1, n / d, d); }
  }

  lemma Distribute(a: int, b: int, c: int)
    ensures a * (b + c) == a * b + a * c
  {
  }

  lemma Commute(a: int, b: int)
    ensures a * b == b * a
  {
  }

  lemma QuotientBounds(n: int, d: int)
    requires d > 0
    ensures (n / d) * d <= n < (n / d + 1) * d
  {
  }

  lemma QuotientShrinks(n: nat, d: nat)
    requires d > 0
    ensures 0 <= n / d <= n
  {
    QuotientAtLeast(n, d, 0);
    TimesGrows(1, d, n + 1);
    QuotientAtMost(n, d, n);
  }

  lemma DivideTwice(n: nat, a: nat, b: nat)
    requires a > 0 && b > 0
    ensures a * b > 0 && (n / a) / b == n / (a * b)
  {
    var p := n / a;
    var q := p / b;
    QuotientBounds(n, a);
    QuotientBounds(p, b);
    TimesGrows(q * b, p, a);
    TimesGrows(p + 1, (q + 1) * b, a);
    Times(q, b, a);
    Times(q + 1, b, a);
    QuotientIs(n, a * b, q);
  }

  lemma CancelFactor(n: nat, a: nat, c: nat)
    requires a > 0 && c > 0
    ensures a * c > 0 && (n * c) / (a * c) == n / a
  {
    var q := n / a;
    QuotientBounds(n, a);
    TimesGrows(q * a, n, c);
    Times(q, a, c);
    assert n * c < ((q + 1) * a) * c;
    Times(q + 1, a, c);
    QuotientIs(n * c, a * c, q);
  }
}
