/**
 64-bit division out of 32-bit machine division, as GCC's run-time routines need it.  Every C
 operation that could wrap is written with its wrap-around; the proofs show where none happens.
 */
module Arithmetic {
  import opened Powers

  const B32 := 0x1_0000_0000
  const B64 := 0x1_0000_0000_0000_0000

  type U32 = x: int | 0 <= x < B32
  type U64 = x: int | 0 <= x < B64
  type I32 = x: int | -0x8000_0000 <= x < 0x8000_0000
  type I64 = x: int | -0x8000_0000_0000_0000 <= x < 0x8000_0000_0000_0000

  function Wrap32(x: int): (r: U32) { x % B32 }

  function Wrap64(x: int): (r: U64) { x % B64 }

  function Negate64(x: int): (r: U64) { (-x) % B64 }

  function Signed32(x: int): (r: I32) {
    var u := x % B32;
    if u < 0x8000_0000 then u else u - B32
  }

  function Signed64(x: int): (r: I64) {
    var u := x % B64;
    if u < 0x8000_0000_0000_0000 then u else u - B64
  }

  lemma Widths()
    ensures Pow2(16) == 0x1_0000 && Pow2(31) == 0x8000_0000 && Pow2(32) == B32
  {
    assert Pow2(4) == 16;
    Pow2Adds(4, 4);
    Pow2Adds(8, 8);
    Pow2Adds(16, 16);
    assert Pow2(32) == 2 * Pow2(31);
  }

  /** The DIVL instruction, which traps unless the quotient fits in 32 bits. */
  function Divl(n: U64, d: U32): (q: U32)
    requires d != 0 && n / d < B32
  {
    n / d
  }

  // ---------------------------------------------------------------------------------
  // Leading zeros
  // ---------------------------------------------------------------------------------

  /** `x` is the argument shifted left by `n`, no bit lost, with a one among its first `w` bits. */
  ghost predicate Shifted(x0: U32, x: U32, n: nat, w: nat) {
    w <= 32 && x == x0 * Pow2(n) && Pow2(32 - w) <= x
  }

  lemma ShiftFits(x: nat, low: nat, high: nat, f: nat)
    requires low <= x < high && f > 0
    ensures low * f <= x * f < high * f
  {
    TimesGrows(low, x, f);
    TimesGrows(x + 1, high, f);
  }

  /** One step of the search: if the first `h` of `2 * h` bits are zero, shift them out. */
  lemma ShiftOut(x0: U32, x: U32, n: nat, h: nat, high: nat, f: nat)
    requires h <= 16 && Shifted(x0, x, n, 2 * h) && high == Pow2(32 - h) && f == Pow2(h)
    ensures x < high ==> Shifted(x0, Wrap32(x * f), n + h, h)
    ensures x >= high ==> Shifted(x0, x, n, h)
  {
    if x < high {
      Widths();
      Pow2Adds(32 - h, h);
      Pow2Adds(32 - 2 * h, h);
      ShiftFits(x, Pow2(32 - 2 * h), high, f);
      Pow2Adds(n, h);
      Times(x0, Pow2(n), f);
    }
  }

  lemma Thresholds()
    ensures Pow2(16) == 0x1_0000 && Pow2(24) == 0x100_0000 && Pow2(28) == 0x1000_0000
    ensures Pow2(30) == 0x4000_0000 && Pow2(31) == 0x8000_0000 && Pow2(32) == B32
    ensures Pow2(0) == 1 && Pow2(1) == 2 && Pow2(2) == 4 && Pow2(4) == 16 && Pow2(8) == 256
  {
    Widths();
    Pow2Adds(4, 4);
    Pow2Adds(16, 8);
    Pow2Adds(24, 4);
    assert Pow2(31) == 2 * Pow2(30);
  }

  /** `nlz`: shifted left by the result, the argument has its top bit set. */
  method Nlz(x0: U32) returns (n: nat)
    requires x0 != 0
    ensures n < 32 && Pow2(31) <= x0 * Pow2(n) < Pow2(32)
  {
    Thresholds();
    var x: U32 := x0;
    n := 0;
    assert Shifted(x0, x, 0, 32);
    ShiftOut(x0, x, n, 16, 0x1_0000, 0x1_0000);
    if x <= 0x0000_FFFF { n, x := n + 16, Wrap32(x * 0x1_0000); }
    ShiftOut(x0, x, n, 8, 0x100_0000, 0x100);
    if x <= 0x00FF_FFFF { n, x := n + 8, Wrap32(x * 0x100); }
    ShiftOut(x0, x, n, 4, 0x1000_0000, 0x10);
    if x <= 0x0FFF_FFFF { n, x := n + 4, Wrap32(x * 0x10); }
    ShiftOut(x0, x, n, 2, 0x4000_0000, 4);
    if x <= 0x3FFF_FFFF { n, x := n + 2, Wrap32(x * 4); }
    ShiftOut(x0, x, n, 1, 0x8000_0000, 2);
    if x <= 0x7FFF_FFFF { n := n + 1; }
  }

  // ---------------------------------------------------------------------------------
  // Unsigned division
  // ---------------------------------------------------------------------------------

  /** A divisor of 32 bits: divide the high half, then the remainder with the low half. */
  lemma SmallDivisor(n1: nat, n0: nat, d: nat)
    requires d > 0 && n0 < B32
    ensures (B32 * (n1 % d) + n0) / d < B32
    ensures (B32 * (n1 % d) + n0) / d + B32 * (n1 / d) == (B32 * n1 + n0) / d
  {
    var r, h := n1 % d, n1 / d;
    var m := B32 * r + n0;
    var q := m / d;
    QuotientBounds(m, d);
    assert m < B32 * d;
    if q >= B32 { TimesGrows(B32, q, d); }
    assert n1 == h * d + r;
    assert B32 * n1 + n0 == (B32 * h) * d + m;
    QuotientIs(B32 * n1 + n0, d, q + B32 * h);
  }

  /** A divisor of more than 32 bits, shifted left by `s` to set its top bit: its high word is the
      divisor without its last `32 - s` bits. */
  lemma Normalised(d: nat, s: nat)
    requires d < B64 && s < 32 && Pow2(31) <= (d / B32) * Pow2(s) < Pow2(32)
    ensures d * Pow2(s) < B64
    ensures Pow2(31) <= (d * Pow2(s)) / B32 < B32
    ensures (d * Pow2(s)) / B32 == d / Pow2(32 - s)
  {
    Widths();
    Pow2Adds(32 - s, s);
    HighWord(d, Pow2(s), Pow2(32 - s));
  }

  lemma HighWord(d: nat, p: nat, k: nat)
    requires p > 0 && k > 0 && k * p == B32 && 0x8000_0000 <= (d / B32) * p < B32
    ensures d * p < B64 && 0x8000_0000 <= (d * p) / B32 < B32 && (d * p) / B32 == d / k
  {
    var d1 := d / B32;
    QuotientBounds(d, B32);
    TopFits(d1, k, p);
    Below(d, d1, k, p);
    CancelFactor(d, k, p);
    TimesGrows(d1 * B32, d, p);
    Times(d1, B32, p);
    Between(d * p, 0x8000_0000, B32, B32);
  }

  lemma TopFits(d1: nat, k: nat, p: nat)
    requires d1 * p < k * p && p > 0
    ensures d1 < k
  {
    if d1 >= k { TimesGrows(k, d1, p); }
  }

  lemma Below(d: nat, d1: nat, k: nat, p: nat)
    requires d < (d1 + 1) * B32 && d1 < k && k * p == B32 && p > 0
    ensures d * p < B64
  {
    TimesGrows(d1 + 1, k, B32);
    TimesGrows(d + 1, k * B32, p);
    assert (k * B32) * p == (k * p) * B32;
  }

  lemma Between(x: nat, lo: nat, hi: nat, b: nat)
    requires b > 0 && lo * b <= x < hi * b
    ensures lo <= x / b < hi
  {
    QuotientBounds(x, b);
    if x / b < lo { TimesGrows(x / b + 1, lo, b); }
    if x / b >= hi { TimesGrows(hi, x / b, b); }
  }

  /** The quotient by the truncated divisor `t` is at most one too big, if the part cut off is small. */
  lemma AlmostRight(n: nat, d: nat, t: nat, q: nat)
    requires 0 < t <= d && q == n / d && (q + 1) * (d - t) <= t
    ensures q <= n / t <= q + 1
  {
    QuotientBounds(n, d);
    TimesGrows(t, d, q);
    Commute(t, q);
    QuotientAtLeast(n, t, q);
    Distribute(q + 1, t, d - t);
    assert (q + 2) * t == (q + 1) * t + t;
    QuotientAtMost(n, t, q + 1);
  }

  lemma FewTimes(q: nat, p: nat, t: nat)
    requires 0x8000_0000 * p <= t && q * t < B64
    ensures q * p < 2 * B32
  {
    TimesGrows(0x8000_0000 * p, t, q);
    Times(0x8000_0000, p, q);
    Commute(t, q);
    Commute(p, q);
  }

  /** With `k` bits cut off, the divisor still has 32 significant bits, so the error is small. */
  lemma CutIsSmall(q: nat, e: nat, t: nat, k: nat)
    requires 1 <= k <= 32 && e < Pow2(k) && 0x8000_0000 * Pow2(k) <= t && q * t < B64
    ensures (q + 1) * e <= t
  {
    Widths();
    Pow2Adds(32 - k, k);
    FewTimes(q, Pow2(k), t);
    Times(2, Pow2(32 - k), Pow2(k));
    ErrorBound(q, e, t, Pow2(k), 2 * Pow2(32 - k));
    if k > 1 {
      Pow2Grows(2, k);
      assert Pow2(2) == 4;
    }
  }

  lemma ErrorBound(q: nat, e: nat, t: nat, p: nat, r: nat)
    requires 2 <= p && r * p == 2 * B32 && q * p < 2 * B32 && e < p && 0x8000_0000 * p <= t
    ensures p == 2 ==> (q + 1) * e <= t
    ensures p >= 4 ==> (q + 1) * e <= t
  {
    TopFits(q, r, p);
    TimesGrows(e, p - 1, q + 1);
    Commute(e, q + 1);
    if p == 2 {
      Commute(1, q + 1);
    } else if p >= 4 {
      TimesGrows(q + 1, r, p);
      Commute(p, q + 1);
      TimesGrows(p - 1, p, q + 1);
    }
  }

  lemma Estimate(n: nat, d: nat, k: nat)
    requires n < B64 && 1 <= k <= 32 && 0x8000_0000 <= d / Pow2(k)
    ensures var t := (d / Pow2(k)) * Pow2(k); t > 0 && n / d <= n / t <= n / d + 1
  {
    Truncated(d, Pow2(k), d / Pow2(k));
    EstimateBy(n, d, (d / Pow2(k)) * Pow2(k), k);
  }

  lemma Truncated(d: nat, p: nat, v: nat)
    requires p > 0 && v == d / p && 0x8000_0000 <= v
    ensures 0x8000_0000 * p <= v * p <= d < v * p + p
  {
    QuotientBounds(d, p);
    TimesGrows(0x8000_0000, v, p);
  }

  lemma SmallerProduct(n: nat, d: nat, t: nat, q: nat)
    requires 0 < t <= d && q == n / d
    ensures q * t <= n
  {
    QuotientBounds(n, d);
    TimesGrows(t, d, q);
    Commute(t, q);
    Commute(d, q);
  }

  lemma EstimateBy(n: nat, d: nat, t: nat, k: nat)
    requires n < B64 && 1 <= k <= 32 && 0x8000_0000 * Pow2(k) <= t <= d < t + Pow2(k)
    ensures t > 0 && n / d <= n / t <= n / d + 1
  {
    var q := n / d;
    SmallerProduct(n, d, t, q);
    CutIsSmall(q, d - t, t, k);
    AlmostRight(n, d, t, q);
  }

  lemma InThreeSteps(n: nat, v: nat, k: nat)
    requires v > 0 && k >= 1
    ensures v * Pow2(k) > 0 && ((n / 2) / v) / Pow2(k - 1) == n / (v * Pow2(k))
  {
    DivideTwice(n, 2, v);
    DivideTwice(n, 2 * v, Pow2(k - 1));
    assert (2 * v) * Pow2(k - 1) == v * Pow2(k);
  }

  lemma NoTrap(n: U64, v: nat)
    requires v >= 0x8000_0000
    ensures (n / 2) / v < B32
  {
    TimesGrows(0x8000_0000, v, B32);
    Commute(v, B32);
    Between(n / 2, 0, B32, v);
  }

  /** What the code computes for a divisor of more than 32 bits before it corrects it. */
  lemma BigDivisor(n: U64, d: U64, s: nat)
    requires s < 32 && Pow2(31) <= (d / B32) * Pow2(s) < Pow2(32)
    ensures var v := Wrap64(d * Pow2(s)) / B32;
      && 0 < v < B32 && (n / 2) / v < B32
      && d > 0 && n / d <= ((n / 2) / v) / Pow2(31 - s) <= n / d + 1
  {
    Widths();
    Normalised(d, s);
    var v := (d * Pow2(s)) / B32;
    NoTrap(n, v);
    Estimate(n, d, 32 - s);
    InThreeSteps(n, v, 32 - s);
  }

  /** The correction step picks the right one of the two candidates, and nothing in it wraps. */
  lemma Corrected(n: U64, d: U64, e: nat, q: nat)
    requires 0 < d <= n && q == n / d && q <= e <= q + 1
    ensures e >= 1 && 0 <= (e - 1) * d <= n
    ensures q == if n - (e - 1) * d < d then e - 1 else e
  {
    QuotientBounds(n, d);
    QuotientAtLeast(n, d, 1);
    if e == q {
      assert (e - 1) * d == q * d - d;
      TimesGrows(0, e - 1, d);
    } else {
      TimesGrows(0, q, d);
    }
  }

  lemma NoWraps(r: nat, n0: U32, low: U32, h: U32)
    requires r < B32
    ensures Wrap64(Wrap64(B32 * r) + n0) == B32 * r + n0
    ensures Wrap64(low + Wrap64(B32 * h)) == low + B32 * h
  {
  }

  lemma SmallFits(n1: U32, n0: U32, d: U32, r: nat, h: nat, low: nat)
    requires d > 0 && r == n1 % d && h == n1 / d && low == (B32 * r + n0) / d
    ensures r < d && h <= n1 && low < B32
    ensures low + B32 * h == (B32 * n1 + n0) / d
  {
    SmallDivisor(n1, n0, d);
    QuotientShrinks(n1, d);
  }

  lemma SmallCode(n1: U32, n0: U32, d: U32, r: nat, h: nat, low: nat)
    requires d > 0 && r == n1 % d && h == n1 / d && low == (B32 * r + n0) / d
    ensures r < d && h <= n1 && low < B32
    ensures Wrap64(Wrap64(B32 * r) + n0) == B32 * r + n0
    ensures Wrap64(low + Wrap64(B32 * h)) == (B32 * n1 + n0) / d
  {
    SmallFits(n1, n0, d, r, h, low);
    NoWraps(r, n0, low, h);
  }

  lemma Halves(n: U64)
    ensures n / B32 < B32 && n % B32 < B32 && n == B32 * (n / B32) + n % B32
    ensures n < B32 ==> n % B32 == n
  {
  }

  /** The two divisions, of a number given by its halves. */
  method DivideHalves(n1: U32, n0: U32, d0: U32) returns (q: U64)
    requires d0 > 0
    ensures q == (B32 * n1 + n0) / d0
  {
    var r, h := n1 % d0, n1 / d0;
    SmallCode(n1, n0, d0, r, h, (B32 * r + n0) / d0);
    var low := Divl(Wrap64(Wrap64(B32 * r) + n0), d0);
    q := Wrap64(low + Wrap64(B32 * h));
  }

  /** `udiv64` for a divisor of at most 32 bits. */
  method DivideSmall(n: U64, d: U64) returns (q: U64)
    requires 0 < d < B32
    ensures q == n / d
  {
    Halves(n);
    Halves(d);
    q := DivideHalves(n / B32, n % B32, d % B32);
  }

  lemma Unwrapped(x: int)
    requires 0 <= x < B64
    ensures Wrap64(x) == x
  {
  }

  lemma EstimateFits(n: U64, d: nat, e: nat, p: int)
    requires d >= B32 && e >= 1 && p == (e - 1) * d && 0 <= p <= n
    ensures e < B64
  {
    TimesGrows(B32, d, e - 1);
  }

  lemma LargeFits(n: U64, d: U64, e: nat)
    requires B32 <= d <= n && n / d <= e <= n / d + 1
    ensures 1 <= e < B64
    ensures n / d == if Wrap64(n - Wrap64(Wrap64(e - 1) * d)) < d then Wrap64(e - 1) else e
  {
    Corrected(n, d, e, n / d);
    EstimateFits(n, d, e, (e - 1) * d);
    Unwrapped(e - 1);
    Unwrapped((e - 1) * d);
    Unwrapped(n - (e - 1) * d);
  }

  /** `udiv64` for a larger divisor, no greater than the dividend. */
  method DivideLarge(n: U64, d: U64) returns (q: U64)
    requires B32 <= d <= n
    ensures q == n / d
  {
    var d1: U32 := d / B32;
    var s := Nlz(d1);
    BigDivisor(n, d, s);
    QuotientShrinks(n, d);
    var v: U32 := Wrap64(d * Pow2(s)) / B32;
    var e: nat := Divl(n / 2, v) / Pow2(31 - s);
    LargeFits(n, d, e);
    q := if Wrap64(n - Wrap64(Wrap64(e - 1) * d)) < d then Wrap64(e - 1) else e;
  }

  /** `udiv64`: the quotient, for every divisor but zero; no call of `Divl` traps. */
  method Udiv64(n: U64, d: U64) returns (q: U64)
    requires d != 0
    ensures q == n / d
  {
    if d / B32 == 0 {
      q := DivideSmall(n, d);
    } else if n < d {
      QuotientIs(n, d, 0);
      q := 0;
    } else {
      q := DivideLarge(n, d);
    }
  }

  /** `umod64`, whose result type keeps only the low 32 bits of the remainder. */
  method Umod64(n: U64, d: U64) returns (r: U32)
    requires d != 0
    ensures r == Wrap32(n % d)
  {
    var q := Udiv64(n, d);
    UmodFits(n, d, q);
    r := Wrap32(Wrap64(n - Wrap64(d * q)));
  }

  lemma UmodFits(n: U64, d: U64, q: U64)
    requires d != 0 && q == n / d
    ensures Wrap64(n - Wrap64(d * q)) == n % d
  {
    Remainder(n, d, q);
    RemainderBelow(n, d);
  }

  lemma Remainder(n: nat, d: nat, q: nat)
    requires d > 0 && q == n / d
    ensures d * q <= n && n % d == n - d * q < d
  {
    QuotientBounds(n, d);
    Commute(d, q);
  }

  lemma RemainderOf(n: nat, d: nat)
    requires n < d
    ensures n % d == n
  {
    QuotientIs(n, d, 0);
    Remainder(n, d, 0);
  }

  lemma RemainderBelow(n: nat, d: nat)
    requires d > 0
    ensures 0 <= n % d < d
  {
  }

  /** So it is the remainder for every dividend exactly if the divisor is at most 2^32. */
  lemma UmodExact(d: U64)
    requires d != 0
    ensures (forall n: U64 :: Wrap32(n % d) == n % d) <==> d <= B32
  {
    if d <= B32 {
      forall n: U64 ensures Wrap32(n % d) == n % d { RemainderBelow(n, d); }
    } else {
      RemainderOf(B32, d);
      var n: U64 := B32;
      assert Wrap32(n % d) != n % d;
    }
  }

  /** The least divisor for which it is not, with a dividend. */
  lemma UmodInput()
    ensures var n, d := B32, B32 + 1; n % d == B32 && Wrap32(n % d) == 0
  {
    RemainderOf(B32, B32 + 1);
  }

  // ---------------------------------------------------------------------------------
  // Signed division
  // ---------------------------------------------------------------------------------

  function Abs(x: int): (r: int)
    ensures r >= 0 && (x != 0 ==> r > 0)
  {
    if x < 0 then -x else x
  }

  /** Division that rounds toward zero: the remainder is smaller than the divisor and has the sign of
      the dividend. */
  predicate Truncates(n: int, d: int, q: int) {
    var r := n - d * q;
    Abs(r) < Abs(d) && (r == 0 || (r < 0) == (n < 0))
  }

  lemma SmallMultiple(d: int, m: int)
    requires -Abs(d) < d * m < Abs(d)
    ensures m == 0
  {
    if m >= 1 { TimesGrows(1, m, Abs(d)); }
    if m <= -1 { TimesGrows(m, -1, Abs(d)); }
    Signs(d, m);
    Commute(Abs(d), m);
  }

  /** There is only one such quotient. */
  lemma TruncatesOnce(n: int, d: int, p: int, q: int)
    requires Truncates(n, d, p) && Truncates(n, d, q)
    ensures p == q
  {
    Distribute(d, q - p, p);
    SmallMultiple(d, q - p);
  }

  const MIN64: I64 := -0x8000_0000_0000_0000

  /** The quotient of the absolute values, with the right sign. */
  function SignedQuotient(n: int, d: int): (q: int)
    requires d != 0
  {
    if (n < 0) == (d < 0) then Abs(n) / Abs(d) else -(Abs(n) / Abs(d))
  }

  lemma Signs(d: int, a: int)
    ensures d * (-a) == -(d * a) && (-d) * a == -(d * a) && (-d) * (-a) == d * a
  {
  }

  lemma SignOf(d: int, a: int, q: int, negative: bool)
    requires q == if negative == (d < 0) then a else -a
    ensures d * q == if negative then -(Abs(d) * a) else Abs(d) * a
  {
    Signs(d, a);
  }

  /** Divisor times quotient, by the absolute values. */
  lemma SignedProduct(n: int, d: int, a: int, p: int, q: int)
    requires d != 0 && a == Abs(n) / Abs(d) && p == Abs(d) * a && q == SignedQuotient(n, d)
    ensures d * q == (if n < 0 then -p else p) && 0 <= p <= Abs(n) < p + Abs(d)
  {
    SignOf(d, a, q, n < 0);
    QuotientShrinks(Abs(n), Abs(d));
    Remainder(Abs(n), Abs(d), a);
    TimesGrows(0, a, Abs(d));
    Commute(a, Abs(d));
  }

  lemma SignedTruncates(n: int, d: int)
    requires d != 0
    ensures Truncates(n, d, SignedQuotient(n, d))
    ensures var x := d * SignedQuotient(n, d); if n < 0 then n <= x <= 0 else 0 <= x <= n
  {
    var a := Abs(n) / Abs(d);
    SignedProduct(n, d, a, Abs(d) * a, SignedQuotient(n, d));
  }

  function SignedNegate(x: int): (r: I64) { Signed64(-x) }

  lemma SdivFits(n: I64, d: I64, a: int)
    requires d != 0 && a == Abs(n) / Abs(d)
    ensures 0 <= a <= 0x8000_0000_0000_0000
    ensures a == 0x8000_0000_0000_0000 <==> n == MIN64 && Abs(d) == 1
  {
    QuotientShrinks(Abs(n), Abs(d));
    if Abs(d) == 1 {
      QuotientIs(Abs(n), 1, Abs(n));
    } else {
      TimesGrows(2, Abs(d), 0x4000_0000_0000_0001);
      QuotientAtMost(Abs(n), Abs(d), 0x4000_0000_0000_0000);
    }
  }

  lemma SdivWraps(n: I64, d: I64, a: int, q: int)
    requires 0 <= a <= 0x8000_0000_0000_0000 && q == if (n < 0) == (d < 0) then a else -a
    ensures Signed64(q) == if (n < 0) == (d < 0) then Signed64(a) else SignedNegate(Signed64(a))
  {
  }

  lemma QuotientRange(n: I64, d: I64, q: int)
    requires d != 0 && q == SignedQuotient(n, d)
    ensures -0x8000_0000_0000_0000 <= q <= 0x8000_0000_0000_0000
    ensures q == 0x8000_0000_0000_0000 <==> n == MIN64 && d == -1
  {
    SdivFits(n, d, Abs(n) / Abs(d));
  }

  lemma SdivExact(n: I64, d: I64, q: I64)
    requires d != 0 && q == Signed64(SignedQuotient(n, d))
    ensures Truncates(n, d, q) <==> !(n == MIN64 && d == -1)
    ensures n == MIN64 && d == -1 ==> q == MIN64
    ensures !(n == MIN64 && d == -1) ==> q == SignedQuotient(n, d)
  {
    QuotientRange(n, d, SignedQuotient(n, d));
    if n == MIN64 && d == -1 {
      assert d * q == 0x8000_0000_0000_0000;
    } else {
      SignedTruncates(n, d);
    }
  }

  lemma AbsIs(n: I64)
    ensures (if n >= 0 then n else Negate64(Wrap64(n))) == Abs(n)
  {
  }

  lemma SdivIs(n: I64, d: I64, a: int, q: I64)
    requires d != 0 && a == Abs(n) / Abs(d)
    requires q == if (n < 0) == (d < 0) then Signed64(a) else SignedNegate(Signed64(a))
    ensures q == Signed64(SignedQuotient(n, d))
    ensures Truncates(n, d, q) <==> !(n == MIN64 && d == -1)
  {
    SdivFits(n, d, a);
    SdivWraps(n, d, a, SignedQuotient(n, d));
    SdivExact(n, d, q);
  }

  /** `sdiv64`: rounds toward zero, except for the one quotient that does not fit. */
  method Sdiv64(n: I64, d: I64) returns (q: I64)
    requires d != 0
    ensures q == Signed64(SignedQuotient(n, d))
    ensures Truncates(n, d, q) <==> !(n == MIN64 && d == -1)
  {
    var nAbs: U64 := if n >= 0 then n else Negate64(Wrap64(n));
    var dAbs: U64 := if d >= 0 then d else Negate64(Wrap64(d));
    AbsIs(n);
    AbsIs(d);
    var qAbs := Udiv64(nAbs, dAbs);
    q := if (n < 0) == (d < 0) then Signed64(qAbs) else SignedNegate(Signed64(qAbs));
    SdivIs(n, d, qAbs, q);
  }

  /** The remainder that goes with it. */
  function SignedRemainder(n: int, d: int): (r: int)
    requires d != 0
  {
    n - d * SignedQuotient(n, d)
  }

  lemma NoWrapInside(n: I64, x: int)
    requires if n < 0 then n <= x <= 0 else 0 <= x <= n
    ensures Signed64(x) == x && Signed64(n - x) == n - x
  {
  }

  lemma SmodFits(n: I64, d: I64, q: I64)
    requires d != 0 && q == Signed64(SignedQuotient(n, d))
    ensures Signed64(n - Signed64(d * q)) == SignedRemainder(n, d)
  {
    SdivExact(n, d, q);
    SignedTruncates(n, d);
    if n == MIN64 && d == -1 {
      QuotientRange(n, d, SignedQuotient(n, d));
    } else {
      NoWrapInside(n, d * q);
    }
  }

  /** `smod64`, whose result type keeps only the low 32 bits of the remainder. */
  method Smod64(n: I64, d: I64) returns (r: I32)
    requires d != 0
    ensures r == Signed32(SignedRemainder(n, d))
  {
    var q := Sdiv64(n, d);
    SmodFits(n, d, q);
    r := Signed32(Signed64(n - Signed64(d * q)));
  }

  lemma SmallDividend(n: nat, d: int)
    requires n < Abs(d)
    ensures SignedRemainder(n, d) == n
  {
    QuotientIs(n, Abs(d), 0);
  }

  lemma RemainderFits(n: I64, d: I64)
    requires d != 0 && Abs(d) <= 0x8000_0000
    ensures Signed32(SignedRemainder(n, d)) == SignedRemainder(n, d)
  {
    SignedTruncates(n, d);
  }

  /** So it is the remainder for every dividend exactly if the divisor is at most 2^31 in size. */
  lemma SmodExact(d: I64)
    requires d != 0
    ensures (forall n: I64 :: Signed32(SignedRemainder(n, d)) == SignedRemainder(n, d)) <==> Abs(d) <= 0x8000_0000
  {
    if Abs(d) <= 0x8000_0000 {
      forall n: I64 ensures Signed32(SignedRemainder(n, d)) == SignedRemainder(n, d) { RemainderFits(n, d); }
    } else {
      SmallDividend(0x8000_0000, d);
      var n: I64 := 0x8000_0000;
      assert Signed32(SignedRemainder(n, d)) != SignedRemainder(n, d);
    }
  }

  /** Inputs for which the results are wrong: the quotient that does not fit, and a remainder. */
  lemma SignedInputs()
    ensures var q := Signed64(SignedQuotient(MIN64, -1)); q == MIN64 && !Truncates(MIN64, -1, q)
    ensures SignedRemainder(0x8000_0000, 0x8000_0001) == 0x8000_0000 && Signed32(0x8000_0000) == -0x8000_0000
  {
    SdivExact(MIN64, -1, Signed64(SignedQuotient(MIN64, -1)));
    SmallDividend(0x8000_0000, 0x8000_0001);
  }
}
