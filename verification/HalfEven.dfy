/** Decimal rounding to the nearest, ties to even, and its double application: first to 28
    significant digits, then to a fixed exponent. */
module HalfEven {
  import opened Common

  function Pow10(k: nat): (p: nat)
    ensures p >= 1
  {
    if k == 0 then 1 else 10 * Pow10(k - 1)
  }

  /** The number of decimal digits. */
  function Digits(n: nat): (d: nat)
    ensures d >= 1
  {
    if n < 10 then 1 else 1 + Digits(n / 10)
  }

  /** Nearest multiple of d, in units of d, of a magnitude. */
  function RoundNat(n: nat, d: nat): nat
    requires d > 0
  {
    var q, r := n / d, n % d;
    if 2 * r < d then q else if 2 * r > d then q + 1 else if q % 2 == 0 then q else q + 1
  }

  /** Decimals are sign and magnitude: the sign is kept, the magnitude rounded. */
  function Round(n: int, d: nat): int
    requires d > 0
  {
    if n >= 0 then RoundNat(n, d) else 0 - RoundNat(-n, d)
  }

  function Abs(x: int): nat {
    if x < 0 then -x else x
  }

  /** q is the integer nearest to n / d, the even one of two equally near. */
  predicate NearestEven(n: int, d: nat, q: int) {
    2 * Abs(n - q * d) <= d && (2 * Abs(n - q * d) == d ==> q % 2 == 0)
  }

  lemma DivMod(n: nat, d: nat)
    requires d > 0
    ensures n == (n / d) * d + n % d && 0 <= n % d < d
  {
  }

  lemma RoundNatNearest(n: nat, d: nat)
    requires d > 0
    ensures NearestEven(n, d, RoundNat(n, d))
  {
    DivMod(n, d);
    var q := n / d;
    assert (q + 1) * d == q * d + d;
  }

  lemma RoundNearest(n: int, d: nat)
    requires d > 0
    ensures NearestEven(n, d, Round(n, d))
  {
    RoundNatNearest(Abs(n), d);
    if n < 0 {
      var q := RoundNat(-n, d);
      assert (-q) * d == -(q * d);
    }
  }

  /** There is only one nearest-even integer. */
  lemma NearestUnique(n: int, d: nat, p: int, q: int)
    requires d > 0 && NearestEven(n, d, p) && NearestEven(n, d, q)
    ensures p == q
  {
    if p < q {
      NearestApart(n, n, d, p, q);
    } else if q < p {
      NearestApart(n, n, d, q, p);
    }
  }

  /** Two distinct results are possible only for increasing inputs, strictly so. */
  lemma NearestApart(n: int, m: int, d: nat, p: int, q: int)
    requires d > 0 && NearestEven(n, d, p) && NearestEven(m, d, q) && p < q
    ensures n < m
  {
    MulGap(p, q, d);
    if q > p + 1 {
      MulGap(p + 1, q, d);
      MulGap(p, p + 1, d);
    }
  }

  lemma RoundMonotone(n: int, m: int, d: nat)
    requires d > 0 && n <= m
    ensures Round(n, d) <= Round(m, d)
  {
    RoundNearest(n, d);
    RoundNearest(m, d);
    if Round(m, d) < Round(n, d) {
      NearestApart(m, n, d, Round(m, d), Round(n, d));
    }
  }

  lemma RoundOf(n: int, d: nat, q: int)
    requires d > 0 && NearestEven(n, d, q)
    ensures Round(n, d) == q
  {
    RoundNearest(n, d);
    NearestUnique(n, d, Round(n, d), q);
  }

  lemma RoundMultiple(m: int, d: nat)
    requires d > 0
    ensures Round(m * d, d) == m
  {
    RoundOf(m * d, d, m);
  }

  lemma {:induction false} PowAdd(a: nat, b: nat)
    ensures Pow10(a + b) == Pow10(a) * Pow10(b)
    decreases a
  {
    if a > 0 {
      PowAdd(a - 1, b);
      assert Pow10(a) * Pow10(b) == 10 * (Pow10(a - 1) * Pow10(b));
    }
  }

  lemma {:induction false} PowMonotone(a: nat, b: nat)
    requires a <= b
    ensures Pow10(a) <= Pow10(b)
    decreases b
  {
    if a < b {
      PowMonotone(a, b - 1);
    }
  }

  lemma {:induction false} DigitsBound(n: nat, k: nat)
    requires k >= 1
    ensures Digits(n) <= k <==> n < Pow10(k)
    decreases n
  {
    if n < 10 {
      PowMonotone(1, k);
      assert Pow10(1) == 10 * Pow10(0);
    } else if k == 1 {
      assert Pow10(1) == 10 * Pow10(0);
    } else {
      DigitsBound(n / 10, k - 1);
    }
  }

  lemma DigitsIs(n: nat, k: nat)
    requires k >= 2 && Pow10(k - 1) <= n < Pow10(k)
    ensures Digits(n) == k
  {
    DigitsBound(n, k);
    DigitsBound(n, k - 1);
  }

  // ----- rounding to 28 significant digits -----

  const PRECISION := 28

  /** How many digits the precision drops. */
  function Excess(n: nat): nat {
    if Digits(n) > PRECISION then Digits(n) - PRECISION else 0
  }

  /** A product as the context leaves it, in the same units. */
  function Fitted(n: int): int {
    var d := Pow10(Excess(Abs(n)));
    Round(n, d) * d
  }

  lemma FittedExact(n: int)
    requires Abs(n) < Pow10(PRECISION)
    ensures Fitted(n) == n
  {
    DigitsBound(Abs(n), PRECISION);
    assert Pow10(0) == 1;
    RoundMultiple(n, 1);
    assert n * 1 == n;
  }

  lemma ExcessIs(n: nat, k: nat)
    requires k >= 1 && Pow10(PRECISION + k - 1) <= n < Pow10(PRECISION + k)
    ensures Excess(n) == k
  {
    DigitsIs(n, PRECISION + k);
  }

  lemma DigitsRange(n: nat)
    requires Digits(n) >= 2
    ensures Pow10(Digits(n) - 1) <= n < Pow10(Digits(n))
  {
    DigitsBound(n, Digits(n));
    DigitsBound(n, Digits(n) - 1);
  }

  /** A bound that is a multiple of the rounding unit survives rounding. */
  lemma RoundAbove(a: int, n: int, d: nat)
    requires d > 0 && a * d <= n
    ensures a * d <= Round(n, d) * d
  {
    RoundMonotone(a * d, n, d);
    RoundMultiple(a, d);
    Scaled(a, Round(n, d), d);
  }

  lemma RoundBelow(n: int, b: int, d: nat)
    requires d > 0 && n <= b * d
    ensures Round(n, d) * d <= b * d
  {
    RoundMonotone(n, b * d, d);
    RoundMultiple(b, d);
    Scaled(Round(n, d), b, d);
  }

  /** Fitting keeps a magnitude between the powers of ten that enclose it. */
  lemma FittedRange(n: nat)
    requires Excess(n) > 0
    ensures Pow10(PRECISION + Excess(n) - 1) <= Fitted(n) <= Pow10(PRECISION + Excess(n))
  {
    var k := Excess(n);
    DigitsRange(n);
    FittedBetween(n, k, PRECISION);
  }

  lemma FittedBetween(n: nat, k: nat, p: nat)
    requires k > 0 && p > 0 && Pow10(p + k - 1) <= n < Pow10(p + k)
    ensures Pow10(p + k - 1) <= Round(n, Pow10(k)) * Pow10(k) <= Pow10(p + k)
  {
    PowAdd(p - 1, k);
    PowAdd(p, k);
    RoundAbove(Pow10(p - 1), n, Pow10(k));
    RoundBelow(n, Pow10(p), Pow10(k));
  }

  lemma Scaled(a: int, b: int, d: nat)
    requires a <= b
    ensures a * d <= b * d
  {
    assert b * d - a * d == (b - a) * d;
    assert (b - a) * d >= 0;
  }

  lemma FittedMonotoneNat(n: nat, m: nat)
    requires n <= m
    ensures Fitted(n) <= Fitted(m)
  {
    var k, l := Excess(n), Excess(m);
    DigitsMonotone(n, m);
    if k == l {
      RoundMonotone(n, m, Pow10(k));
      Scaled(Round(n, Pow10(k)), Round(m, Pow10(k)), Pow10(k));
    } else {
      FittedRange(m);
      PowMonotone(PRECISION + k, PRECISION + l - 1);
      FittedBelow(n);
    }
  }

  lemma FittedBelow(n: nat)
    ensures Fitted(n) <= Pow10(PRECISION + Excess(n))
  {
    if Excess(n) > 0 {
      FittedRange(n);
    } else {
      DigitsBound(n, PRECISION);
      FittedExact(n);
    }
  }

  lemma DigitsMonotone(n: nat, m: nat)
    requires n <= m
    ensures Digits(n) <= Digits(m)
  {
    DigitsBound(m, Digits(m));
    DigitsBound(n, Digits(m));
  }

  lemma FittedOdd(n: int)
    ensures Fitted(-n) == -Fitted(n)
  {
    var d := Pow10(Excess(Abs(n)));
    assert Round(-n, d) == -Round(n, d) by {
      if n == 0 {
        RoundMultiple(0, d);
      }
    }
    assert (-Round(n, d)) * d == -(Round(n, d) * d);
  }

  lemma FittedSign(n: nat)
    ensures Fitted(n) >= 0
  {
    var d := Pow10(Excess(n));
    Scaled(0, Round(n, d), d);
  }

  lemma FittedMonotone(n: int, m: int)
    requires n <= m
    ensures Fitted(n) <= Fitted(m)
  {
    if n >= 0 {
      FittedMonotoneNat(n, m);
    } else if m <= 0 {
      FittedMonotoneNat(-m, -n);
      FittedOdd(n);
      FittedOdd(m);
    } else {
      FittedSign(m);
      FittedSign(-n);
      FittedOdd(n);
    }
  }
}
