/** Conversion of an amount to hryvnia. Amounts are minor units; a rate is the stored
    Numeric(18, 8) times 10^8, so a product of both counts units of 10^-10 of a hryvnia. */
module FxRollup {
  import opened Common
  import opened HalfEven

  /** One minor unit of the result, in the units of a product. */
  const UNIT := 100_000_000

  datatype Source = NativeUah | MonoCard | Nbu

  datatype FxFields = FxFields(
    uah: Option<int>,
    rate: Option<int>,
    rateDate: Option<int>,
    source: Source,
    stale: bool)

  /** A product rounded to the precision, then to the kopeck. */
  function Twice(p: int): int {
    Round(Fitted(p), UNIT)
  }

  predicate Fits(x: int) {
    Abs(x) < Pow10(PRECISION)
  }

  function Quantized(q: int): Result<int, string> {
    if Fits(q) then Success(q) else Failure("InvalidOperation")
  }

  /** Division by 100, multiplication, quantization to the kopeck: the first two round to the
      precision, the last one raises when its result does not fit it. */
  function Converted(amount: int, rate: int): Result<int, string> {
    Quantized(Twice(Fitted(amount) * rate))
  }

  function Rollup(amount: int, currency: string, rate: Option<int>, rateDate: Option<int>,
                  day: Option<int>, opCurrency: Option<string>): Result<FxFields, string> {
    if currency == "UAH" then Success(FxFields(Some(amount), Some(UNIT), day, NativeUah, false)) else
    var source := if opCurrency.Some? && opCurrency.value != "" && opCurrency.value != currency then MonoCard else Nbu;
    if rate.None? then Success(FxFields(None, None, None, source, true)) else
    match Converted(amount, rate.value)
    case Failure(e) => Failure(e)
    case Success(q) =>
      var stale := rateDate.Some? && day.Some? && rateDate.value < day.value;
      Success(FxFields(Some(q), rate, rateDate, source, stale))
  }

  // ----- one rounding -----

  lemma UnitIsPower()
    ensures Pow10(8) == UNIT && Pow10(0) == 1
  {
  }

  /** A product below 28 digits is rounded once, half to even. */
  lemma SingleRounding(amount: int, rate: int)
    requires Fits(amount) && Fits(amount * rate)
    ensures Converted(amount, rate) == Success(Round(amount * rate, UNIT))
    ensures NearestEven(amount * rate, UNIT, Round(amount * rate, UNIT))
  {
    FittedExact(amount);
    FittedExact(amount * rate);
    RoundNearest(amount * rate, UNIT);
    NearestShrinks(amount * rate, Round(amount * rate, UNIT));
  }

  /** Rounding to a coarser unit leaves a magnitude no larger. */
  lemma NearestShrinks(p: int, q: int)
    requires NearestEven(p, UNIT, q)
    ensures Abs(q) <= Abs(p)
  {
  }

  function Sum(xs: seq<int>): (s: int)
    decreases |xs|
  {
    if xs == [] then 0 else Sum(xs[..|xs| - 1]) + xs[|xs| - 1]
  }

  /** How far the converted amounts are from the products they come from, all together. */
  function Drift(products: seq<int>, qs: seq<int>): nat {
    Abs(Sum(qs) * UNIT - Sum(products))
  }

  lemma {:induction false} NearestAdd(products: seq<int>, qs: seq<int>)
    requires |products| == |qs|
    requires forall k | 0 <= k < |qs| :: NearestEven(products[k], UNIT, qs[k])
    ensures 2 * Drift(products, qs) <= |qs| * UNIT
    decreases |qs|
  {
    if qs != [] {
      var n := |qs| - 1;
      NearestAdd(products[..n], qs[..n]);
      assert NearestEven(products[n], UNIT, qs[n]);
    }
  }

  function Product(amount: int, rate: int): int {
    amount * rate
  }

  /** An amount whose product fits the precision, and what it converts to. */
  predicate ConvertsTo(amount: int, rate: int, q: int) {
    Fits(amount) && Fits(Product(amount, rate)) && Converted(amount, rate) == Success(q)
  }

  lemma ConvertsNearest(amount: int, rate: int, q: int)
    requires ConvertsTo(amount, rate, q)
    ensures NearestEven(Product(amount, rate), UNIT, q)
  {
    SingleRounding(amount, rate);
  }

  function Products(amounts: seq<int>, rates: seq<int>): (ps: seq<int>)
    requires |amounts| == |rates|
  {
    seq(|amounts|, k requires 0 <= k < |amounts| => Product(amounts[k], rates[k]))
  }

  /** The converted amounts add up to the exact sum, give or take half a minor unit for each. */
  lemma SumWithinHalves(amounts: seq<int>, rates: seq<int>, qs: seq<int>)
    requires |amounts| == |rates| == |qs|
    requires forall k | 0 <= k < |qs| :: ConvertsTo(amounts[k], rates[k], qs[k])
    ensures 2 * Drift(Products(amounts, rates), qs) <= |qs| * UNIT
  {
    var products := Products(amounts, rates);
    EachNearest(amounts, rates, qs);
    NearestAdd(products, qs);
  }

  lemma EachNearest(amounts: seq<int>, rates: seq<int>, qs: seq<int>)
    requires |amounts| == |rates| == |qs|
    requires forall k | 0 <= k < |qs| :: ConvertsTo(amounts[k], rates[k], qs[k])
    ensures forall k | 0 <= k < |qs| :: NearestEven(Products(amounts, rates)[k], UNIT, qs[k])
  {
    forall k | 0 <= k < |qs|
      ensures NearestEven(Products(amounts, rates)[k], UNIT, qs[k])
    {
      ConvertsNearest(amounts[k], rates[k], qs[k]);
    }
  }

  // ----- two roundings -----

  /** The first rounding made a tie of a product that was none, and the even neighbour of the tie
      lies on the other side of it. */
  predicate Slips(p: nat) {
    var v := Fitted(p);
    v % UNIT == UNIT / 2 && (if p < v then (v / UNIT) % 2 == 1 else p > v && (v / UNIT) % 2 == 0)
  }

  lemma RoundHalfway(v: nat, m: nat)
    requires v == m * UNIT + UNIT / 2
    ensures Round(v, UNIT) == if m % 2 == 0 then m else m + 1
  {
    RoundOf(v, UNIT, if m % 2 == 0 then m else m + 1);
  }

  lemma FittedNear(p: nat)
    ensures Excess(p) == 0 ==> Fitted(p) == p
    ensures 2 * Abs(p - Fitted(p)) <= Pow10(Excess(p))
    ensures Fitted(p) >= 0
  {
    RoundNearest(p, Pow10(Excess(p)));
    FittedSign(p);
    if Excess(p) == 0 {
      DigitsBound(p, PRECISION);
      FittedExact(p);
    }
  }

  /** A tie off the product itself decides between its two neighbours. */
  lemma TieCase(p: nat)
    requires Excess(p) < 8 && Fitted(p) % UNIT == UNIT / 2
    ensures Twice(p) == Round(p, UNIT) <==> !Slips(p)
  {
    var v := Fitted(p);
    var m := v / UNIT;
    FittedNear(p);
    PowMonotone(Excess(p), 7);
    assert Pow10(7) == 10_000_000;
    RoundHalfway(v, m);
    if p < v {
      RoundOf(p, UNIT, m);
    } else if p > v {
      RoundOf(p, UNIT, m + 1);
    }
  }

  /** Multiples of d stay a whole d away from what they do not reach. */
  lemma Gap(v: int, q: int, d: nat, half: nat)
    requires d > 0 && Abs(v * d - q * (2 * half * d)) < half * d
    ensures Abs(v * d - q * (2 * half * d)) <= half * d - d
  {
    var w := v - q * (2 * half);
    assert w * d == v * d - q * (2 * half * d);
    if w >= half {
      Scaled(half, w, d);
    } else if w + half <= 0 {
      Scaled(w, 0 - half, d);
    } else {
      Scaled(w, half - 1, d);
      Scaled(1 - half, w, d);
    }
  }

  lemma OffTieCase(p: nat)
    requires Excess(p) < 8 && Fitted(p) % UNIT != UNIT / 2
    ensures Twice(p) == Round(p, UNIT)
  {
    var k := Excess(p);
    var d := Pow10(k);
    var v := Fitted(p);
    var q := Round(v, UNIT);
    FittedNear(p);
    RoundNearest(v, UNIT);
    NotATie(v, q);
    UnitSplits(k);
    Gap(Round(p, d), q, d, 5 * Pow10(7 - k));
    assert v == Round(p, d) * d;
    RoundOf(p, UNIT, q);
  }

  lemma HalfwayIsTie(v: nat, q: int)
    requires Abs(v - q * UNIT) == UNIT / 2
    ensures v % UNIT == UNIT / 2
  {
    var m := if v > q * UNIT then q else q - 1;
    assert v == m * UNIT + UNIT / 2;
  }

  lemma NotATie(v: nat, q: int)
    requires NearestEven(v, UNIT, q) && v % UNIT != UNIT / 2
    ensures Abs(v - q * UNIT) < UNIT / 2
  {
    if Abs(v - q * UNIT) == UNIT / 2 {
      HalfwayIsTie(v, q);
    }
  }

  lemma UnitSplits(k: nat)
    requires k < 8
    ensures UNIT == 2 * (5 * Pow10(7 - k)) * Pow10(k) && UNIT / 2 == (5 * Pow10(7 - k)) * Pow10(k)
  {
    PowAdd(7 - k, k);
    assert Pow10(7) == 10_000_000;
    assert (5 * Pow10(7 - k)) * Pow10(k) == 5 * (Pow10(7 - k) * Pow10(k));
  }

  /** Where the precision drops as many digits as the quantization, the second does nothing. */
  lemma SameUnitCase(p: nat)
    requires Excess(p) == 8
    ensures Twice(p) == Round(p, UNIT) && Fitted(p) % UNIT == 0
  {
    UnitIsPower();
    RoundMultiple(Round(p, UNIT), UNIT);
    assert Fitted(p) == Round(p, UNIT) * UNIT;
  }

  /** The double rounding loses nothing exactly when the product does not slip. */
  lemma DoubleRoundingExact(p: nat)
    requires p < Pow10(PRECISION + 8)
    ensures Twice(p) == Round(p, UNIT) <==> !Slips(p)
  {
    DigitsBound(p, PRECISION + 8);
    if Excess(p) == 8 {
      SameUnitCase(p);
    } else if Fitted(p) % UNIT == UNIT / 2 {
      TieCase(p);
    } else {
      OffTieCase(p);
    }
  }

  lemma RoundOdd(n: int, d: nat)
    requires d > 0
    ensures Round(-n, d) == -Round(n, d)
  {
    if n == 0 {
      RoundMultiple(0, d);
    }
  }

  // ----- when it raises -----

  /** The largest 36-digit multiples of the unit that still round below 10^36. */
  const OVERFLOW := 1_000_000_000_000_000_000_000_000_000_000_000_000 - 50_000_000

  lemma Powers()
    ensures Pow10(PRECISION) == 10_000_000_000_000_000_000_000_000_000
    ensures Pow10(PRECISION + 8) == Pow10(PRECISION) * UNIT
  {
    PowAdd(PRECISION, 8);
    UnitIsPower();
    PowAdd(14, 14);
    assert Pow10(14) == 100_000_000_000_000;
  }

  lemma OverflowNat(p: nat)
    ensures Twice(p) >= Pow10(PRECISION) <==> p >= OVERFLOW
  {
    Powers();
    var top := Pow10(PRECISION);
    if p <= OVERFLOW {
      FittedMonotone(p, OVERFLOW);
    }
    OverflowEdge();
    if p >= OVERFLOW {
      FittedMonotone(OVERFLOW, p);
      RoundMonotone(Fitted(OVERFLOW), Fitted(p), UNIT);
    } else {
      FittedMonotone(p, OVERFLOW - 1);
      RoundMonotone(Fitted(p), Fitted(OVERFLOW - 1), UNIT);
    }
  }

  /** The first product that raises, and the last that does not. */
  lemma OverflowEdge()
    ensures Twice(OVERFLOW) == Pow10(PRECISION) && Twice(OVERFLOW - 1) == Pow10(PRECISION) - 1
  {
    Powers();
    EdgeExcess(OVERFLOW);
    EdgeExcess(OVERFLOW - 1);
    SameUnitCase(OVERFLOW);
    SameUnitCase(OVERFLOW - 1);
    RoundOf(OVERFLOW, UNIT, Pow10(PRECISION));
    RoundOf(OVERFLOW - 1, UNIT, Pow10(PRECISION) - 1);
  }

  lemma EdgeExcess(p: nat)
    requires OVERFLOW - 1 <= p <= OVERFLOW
    ensures Excess(p) == 8
  {
    Powers();
    assert Pow10(PRECISION + 8) == 10 * Pow10(PRECISION + 7);
    ExcessIs(p, 8);
  }

  lemma TwiceOdd(p: int)
    ensures Twice(-p) == -Twice(p)
  {
    FittedOdd(p);
    RoundOdd(Fitted(p), UNIT);
  }

  /** The conversion raises exactly for products this large. */
  lemma RaisesExactly(amount: int, rate: int)
    ensures Converted(amount, rate).Failure? <==> Abs(Fitted(amount) * rate) >= OVERFLOW
    ensures Fits(amount) ==> Fitted(amount) == amount
  {
    RaisesAt(Fitted(amount) * rate);
    if Fits(amount) {
      FittedExact(amount);
    }
  }

  lemma RaisesAt(p: int)
    ensures Quantized(Twice(p)).Failure? <==> Abs(p) >= OVERFLOW
  {
    OverflowNat(Abs(p));
    TwiceSign(Abs(p));
    TwiceOdd(p);
  }

  lemma TwiceSign(p: nat)
    ensures Twice(p) >= 0
  {
    FittedSign(p);
    RoundMonotone(0, Fitted(p), UNIT);
    RoundMultiple(0, UNIT);
  }

  /** The result is the one half-even rounding of the exact quotient, or an error, or off by the
      double rounding; which of them is decided by the product. */
  lemma ConversionExactly(amount: int, rate: int)
    requires Fits(amount)
    ensures var p := amount * rate;
            Converted(amount, rate) == Success(Round(p, UNIT)) <==> Abs(p) < OVERFLOW && !Slips(Abs(p))
  {
    var p := amount * rate;
    RaisesExactly(amount, rate);
    Powers();
    if Abs(p) < OVERFLOW {
      DoubleRoundingExact(Abs(p));
      TwiceOdd(p);
      RoundOdd(p, UNIT);
    }
  }

  /** An amount and a rate that fit their columns, and a kopeck that the precision loses. */
  lemma DoubleRoundingSlips()
    ensures var amount, rate := 2_300_000_000_163_296_667, 4_380_330_003;
            && amount < 0x8000_0000_0000_0000
            && Round(amount * rate, UNIT) == 100_747_590_076_152_932_899
            && Converted(amount, rate) == Success(100_747_590_076_152_932_898)
  {
    var amount, rate := 2_300_000_000_163_296_667, 4_380_330_003;
    var p := amount * rate;
    assert p == 10_074_759_007_615_293_289_850_000_001;
    Powers();
    FittedExact(amount);
    assert Pow10(PRECISION + 1) == 10 * Pow10(PRECISION);
    ExcessIs(p, 1);
    assert Pow10(1) == 10 * Pow10(0);
    RoundOf(p, 10, 1_007_475_900_761_529_328_985_000_000);
    RoundOf(p - 1, UNIT, 100_747_590_076_152_932_898);
    RoundOf(p, UNIT, 100_747_590_076_152_932_899);
  }

  // ----- laws on all inputs -----

  function Negated(r: Result<int, string>): Result<int, string> {
    if r.Success? then Success(-r.value) else r
  }

  lemma ConversionOdd(amount: int, rate: int)
    ensures Converted(-amount, rate) == Negated(Converted(amount, rate))
  {
    FittedOdd(amount);
    NegatedProduct(Fitted(amount), rate);
    OddAt(Fitted(amount) * rate, Fitted(-amount) * rate);
  }

  lemma OddAt(p: int, m: int)
    requires m == -p
    ensures Quantized(Twice(m)) == Negated(Quantized(Twice(p)))
  {
    TwiceOdd(p);
  }

  lemma NegatedProduct(a: int, b: int)
    ensures (-a) * b == -(a * b)
  {
  }

  /** A larger amount never converts to less, and does not raise between two that convert. */
  lemma ConversionMonotone(a: int, b: int, c: int, rate: nat)
    requires a <= b <= c
    ensures Converted(a, rate).Success? && Converted(b, rate).Success? ==>
              Converted(a, rate).value <= Converted(b, rate).value
    ensures Converted(a, rate).Success? && Converted(c, rate).Success? ==> Converted(b, rate).Success?
  {
    TwiceMonotone(a, b, rate);
    TwiceMonotone(b, c, rate);
  }

  lemma TwiceMonotone(a: int, b: int, rate: nat)
    requires a <= b
    ensures Twice(Fitted(a) * rate) <= Twice(Fitted(b) * rate)
  {
    FittedMonotone(a, b);
    Scaled(Fitted(a), Fitted(b), rate);
    FittedMonotone(Fitted(a) * rate, Fitted(b) * rate);
    RoundMonotone(Fitted(Fitted(a) * rate), Fitted(Fitted(b) * rate), UNIT);
  }

  /** The operation currency decides the label and nothing else. */
  lemma LabelOnly(amount: int, currency: string, rate: Option<int>, rateDate: Option<int>, day: Option<int>,
                  op: Option<string>, other: Option<string>)
    ensures var a := Rollup(amount, currency, rate, rateDate, day, op);
            var b := Rollup(amount, currency, rate, rateDate, day, other);
            && (a.Success? <==> b.Success?)
            && (a.Success? ==> b.value == a.value.(source := b.value.source))
            && (a.Failure? ==> a == b)
  {
  }

  /** The five fields of a row. It raises exactly when a foreign row has a rate and the conversion
      raises; it is stale exactly when it is foreign and its rate is absent or older than its day. */
  lemma Classification(amount: int, currency: string, rate: Option<int>, rateDate: Option<int>, day: Option<int>,
                       op: Option<string>)
    ensures var r := Rollup(amount, currency, rate, rateDate, day, op);
            var native := currency == "UAH";
            && (r.Failure? <==> !native && rate.Some? && Converted(amount, rate.value).Failure?)
            && (r.Success? ==>
                  var f := r.value;
                  && (f.uah.Some? <==> native || rate.Some?)
                  && (f.uah.Some? ==>
                        Success(f.uah.value) == if native then Success(amount) else Converted(amount, rate.value))
                  && (f.rate == if native then Some(UNIT) else rate)
                  && (f.rateDate == if native then day else if rate.Some? then rateDate else None)
                  && (f.source.NativeUah? <==> native)
                  && (f.source.MonoCard? <==> !native && op.Some? && op.value !in {"", currency})
                  && (f.stale <==>
                        !native && (rate.None? || (rateDate.Some? && day.Some? && rateDate.value < day.value))))
  {
  }
}
