/** The money value object of app/core/money.py. */
module Money {
  import opened Common

  const CURRENCY_EXPONENTS: map<string, nat> := map[
    "USD" := 2, "EUR" := 2, "GBP" := 2, "CAD" := 2, "AUD" := 2, "TRY" := 2, "AED" := 2,
    "SAR" := 2, "INR" := 2, "JPY" := 0, "BTC" := 8, "ETH" := 8, "USDT" := 6]

  /** A code that passed `__post_init__`: upper case and registered. */
  type CurrencyCode = c: string | c in CURRENCY_EXPONENTS witness "USD"

  /** `exponent_for` on a registered code. */
  function ExponentFor(code: CurrencyCode): (exp: int)
    ensures 0 <= exp <= 8
  {
    CURRENCY_EXPONENTS[code]
  }

  datatype MoneyAmount = MoneyAmount(minorUnits: int, currency: CurrencyCode)

  datatype MoneyError = UnsupportedCurrency | PrecisionExceeded

  /** A finite decimal: coefficient times a power of ten. */
  datatype Decimal = Decimal(coefficient: int, exponent: int)

  /** `x` times ten to the power `k`. */
  function Scale(x: real, k: int): real
    decreases if k < 0 then -k else k
  {
    if k == 0 then x else if k > 0 then Scale(10.0 * x, k - 1) else Scale(0.1 * x, k + 1)
  }

  function Value(d: Decimal): real {
    Scale(d.coefficient as real, d.exponent)
  }

  /** ROUND_HALF_EVEN to an integer. */
  function RoundHalfEven(x: real): int {
    var f := x.Floor;
    var rest := x - f as real;
    if rest < 0.5 then f
    else if rest > 0.5 then f + 1
    else if f % 2 == 0 then f else f + 1
  }

  /** One more than the largest coefficient of the default 28-digit context. */
  const LIMIT: nat := 10_000_000_000_000_000_000_000_000_000

  function AbsInt(n: int): nat {
    if n < 0 then -n else n
  }

  predicate FitsContext(d: Decimal) {
    AbsInt(d.coefficient) < LIMIT
  }

  /** The digits a coefficient has beyond the context's precision. */
  function Excess(n: nat): nat {
    if n < LIMIT then 0 else 1 + Excess(n / 10)
  }

  /** The result of an arithmetic operation, rounded to the context's precision. */
  function InContext(d: Decimal): Decimal {
    if FitsContext(d) then d
    else
      var k := Excess(AbsInt(d.coefficient));
      Decimal(RoundHalfEven(Scale(d.coefficient as real, -(k as int))), d.exponent + k)
  }

  /** `d.quantize(10 ** exponent)`; raises when the result needs more digits than the context has. */
  function Quantize(d: Decimal, exponent: int): Result<Decimal, MoneyError> {
    var q := Decimal(RoundHalfEven(Scale(Value(d), -exponent)), exponent);
    if FitsContext(q) then Ok(q) else Raised(PrecisionExceeded)
  }

  /** ASCII `upper()`. */
  function Upper(s: string): string {
    seq(|s|, i requires 0 <= i < |s| =>
      if 'a' <= s[i] <= 'z' then (s[i] as int - 32) as char else s[i])
  }

  function FromDecimal(amount: Decimal, currency: string): Result<MoneyAmount, MoneyError> {
    var code := Upper(currency);
    if code !in CURRENCY_EXPONENTS then Raised(UnsupportedCurrency)
    else
      var exp := ExponentFor(code);
      var scaled := Quantize(InContext(Decimal(amount.coefficient, amount.exponent + exp)), 0);
      if scaled.Raised? then Raised(scaled.error) else Ok(MoneyAmount(scaled.value.coefficient, code))
  }

  function ToDecimal(m: MoneyAmount): Result<Decimal, MoneyError> {
    var exp := ExponentFor(m.currency);
    Quantize(InContext(Decimal(m.minorUnits, -exp)), -exp)
  }

  // ---------------------------------------------------------------- rounding

  /** The rounded value is within one half, a tie goes to the even neighbour, and no other
      integer has both properties. */
  lemma RoundingIsNearestEven(x: real, n: int)
    ensures n == RoundHalfEven(x) <==>
            && -0.5 <= x - n as real <= 0.5
            && (x - n as real == 0.5 || x - n as real == -0.5 ==> n % 2 == 0)
  {
    var f := x.Floor;
    assert n <= f - 1 || n == f || n == f + 1 || n >= f + 2;
  }

  lemma RoundingIsMonotone(x: real, y: real)
    requires x <= y
    ensures RoundHalfEven(x) <= RoundHalfEven(y)
  {
    assert x.Floor <= y.Floor;
  }

  lemma RoundingCommutesWithNegation(x: real)
    ensures RoundHalfEven(-x) == -RoundHalfEven(x)
  {
    RoundingIsNearestEven(x, RoundHalfEven(x));
    RoundingIsNearestEven(-x, -RoundHalfEven(x));
  }

  lemma RoundsToItself(x: real, n: int)
    requires x == n as real
    ensures RoundHalfEven(x) == n
  {
  }

  // ---------------------------------------------------------------- powers of ten

  lemma {:induction false} ScaleTen(x: real, k: int)
    ensures Scale(10.0 * x, k) == 10.0 * Scale(x, k)
    decreases AbsInt(k)
  {
    if k == 0 {
    } else if k > 0 {
      ScaleTen(10.0 * x, k - 1);
    } else {
      ScaleTen(0.1 * x, k + 1);
    }
  }

  lemma {:induction false} ScaleUp(x: real, k: int)
    ensures Scale(x, k + 1) == 10.0 * Scale(x, k)
  {
    if k >= 0 {
      ScaleTen(x, k);
    } else {
      ScaleTen(0.1 * x, k + 1);
    }
  }

  /** Scaling twice adds the exponents. */
  lemma {:induction false} ScaleAdds(x: real, a: int, b: int)
    ensures Scale(Scale(x, a), b) == Scale(x, a + b)
    decreases AbsInt(b)
  {
    if b == 0 {
    } else if b > 0 {
      ScaleUp(x, a);
      ScaleAdds(x, a + 1, b - 1);
    } else {
      ScaleUp(x, a - 1);
      ScaleAdds(x, a - 1, b + 1);
    }
  }

  lemma {:induction false} ScaleOrder(x: real, y: real, k: int)
    requires x <= y
    ensures Scale(x, k) <= Scale(y, k)
    decreases AbsInt(k)
  {
    if k == 0 {
    } else if k > 0 {
      ScaleOrder(10.0 * x, 10.0 * y, k - 1);
    } else {
      ScaleOrder(0.1 * x, 0.1 * y, k + 1);
    }
  }

  lemma {:induction false} ScaleNegates(x: real, k: int)
    ensures Scale(-x, k) == -Scale(x, k)
    decreases AbsInt(k)
  {
    if k == 0 {
    } else if k > 0 {
      ScaleNegates(10.0 * x, k - 1);
      assert -(10.0 * x) == 10.0 * -x;
    } else {
      ScaleNegates(0.1 * x, k + 1);
      assert -(0.1 * x) == 0.1 * -x;
    }
  }

  /** An integer scaled up stays an integer. */
  function IntScale(n: int, k: nat): (r: int)
    ensures r as real == Scale(n as real, k)
    ensures k >= 1 ==> AbsInt(r) >= 10 * AbsInt(n)
    decreases k
  {
    if k == 0 then n else IntScale(10 * n, k - 1)
  }

  // ---------------------------------------------------------------- scaling

  /** The exact amount in minor units. */
  function MinorUnits(amount: Decimal, exp: nat): real {
    Scale(Value(amount), exp)
  }

  lemma ScalingIsExact(amount: Decimal, exp: nat)
    ensures Value(Decimal(amount.coefficient, amount.exponent + exp)) == MinorUnits(amount, exp)
  {
    ScaleAdds(amount.coefficient as real, amount.exponent, exp);
  }

  lemma QuantizeToInteger(d: Decimal)
    ensures
      var q := Decimal(RoundHalfEven(Value(d)), 0);
      Quantize(d, 0) == if FitsContext(q) then Ok(q) else Raised(PrecisionExceeded)
  {
    assert Scale(Value(d), 0) == Value(d);
  }

  // ---------------------------------------------------------------- currencies

  predicate SameLetter(a: char, b: char) {
    a == b || ('a' <= a <= 'z' && b as int == a as int - 32) || ('a' <= b <= 'z' && a as int == b as int - 32)
  }

  predicate SameIgnoringCase(s: string, t: string) {
    |s| == |t| && forall i :: 0 <= i < |s| ==> SameLetter(s[i], t[i])
  }

  lemma CodesAreUpper(c: string)
    requires c in CURRENCY_EXPONENTS
    ensures Upper(c) == c
    ensures forall i :: 0 <= i < |c| ==> !('a' <= c[i] <= 'z')
  {
  }

  lemma UpperIgnoresCase(s: string, t: string)
    ensures SameIgnoringCase(s, t) <==> Upper(s) == Upper(t)
  {
    if Upper(s) == Upper(t) {
      assert |Upper(s)| == |Upper(t)|;
      forall i | 0 <= i < |s|
        ensures SameLetter(s[i], t[i])
      {
        assert Upper(s)[i] == Upper(t)[i];
      }
    }
  }

  /** A currency names the registered code it spells in any mixture of cases. The amount is
      refused as unsupported exactly if it spells none. */
  lemma CurrencyIgnoresCaseExactly(amount: Decimal, currency: string)
    ensures FromDecimal(amount, currency) == Raised(UnsupportedCurrency) <==>
            !exists code: CurrencyCode :: SameIgnoringCase(currency, code)
    ensures forall code: CurrencyCode | SameIgnoringCase(currency, code) ::
              && FromDecimal(amount, currency) == FromDecimal(amount, code)
              && (FromDecimal(amount, currency).Ok? ==> FromDecimal(amount, currency).value.currency == code)
  {
    forall code: CurrencyCode
      ensures SameIgnoringCase(currency, code) <==> Upper(currency) == Upper(code) == code
    {
      CodesAreUpper(code);
      UpperIgnoresCase(currency, code);
    }
    if Upper(currency) in CURRENCY_EXPONENTS {
      var code: CurrencyCode := Upper(currency);
      CodesAreUpper(code);
      assert SameIgnoringCase(currency, code);
    }
  }

  /** For every amount with at most 28 digits and every spelling of a code, `from_decimal`
      succeeds exactly when the rounded amount has at most 28 digits, and then is the nearest
      number of minor units, ties to even. */
  lemma {:induction false} FromDecimalRoundsToNearest(amount: Decimal, currency: string, code: CurrencyCode)
    requires FitsContext(amount) && SameIgnoringCase(currency, code)
    ensures
      var n := RoundHalfEven(MinorUnits(amount, ExponentFor(code)));
      FromDecimal(amount, currency) == if AbsInt(n) < LIMIT then Ok(MoneyAmount(n, code)) else Raised(PrecisionExceeded)
  {
    var exp := ExponentFor(code);
    CodesAreUpper(code);
    UpperIgnoresCase(currency, code);
    ScalingIsExact(amount, exp);
    QuantizeToInteger(Decimal(amount.coefficient, amount.exponent + exp));
  }

  /** One major unit is a hundred minor units, except for the yen, the crypto currencies and
      their dollar token. */
  lemma {:induction false} OneMajorUnit(code: CurrencyCode)
    ensures
      FromDecimal(Decimal(1, 0), code) == Ok(MoneyAmount(
        match code
        case "JPY" => 1
        case "BTC" => 100_000_000
        case "ETH" => 100_000_000
        case "USDT" => 1_000_000
        case _ => 100, code))
  {
    var exp := ExponentFor(code);
    var n := IntScale(1, exp);
    UpperIgnoresCase(code, code);
    FromDecimalRoundsToNearest(Decimal(1, 0), code, code);
    RoundsToItself(MinorUnits(Decimal(1, 0), exp), n);
  }

  // ---------------------------------------------------------------- round trip

  /** Quantizing to its own exponent changes nothing. */
  lemma QuantizeIsIdle(d: Decimal)
    requires FitsContext(d)
    ensures Quantize(d, d.exponent) == Ok(d)
  {
    ScaleAdds(d.coefficient as real, d.exponent, -d.exponent);
    RoundsToItself(Scale(Value(d), -d.exponent), d.coefficient);
  }

  /** An amount has a decimal form exactly if it has at most 28 digits: the number of minor
      units, with as many decimal places as the currency has. */
  lemma {:induction false} ToDecimalIsExact(m: MoneyAmount)
    ensures
      ToDecimal(m) ==
        if AbsInt(m.minorUnits) < LIMIT then Ok(Decimal(m.minorUnits, -ExponentFor(m.currency)))
        else Raised(PrecisionExceeded)
  {
    var exp := ExponentFor(m.currency);
    var d := Decimal(m.minorUnits, -exp);
    if FitsContext(d) {
      QuantizeIsIdle(d);
    } else {
      var q := InContext(d);
      RoundedCoefficientIsLong(d.coefficient);
      ScaleAdds(q.coefficient as real, q.exponent, exp);
      CoarseGrid(q.coefficient, q.exponent + exp);
    }
  }

  /** Exactly the amounts of at most 28 digits survive the conversion to a decimal and back,
      under any spelling of their currency. */
  lemma {:induction false} DecimalRoundTrip(m: MoneyAmount, currency: string)
    requires SameIgnoringCase(currency, m.currency)
    ensures ToDecimal(m).Ok? <==> AbsInt(m.minorUnits) < LIMIT
    ensures ToDecimal(m).Ok? ==> FromDecimal(ToDecimal(m).value, currency) == Ok(m)
  {
    ToDecimalIsExact(m);
    if AbsInt(m.minorUnits) < LIMIT {
      var exp := ExponentFor(m.currency);
      var d := Decimal(m.minorUnits, -exp);
      FromDecimalRoundsToNearest(d, currency, m.currency);
      ScaleAdds(m.minorUnits as real, -exp, exp);
      RoundsToItself(MinorUnits(d, exp), m.minorUnits);
    }
  }

  // ---------------------------------------------------------------- amounts longer than the context

  function Half(j: int): real {
    j as real + 0.5
  }

  predicate KeepsSide(s: real, r: real, h: real) {
    (s < h ==> r <= h) && (s > h ==> r >= h) && (s == h ==> r == h)
  }

  /** `r` rounded `s` to a grid that contains every half: it never crosses one. */
  ghost predicate NeverCrossesHalves(s: real, r: real) {
    forall j :: KeepsSide(s, r, Half(j))
  }

  /** `r` is a half that the exact amount `s` approaches from the side away from the even neighbour. */
  predicate FalseTie(s: real, r: real) {
    var f := r.Floor;
    r == Half(f) && ((s < r && f % 2 != 0) || (s > r && f % 2 == 0))
  }

  lemma RoundingTwice(s: real, r: real)
    requires NeverCrossesHalves(s, r)
    ensures RoundHalfEven(r) == RoundHalfEven(s) <==> !FalseTie(s, r)
  {
    var f := r.Floor;
    assert KeepsSide(s, r, Half(f - 1)) && KeepsSide(s, r, Half(f)) && KeepsSide(s, r, Half(f + 1));
    assert Half(f - 1) < r < Half(f + 1);
    if r == Half(f) {
      if s < r {
        assert s > Half(f - 1);
        RoundingIsNearestEven(s, f);
      } else if s > r {
        assert s < Half(f + 1);
        RoundingIsNearestEven(s, f + 1);
      }
    } else {
      var m := if r < Half(f) then f else f + 1;
      assert Half(m - 1) < r < Half(m);
      assert Half(m - 1) < s < Half(m);
      RoundingIsNearestEven(s, m);
      RoundingIsNearestEven(r, m);
    }
  }

  /** `s` rounded to the grid of the multiples of ten to the power `k`. */
  function OnGrid(s: real, k: int): real {
    Scale(RoundHalfEven(Scale(s, -k)) as real, k)
  }

  lemma {:induction false} GridKeepsSide(s: real, k: int, n: int)
    ensures KeepsSide(s, OnGrid(s, k), Scale(n as real, k))
  {
    var h := Scale(n as real, k);
    ScaleAdds(n as real, k, -k);
    RoundsToItself(Scale(h, -k), n);
    if s <= h {
      ScaleOrder(s, h, -k);
      RoundingIsMonotone(Scale(s, -k), Scale(h, -k));
      ScaleOrder(RoundHalfEven(Scale(s, -k)) as real, n as real, k);
    }
    if s >= h {
      ScaleOrder(h, s, -k);
      RoundingIsMonotone(Scale(h, -k), Scale(s, -k));
      ScaleOrder(n as real, RoundHalfEven(Scale(s, -k)) as real, k);
    }
  }

  lemma {:induction false} HalvesOnGrid(k: int, j: int) returns (n: int)
    requires k < 0
    ensures Scale(n as real, k) == Half(j)
  {
    n := IntScale(10 * j + 5, -k - 1);
    assert 10.0 * Half(j) == (10 * j + 5) as real;
    assert Scale(Half(j), -k) == n as real;
    ScaleAdds(Half(j), -k, k);
  }

  lemma {:induction false} FineGrid(s: real, k: int)
    requires k < 0
    ensures RoundHalfEven(OnGrid(s, k)) == RoundHalfEven(s) <==> !FalseTie(s, OnGrid(s, k))
  {
    forall j
      ensures KeepsSide(s, OnGrid(s, k), Half(j))
    {
      var n := HalvesOnGrid(k, j);
      GridKeepsSide(s, k, n);
    }
    RoundingTwice(s, OnGrid(s, k));
  }

  lemma UnitGrid(s: real)
    ensures RoundHalfEven(OnGrid(s, 0)) == RoundHalfEven(s) && !FalseTie(s, OnGrid(s, 0))
  {
    RoundsToItself(RoundHalfEven(s) as real, RoundHalfEven(s));
  }

  lemma CoarseGrid(n: int, k: nat)
    requires AbsInt(n) >= LIMIT / 10 && k >= 1
    ensures AbsInt(RoundHalfEven(Scale(n as real, k))) >= LIMIT
  {
    RoundsToItself(Scale(n as real, k), IntScale(n, k));
  }

  /** The coefficient that is left after rounding to the context still has 28 digits. */
  lemma {:induction false} ExcessLeavesDigits(n: nat)
    requires n >= LIMIT / 10
    ensures Scale(n as real, -(Excess(n) as int)) >= (LIMIT / 10) as real
  {
    if n >= LIMIT {
      ExcessLeavesDigits(n / 10);
      ScaleOrder((n / 10) as real, 0.1 * n as real, -(Excess(n / 10) as int));
    }
  }

  lemma {:induction false} RoundedCoefficientIsLong(c: int)
    requires AbsInt(c) >= LIMIT
    ensures AbsInt(RoundHalfEven(Scale(c as real, -(Excess(AbsInt(c)) as int)))) >= LIMIT / 10
  {
    var n, k := AbsInt(c), -(Excess(AbsInt(c)) as int);
    ExcessLeavesDigits(n);
    RoundsToItself((LIMIT / 10) as real, LIMIT / 10);
    RoundingIsMonotone((LIMIT / 10) as real, Scale(n as real, k));
    if c < 0 {
      ScaleNegates(n as real, k);
      RoundingCommutesWithNegation(Scale(n as real, k));
      assert c as real == -(n as real);
    }
  }

  /** Rounding to the context rounds to a grid of one power of ten and leaves 28 digits. */
  lemma {:induction false} ContextRoundsToGrid(d: Decimal)
    requires !FitsContext(d)
    ensures Value(InContext(d)) == OnGrid(Value(d), InContext(d).exponent)
    ensures AbsInt(InContext(d).coefficient) >= LIMIT / 10
  {
    var k := Excess(AbsInt(d.coefficient));
    ScaleAdds(d.coefficient as real, d.exponent, -(d.exponent + k));
    RoundedCoefficientIsLong(d.coefficient);
  }

  lemma {:induction false} ScaledIsCorrectExactly(d: Decimal)
    requires Quantize(InContext(d), 0).Ok?
    ensures Quantize(InContext(d), 0).value.coefficient == RoundHalfEven(Value(d)) <==>
            !FalseTie(Value(d), Value(InContext(d)))
  {
    var q := InContext(d);
    QuantizeToInteger(q);
    if !FitsContext(d) {
      ContextRoundsToGrid(d);
      if q.exponent < 0 {
        FineGrid(Value(d), q.exponent);
      } else if q.exponent == 0 {
        UnitGrid(Value(d));
      } else {
        CoarseGrid(q.coefficient, q.exponent);
      }
    }
  }

  /** For every amount of any length: the result is the correctly rounded number of minor
      units exactly when the 28-digit context does not first round the amount onto a half
      that it lies beside. */
  lemma {:induction false} FromDecimalIsCorrectExactly(amount: Decimal, currency: string, code: CurrencyCode)
    requires SameIgnoringCase(currency, code) && FromDecimal(amount, currency).Ok?
    ensures
      var exp := ExponentFor(code);
      var scaled := Decimal(amount.coefficient, amount.exponent + exp);
      var exact, rounded := MinorUnits(amount, exp), Value(InContext(scaled));
      FromDecimal(amount, currency).value.minorUnits == RoundHalfEven(exact) <==> !FalseTie(exact, rounded)
  {
    var exp := ExponentFor(code);
    CodesAreUpper(code);
    UpperIgnoresCase(currency, code);
    ScalingIsExact(amount, exp);
    ScaledIsCorrectExactly(Decimal(amount.coefficient, amount.exponent + exp));
  }

  // ---------------------------------------------------------------- monotone and odd, at any length

  lemma {:induction false} ScaleZero(k: int)
    ensures Scale(0.0, k) == 0.0
    decreases AbsInt(k)
  {
    if k == 0 {
    } else if k > 0 {
      ScaleZero(k - 1);
    } else {
      ScaleZero(k + 1);
    }
  }

  lemma {:induction false} ScaleGrows(x: real, a: int, b: int)
    requires x >= 0.0 && a <= b
    ensures 0.0 <= Scale(x, a) <= Scale(x, b)
    decreases b - a
  {
    ScaleOrder(0.0, x, a);
    ScaleZero(a);
    if a < b {
      ScaleGrows(x, a + 1, b);
      ScaleUp(x, a);
    }
  }

  lemma {:induction false} ExcessIsEnough(n: nat)
    ensures Scale((n + 1) as real, -(Excess(n) as int)) <= LIMIT as real
  {
    if n >= LIMIT {
      ExcessIsEnough(n / 10);
      ScaleOrder(0.1 * (n + 1) as real, (n / 10 + 1) as real, -(Excess(n / 10) as int));
    }
  }

  /** The largest magnitude of 28-digit numbers with exponent `k`, and the smallest of those
      that need all 28 digits. */
  function Top(k: int): real {
    Scale(LIMIT as real, k)
  }

  function Bottom(k: int): real {
    Scale((LIMIT / 10) as real, k)
  }

  lemma {:induction false} TopBelowBottom(a: int, b: int)
    requires a < b
    ensures 0.0 <= Top(a) <= Bottom(b)
  {
    ScaleGrows((LIMIT / 10) as real, a + 1, b);
    assert Scale((LIMIT / 10) as real, a + 1) == 10.0 * Scale((LIMIT / 10) as real, a) by {
      ScaleUp((LIMIT / 10) as real, a);
    }
    ScaleTen((LIMIT / 10) as real, a);
    assert 10.0 * (LIMIT / 10) as real == LIMIT as real;
  }

  /** `r` is `x` rounded to the grid of exponent `k`, which `x` reaches with at most 28 digits. */
  ghost predicate Rounded(x: real, r: real, k: int) {
    r == OnGrid(x, k) && -Top(k) <= x <= Top(k)
  }

  lemma {:induction false} ShortIsRounded(d: Decimal)
    requires FitsContext(d)
    ensures Rounded(Value(d), Value(d), d.exponent)
  {
    var c := d.coefficient as real;
    ScaleAdds(c, d.exponent, -d.exponent);
    RoundsToItself(Scale(Value(d), -d.exponent), d.coefficient);
    ScaleOrder(c, LIMIT as real, d.exponent);
    ScaleOrder(-c, LIMIT as real, d.exponent);
    ScaleNegates(c, d.exponent);
  }

  /** The digits kept of a long coefficient: between 27 and 28 of them before the point. */
  lemma {:induction false} KeptDigits(c: int)
    requires AbsInt(c) >= LIMIT
    ensures
      var y := Scale(c as real, -(Excess(AbsInt(c)) as int));
      if c >= 0 then (LIMIT / 10) as real <= y <= LIMIT as real else (LIMIT / 10) as real <= -y <= LIMIT as real
  {
    var n := AbsInt(c);
    var k := -(Excess(n) as int);
    ExcessIsEnough(n);
    ExcessLeavesDigits(n);
    ScaleOrder(n as real, (n + 1) as real, k);
    if c < 0 {
      ScaleNegates(n as real, k);
      assert c as real == -(n as real);
    }
  }

  lemma {:induction false} LongIsRounded(d: Decimal)
    requires !FitsContext(d)
    ensures
      var x, k := Value(d), InContext(d).exponent;
      && Rounded(x, Value(InContext(d)), k)
      && (x >= Bottom(k) || x <= -Bottom(k))
  {
    var c, e := d.coefficient, Excess(AbsInt(d.coefficient));
    var k, y := d.exponent + e, Scale(c as real, -(e as int));
    ContextRoundsToGrid(d);
    KeptDigits(c);
    ScaleAdds(c as real, -(e as int), k);
    ScaleNegates(y, k);
    if c >= 0 {
      ScaleOrder((LIMIT / 10) as real, y, k);
      ScaleOrder(y, LIMIT as real, k);
      TopBelowBottom(k - 1, k);
    } else {
      ScaleOrder((LIMIT / 10) as real, -y, k);
      ScaleOrder(-y, LIMIT as real, k);
      TopBelowBottom(k - 1, k);
    }
  }

  lemma {:induction false} SameGridOrder(x: real, y: real, k: int)
    requires x <= y
    ensures OnGrid(x, k) <= OnGrid(y, k)
  {
    ScaleOrder(x, y, -k);
    RoundingIsMonotone(Scale(x, -k), Scale(y, -k));
    ScaleOrder(RoundHalfEven(Scale(x, -k)) as real, RoundHalfEven(Scale(y, -k)) as real, k);
  }

  /** A decimal of exponent `k` lies on every finer grid. */
  lemma {:induction false} OnFinerGrid(d: Decimal, j: int, x: real)
    requires j <= d.exponent
    ensures KeepsSide(x, OnGrid(x, j), Value(d))
  {
    var n := IntScale(d.coefficient, d.exponent - j);
    ScaleAdds(d.coefficient as real, d.exponent - j, j);
    GridKeepsSide(x, j, n);
  }

  lemma {:induction false} TopAndBottomOnGrid(x: real, k: int)
    ensures KeepsSide(x, OnGrid(x, k), Top(k)) && KeepsSide(x, OnGrid(x, k), -Top(k))
    ensures KeepsSide(x, OnGrid(x, k), Bottom(k)) && KeepsSide(x, OnGrid(x, k), -Bottom(k))
  {
    GridKeepsSide(x, k, LIMIT);
    GridKeepsSide(x, k, -(LIMIT as int));
    GridKeepsSide(x, k, LIMIT / 10);
    GridKeepsSide(x, k, -((LIMIT / 10) as int));
    ScaleNegates(LIMIT as real, k);
    ScaleNegates((LIMIT / 10) as real, k);
  }

  /** What `InContext` makes of a decimal: its value on a grid, exact for a short one, and
      near the top of that grid for a long one. */
  lemma {:induction false} ContextFacts(d: Decimal)
    ensures
      var x, r, k := Value(d), Value(InContext(d)), InContext(d).exponent;
      && Rounded(x, r, k)
      && (FitsContext(d) ==> r == x)
      && (!FitsContext(d) ==> x >= Bottom(k) || x <= -Bottom(k))
  {
    if FitsContext(d) {
      ShortIsRounded(d);
    } else {
      LongIsRounded(d);
    }
  }

  /** A value and its rounding to the context become integers of at most 28 digits together. */
  lemma {:induction false} ContextKeepsFit(d: Decimal)
    ensures AbsInt(RoundHalfEven(Value(InContext(d)))) < LIMIT <==> AbsInt(RoundHalfEven(Value(d))) < LIMIT
  {
    var x, r, k := Value(d), Value(InContext(d)), InContext(d).exponent;
    ContextFacts(d);
    if FitsContext(d) {
    } else if k == 0 {
      UnitGrid(x);
    } else if k > 0 {
      ContextRoundsToGrid(d);
      CoarseGrid(InContext(d).coefficient, k);
      TopBelowBottom(0, k);
      if x > 0.0 {
        RoundingIsMonotone(LIMIT as real, x);
      } else {
        RoundingIsMonotone(x, -(LIMIT as real));
      }
    } else {
      TopBelowBottom(k, 0);
      TopAndBottomOnGrid(x, k);
      var top := (LIMIT / 10) as real;
      RoundingIsMonotone(r, top);
      RoundingIsMonotone(-top, r);
      RoundingIsMonotone(x, top);
      RoundingIsMonotone(-top, x);
    }
  }

  /** At any length: an amount is accepted exactly if its rounded number of minor units has
      at most 28 digits. */
  lemma FromDecimalAcceptsExactly(amount: Decimal, currency: string, code: CurrencyCode)
    requires SameIgnoringCase(currency, code)
    ensures FromDecimal(amount, currency).Ok? <==> AbsInt(RoundHalfEven(MinorUnits(amount, ExponentFor(code)))) < LIMIT
  {
    var exp := ExponentFor(code);
    var d := Decimal(amount.coefficient, amount.exponent + exp);
    CodesAreUpper(code);
    UpperIgnoresCase(currency, code);
    ScalingIsExact(amount, exp);
    ContextKeepsFit(d);
    QuantizeToInteger(InContext(d));
  }

  /** Rounding to the context is monotone in the value, whatever the two exponents. */
  lemma {:induction false} ContextIsMonotone(a: Decimal, b: Decimal)
    requires Value(a) <= Value(b)
    ensures Value(InContext(a)) <= Value(InContext(b))
  {
    var x, y, j, k := Value(a), Value(b), InContext(a).exponent, InContext(b).exponent;
    ContextFacts(a);
    ContextFacts(b);
    TopAndBottomOnGrid(x, j);
    TopAndBottomOnGrid(y, k);
    if j == k {
      SameGridOrder(x, y, k);
    } else if j < k {
      TopBelowBottom(j, k);
      if FitsContext(b) {
        OnFinerGrid(b, j, x);
      }
    } else {
      TopBelowBottom(k, j);
      if FitsContext(a) {
        OnFinerGrid(a, k, y);
      }
    }
  }

  /** A larger amount never becomes fewer minor units. */
  lemma {:induction false} FromDecimalIsMonotone(a: Decimal, b: Decimal, currency: string)
    requires Value(a) <= Value(b)
    requires FromDecimal(a, currency).Ok? && FromDecimal(b, currency).Ok?
    ensures FromDecimal(a, currency).value.minorUnits <= FromDecimal(b, currency).value.minorUnits
  {
    var exp := ExponentFor(Upper(currency));
    var a', b' := Decimal(a.coefficient, a.exponent + exp), Decimal(b.coefficient, b.exponent + exp);
    ScalingIsExact(a, exp);
    ScalingIsExact(b, exp);
    ScaleOrder(Value(a), Value(b), exp);
    ContextIsMonotone(a', b');
    QuantizeToInteger(InContext(a'));
    QuantizeToInteger(InContext(b'));
    RoundingIsMonotone(Value(InContext(a')), Value(InContext(b')));
  }

  lemma {:induction false} ContextIsOdd(d: Decimal)
    ensures InContext(Decimal(-d.coefficient, d.exponent)) ==
            Decimal(-InContext(d).coefficient, InContext(d).exponent)
  {
    var c, k := d.coefficient as real, -(Excess(AbsInt(d.coefficient)) as int);
    ScaleNegates(c, k);
    RoundingCommutesWithNegation(Scale(c, k));
  }

  lemma {:induction false} QuantizeIsOdd(d: Decimal)
    ensures
      var q, n := Quantize(d, 0), Quantize(Decimal(-d.coefficient, d.exponent), 0);
      if q.Ok? then n == Ok(Decimal(-q.value.coefficient, 0)) else n == q
  {
    QuantizeToInteger(d);
    QuantizeToInteger(Decimal(-d.coefficient, d.exponent));
    ScaleNegates(d.coefficient as real, d.exponent);
    RoundingCommutesWithNegation(Value(d));
  }

  /** The opposite amount becomes the opposite number of minor units, or fails alike. */
  lemma {:induction false} FromDecimalIsOdd(a: Decimal, currency: string)
    ensures
      var m, n := FromDecimal(a, currency), FromDecimal(Decimal(-a.coefficient, a.exponent), currency);
      if m.Ok? then n == Ok(MoneyAmount(-m.value.minorUnits, m.value.currency)) else n == m
  {
    if Upper(currency) in CURRENCY_EXPONENTS {
      var d := Decimal(a.coefficient, a.exponent + ExponentFor(Upper(currency)));
      ContextIsOdd(d);
      QuantizeIsOdd(InContext(d));
    }
  }

  /** An amount of 29 digits that lies just below one and a half yen becomes two yen. */
  lemma LongAmountMisrounds()
    ensures
      var amount := Decimal(14_999_999_999_999_999_999_999_999_999, -28);
      && FromDecimal(amount, "JPY") == Ok(MoneyAmount(2, "JPY"))
      && RoundHalfEven(MinorUnits(amount, 0)) == 1
  {
    var amount := Decimal(14_999_999_999_999_999_999_999_999_999, -28);
    assert Upper("JPY") == "JPY";
    LongAmountLosesADigit();
    YenAndAHalf();
    QuantizeToInteger(InContext(amount));
    assert MinorUnits(amount, 0) == Value(amount);
  }

  lemma LongAmountLosesADigit()
    ensures InContext(Decimal(14_999_999_999_999_999_999_999_999_999, -28)) ==
            Decimal(1_500_000_000_000_000_000_000_000_000, -27)
  {
    var n := 14_999_999_999_999_999_999_999_999_999;
    assert Excess(n) == 1 + Excess(1_499_999_999_999_999_999_999_999_999);
    assert Scale(n as real, -1) == Scale(1_499_999_999_999_999_999_999_999_999.9, 0);
    RoundingIsNearestEven(1_499_999_999_999_999_999_999_999_999.9, 1_500_000_000_000_000_000_000_000_000);
  }

  lemma YenAndAHalf()
    ensures Value(Decimal(1_500_000_000_000_000_000_000_000_000, -27)) == 1.5
    ensures 1.4 < Value(Decimal(14_999_999_999_999_999_999_999_999_999, -28)) < 1.5
  {
    var x, y := 1.5, 1.4999999999999999999999999999;
    ScaleBy27(x);
    ScaleBy27(y);
    ScaleUp(y, 27);
    ScaleAdds(x, 27, -27);
    ScaleAdds(y, 28, -28);
  }

  lemma {:induction false} ScaleBy27(x: real)
    ensures Scale(x, 27) == 1_000_000_000_000_000_000_000_000_000.0 * x
  {
    ScaleBy9(x);
    ScaleBy9(1_000_000_000.0 * x);
    ScaleBy9(1_000_000_000_000_000_000.0 * x);
    ScaleAdds(x, 9, 9);
    ScaleAdds(x, 18, 9);
  }

  lemma {:induction false} ScaleBy9(x: real)
    ensures Scale(x, 9) == 1_000_000_000.0 * x
  {
    assert Scale(x, 3) == 1000.0 * x;
    assert Scale(1000.0 * x, 3) == 1_000_000.0 * x;
    assert Scale(1_000_000.0 * x, 3) == 1_000_000_000.0 * x;
    ScaleAdds(x, 3, 3);
    ScaleAdds(x, 6, 3);
  }
}
