/**
 * Small shared vocabulary: optional values, and the numeric behaviour of the
 * .NET types the pipeline computes with (double with NaN, decimal bounds,
 * C# integer division, and the two rounding modes it uses).
 */
module Wrappers {

  datatype Option<+T> = None | Some(value: T)

}

module Numbers {

  /** A double as the pipeline observes it: a real value, or NaN.
      NaN propagates through every arithmetic operation and compares
      false with everything. Infinities are not represented. */
  datatype Double = NaN | Num(v: real)

  function Add(a: Double, b: Double): Double
  {
    if a.NaN? || b.NaN? then NaN else Num(a.v + b.v)
  }

  function Sub(a: Double, b: Double): Double
  {
    if a.NaN? || b.NaN? then NaN else Num(a.v - b.v)
  }

  function Mul(a: Double, b: Double): Double
  {
    if a.NaN? || b.NaN? then NaN else Num(a.v * b.v)
  }

  /** Division by a nonzero real; NaN in gives NaN out. */
  function Div(a: Double, d: real): Double
    requires d != 0.0
  {
    if a.NaN? then NaN else Num(a.v / d)
  }

  /** `double.MaxValue`, the sentinel the travel optimiser starts its searches from. */
  const DoubleMax: real := 179769313486231570814527423731704356798070567525844996598917476803157260780028538760589558632766878171540458953514382464234321326889464182768467546703537516986049910576551282076245490090389328944075868508455133942304583236903222948165808559332123348274797826204144723168738177180919299881250404026184124858368.0

  /** `decimal.MaxValue` and `decimal.MinValue`: the sentinels of an empty range. */
  const DecimalMax: real := 79228162514264337593543950335.0
  const DecimalMin: real := -79228162514264337593543950335.0

  /** The values a `decimal` can hold, as far as ordering is concerned. */
  type Decimal = r: real | DecimalMin <= r <= DecimalMax

  function Abs(x: int): nat
  {
    if x < 0 then -x else x
  }

  /** C# `/` on int: truncates toward zero (Dafny's `/` is Euclidean). */
  function CsDiv(a: int, b: int): int
    requires b != 0
  {
    var m := Abs(a) / Abs(b);
    if (a < 0) != (b < 0) then -m else m
  }

  /** Round half away from zero to an integer number of 1/unit steps:
      how .NET renders a custom numeric format such as "0.###" (unit 1000)
      or "0.00" (unit 100). The result counts units. */
  function RoundAway(x: real, unit: nat): (q: int)
    requires unit > 0
    ensures -1.0 / 2.0 <= q as real - x * unit as real <= 1.0 / 2.0
    ensures (q < 0 ==> x < 0.0) && (q > 0 ==> x > 0.0)
  {
    var t := x * unit as real;
    if t >= 0.0 then (t + 1.0 / 2.0).Floor else -((-t + 1.0 / 2.0).Floor)
  }

  /** Round half to even to 1/unit steps: `Math.Round(x, 3)` with its default
      MidpointRounding.ToEven (unit 1000). The result counts units. */
  function RoundEven(x: real, unit: nat): (q: int)
    requires unit > 0
    ensures -1.0 / 2.0 <= q as real - x * unit as real <= 1.0 / 2.0
  {
    var t := x * unit as real;
    var f := t.Floor;
    var d := t - f as real;
    if d < 1.0 / 2.0 then f
    else if d > 1.0 / 2.0 then f + 1
    else if f % 2 == 0 then f else f + 1
  }

  /** `Math.Round(x, 3)` as a real. */
  function Round3(x: real): (r: real)
    ensures -1.0 / 2000.0 <= r - x <= 1.0 / 2000.0
  {
    RoundEven(x, 1000) as real / 1000.0
  }

  /** The value a "0.###" rendering of `x` stands for. */
  function Thousandths(x: real): (r: real)
    ensures -1.0 / 2000.0 <= r - x <= 1.0 / 2000.0
  {
    RoundAway(x, 1000) as real / 1000.0
  }

  /** `a * b` by repeated addition; `ProductIsMul` shows it is the product.
      Formulas multiply through this function so that the solver meets a
      product only where that lemma is called. */
  function Product(a: int, b: int): int
    decreases Abs(b)
  {
    if b == 0 then 0 else if b > 0 then Product(a, b - 1) + a else Product(a, b + 1) - a
  }

  lemma {:induction false} ProductIsMul(a: int, b: int)
    ensures Product(a, b) == a * b
    decreases Abs(b)
  {
    if b > 0 {
      ProductIsMul(a, b - 1);
    } else if b < 0 {
      ProductIsMul(a, b + 1);
    }
  }

  /** Multiplying by a natural number keeps order. */
  lemma {:induction false} MulMono(a: int, b: int, k: nat)
    requires a <= b
    ensures a * k <= b * k
  {
    if k > 0 {
      MulMono(a, b, k - 1);
      assert a * k == a * (k - 1) + a;
      assert b * k == b * (k - 1) + b;
    }
  }

  /** Lower and upper bounds on a quotient from bounds on the dividend. */
  lemma DivLower(x: int, k: int, c: int)
    requires k > 0 && c * k <= x
    ensures c <= x / k
  {
    var q := x / k;
    if q < c {
      MulMono(q + 1, c, k);
    }
  }

  lemma DivUpper(x: int, k: int, c: int)
    requires k > 0 && x < c * k
    ensures x / k < c
  {
    var q := x / k;
    if q >= c {
      MulMono(c, q, k);
    }
  }

  /** `x / k` by repeated subtraction, for a non-negative x; `QuotientIsDiv`
      shows it is the quotient. Used, like `Product`, to keep division out of
      the solver's sight except where that lemma is called. */
  function Quotient(x: int, k: int): int
    requires k > 0
    decreases if x < k then 0 else x
  {
    if x < k then 0 else 1 + Quotient(x - k, k)
  }

  /** Taking `k` away from the dividend takes one from the quotient. */
  lemma DivStep(x: int, k: int)
    requires k > 0 && x >= k
    ensures x / k == (x - k) / k + 1
  {
    var q := (x - k) / k;
    assert q * k <= x - k < (q + 1) * k;
    assert (q + 1) * k == q * k + k && (q + 2) * k == q * k + k + k;
    DivLower(x, k, q + 1);
    DivUpper(x, k, q + 2);
  }

  lemma {:induction false} QuotientIsDiv(x: int, k: int)
    requires k > 0 && x >= 0
    ensures Quotient(x, k) == x / k
    decreases x
  {
    if x >= k {
      QuotientIsDiv(x - k, k);
      DivStep(x, k);
    } else {
      DivUpper(x, k, 1);
      DivLower(x, k, 0);
    }
  }
}
