/**
 * The locale-independent "0.###" rendering used for every coordinate the
 * pipeline writes (`FormatNumber` in CsPotraceExportGCODE.cs and
 * `formatnumber(double)` in GrblFile.cs), together with a reader for the
 * same decimal syntax so that the rendering can be checked by round trip.
 */
module Format {
  import opened Wrappers
  import opened Numbers

  predicate IsDigit(c: char)
  {
    '0' <= c <= '9'
  }

  predicate AllDigits(s: string)
  {
    forall i :: 0 <= i < |s| ==> IsDigit(s[i])
  }

  function DigitChar(d: nat): (c: char)
    requires d < 10
    ensures IsDigit(c)
  {
    (d + '0' as int) as char
  }

  function DigitValue(c: char): (d: nat)
    requires IsDigit(c)
    ensures d < 10
  {
    c as int - '0' as int
  }

  /** Decimal digits of `n`, most significant first, without leading zeros. */
  function NatToString(n: nat): (s: string)
    ensures |s| > 0 && AllDigits(s)
  {
    if n < 10 then [DigitChar(n)] else NatToString(n / 10) + [DigitChar(n % 10)]
  }

  /** The number a string of decimal digits denotes. */
  function DigitsValue(s: string): nat
    requires AllDigits(s)
  {
    if s == [] then 0 else DigitsValue(s[..|s| - 1]) * 10 + DigitValue(s[|s| - 1])
  }

  lemma {:induction false} NatToStringRoundTrip(n: nat)
    ensures DigitsValue(NatToString(n)) == n
  {
    if n >= 10 {
      var s := NatToString(n);
      assert s[..|s| - 1] == NatToString(n / 10);
      NatToStringRoundTrip(n / 10);
    }
  }

  /** The fractional digits "0.###" prints for `f` thousandths: three digits
      with the trailing zeros trimmed (nothing at all when `f` is 0). */
  function FractionDigits(f: nat): (s: string)
    requires f < 1000
    ensures |s| <= 3 && AllDigits(s)
    ensures (s == []) <==> (f == 0)
    ensures s != [] ==> s[|s| - 1] != '0'
  {
    var d1, d2, d3 := f / 100, (f / 10) % 10, f % 10;
    if d3 != 0 then [DigitChar(d1), DigitChar(d2), DigitChar(d3)]
    else if d2 != 0 then [DigitChar(d1), DigitChar(d2)]
    else if d1 != 0 then [DigitChar(d1)]
    else []
  }

  /** The unsigned part of "0.###" for `m` thousandths: the integer part,
      then a point and the trimmed fraction when the fraction is not zero. */
  function RenderMagnitude(m: nat): string
  {
    var frac := FractionDigits(m % 1000);
    NatToString(m / 1000) + (if frac == [] then "" else "." + frac)
  }

  /** "0.###" of a count of thousandths `q`: a minus sign when `q` is
      negative, then the magnitude. A value that rounds to zero prints "0". */
  function RenderThousandths(q: int): string
  {
    (if q < 0 then "-" else "") + RenderMagnitude(Abs(q))
  }

  /** `FormatNumber(number, scale)`: renders `number / scale` as "0.###" in
      the invariant culture, and "0" when the quotient is NaN. */
  function FormatNumber(number: Double, scale: real): string
    requires scale != 0.0
  {
    match Div(number, scale)
    case NaN => "0"
    case Num(v) => RenderThousandths(RoundAway(v, 1000))
  }

  /** `formatnumber(double)` of GrblFile: "0.###" of a value known to be a number. */
  function FormatValue(v: real): string
  {
    RenderThousandths(RoundAway(v, 1000))
  }

  /** `s` has no occurrence of `ch`. */
  predicate Lacks(s: string, ch: char)
  {
    forall i :: 0 <= i < |s| ==> s[i] != ch
  }

  /** Position of the first `ch` in `s`, or |s| when there is none. */
  function IndexOf(s: string, ch: char): (k: nat)
    ensures k <= |s|
    ensures k < |s| ==> s[k] == ch && Lacks(s[..k], ch)
    ensures k == |s| ==> Lacks(s, ch)
  {
    if s == [] then 0 else if s[0] == ch then 0 else 1 + IndexOf(s[1..], ch)
  }

  /** Text without `ch` in front of `b` moves the first `ch` of `b` by its length. */
  lemma {:induction false} IndexOfAppend(a: string, b: string, ch: char)
    requires Lacks(a, ch)
    ensures IndexOf(a + b, ch) == |a| + IndexOf(b, ch)
  {
    if a != [] {
      assert (a + b)[0] == a[0];
      assert (a + b)[1..] == a[1..] + b;
      assert Lacks(a[1..], ch) by {
        forall i | 0 <= i < |a| - 1 ensures a[1..][i] != ch {
          assert a[1..][i] == a[i + 1];
        }
      }
      IndexOfAppend(a[1..], b, ch);
    } else {
      assert a + b == b;
    }
  }

  /** The value of the digits `fp` read after a decimal point. */
  function FractionValue(fp: string): real
    requires AllDigits(fp)
  {
    if fp == [] then 0.0 else (DigitValue(fp[0]) as real + FractionValue(fp[1..])) / 10.0
  }

  /** The value of integer digits `ip` followed by fraction digits `fp`. */
  function DecimalValue(ip: string, fp: string): real
    requires AllDigits(ip) && AllDigits(fp)
  {
    DigitsValue(ip) as real + FractionValue(fp)
  }

  /** Reads an unsigned invariant-culture decimal: `digits(.digits)?`. */
  function ParseUnsigned(body: string): Option<real>
  {
    var k := IndexOf(body, '.');
    var ip, fp := body[..k], if k < |body| then body[k + 1..] else "";
    if ip == [] || !AllDigits(ip) || !AllDigits(fp) || (k < |body| && fp == []) then None
    else Some(DecimalValue(ip, fp))
  }

  /** Reads an invariant-culture decimal: `-?digits(.digits)?`. */
  function ParseDecimal(s: string): Option<real>
  {
    if |s| > 0 && s[0] == '-' then
      match ParseUnsigned(s[1..])
      case None => None
      case Some(m) => Some(-m)
    else ParseUnsigned(s)
  }

  lemma PointIndexOfDigits(a: string, b: string)
    requires AllDigits(a)
    ensures IndexOf(a + b, '.') == |a| + IndexOf(b, '.')
  {
    assert Lacks(a, '.') by {
      forall i | 0 <= i < |a| ensures a[i] != '.' {
        assert IsDigit(a[i]);
      }
    }
    IndexOfAppend(a, b, '.');
  }

  /** The unsigned part of a rendering reads back as integer part plus fraction. */
  lemma ParseUnsignedRendered(ip: string, frac: string)
    requires |ip| > 0 && AllDigits(ip) && AllDigits(frac)
    ensures ParseUnsigned(ip + (if frac == [] then "" else "." + frac)) == Some(DecimalValue(ip, frac))
  {
    var tail := if frac == [] then "" else "." + frac;
    var body := ip + tail;
    PointIndexOfDigits(ip, tail);
    assert IndexOf(tail, '.') == 0;
    var k := IndexOf(body, '.');
    assert k == |ip|;
    assert body[..k] == ip;
    var fp := if k < |body| then body[k + 1..] else "";
    assert fp == frac by {
      if frac != [] {
        assert body[|ip| + 1..] == frac;
      }
    }
  }

  /** The three decimal digits of a number below 1000. */
  lemma ThreeDigits(f: nat)
    requires f < 1000
    ensures f == (f / 100) * 100 + ((f / 10) % 10) * 10 + f % 10
  {
    var t := f / 10;
    assert f == t * 10 + f % 10;
    assert t == (t / 10) * 10 + t % 10;
    assert t / 10 == f / 100;
  }

  /** The trimmed fraction digits of `f` thousandths read back as f/1000. */
  lemma FractionReal(f: nat)
    requires f < 1000
    ensures FractionValue(FractionDigits(f)) == f as real / 1000.0
  {
    var s := FractionDigits(f);
    var d1, d2, d3 := f / 100, (f / 10) % 10, f % 10;
    ThreeDigits(f);
    var c1, c2, c3 := DigitChar(d1), DigitChar(d2), DigitChar(d3);
    assert FractionValue([c3]) == d3 as real / 10.0 by {
      assert [c3][1..] == [];
    }
    assert FractionValue([c2]) == d2 as real / 10.0 by {
      assert [c2][1..] == [];
    }
    assert FractionValue([c1]) == d1 as real / 10.0 by {
      assert [c1][1..] == [];
    }
    assert FractionValue([c2, c3]) == (d2 as real + d3 as real / 10.0) / 10.0 by {
      assert [c2, c3][1..] == [c3];
    }
    assert FractionValue([c1, c2]) == (d1 as real + d2 as real / 10.0) / 10.0 by {
      assert [c1, c2][1..] == [c2];
    }
    if d3 != 0 {
      assert s[1..] == [c2, c3];
    } else if d2 != 0 {
      assert s == [c1, c2];
    } else if d1 != 0 {
      assert s == [c1];
    }
  }

  lemma {:induction false} RenderMagnitudeRoundTrip(m: nat)
    ensures ParseUnsigned(RenderMagnitude(m)) == Some(m as real / 1000.0)
  {
    var ip := NatToString(m / 1000);
    var frac := FractionDigits(m % 1000);
    ParseUnsignedRendered(ip, frac);
    NatToStringRoundTrip(m / 1000);
    FractionReal(m % 1000);
    assert (m / 1000) as real + (m % 1000) as real / 1000.0 == m as real / 1000.0;
  }

  /** The magnitude starts with a digit and reads back as m/1000. */
  lemma {:induction false} MagnitudeReads(m: nat)
    ensures |RenderMagnitude(m)| > 0 && IsDigit(RenderMagnitude(m)[0])
    ensures ParseUnsigned(RenderMagnitude(m)) == Some(m as real / 1000.0)
  {
    RenderMagnitudeRoundTrip(m);
    assert RenderMagnitude(m)[0] == NatToString(m / 1000)[0];
  }

  /** A minus sign followed by an unsigned number reads as its negation. */
  lemma {:induction false} MinusReads(s: string, body: string, x: real, y: real)
    requires |s| > 0 && s[0] == '-' && s[1..] == body
    requires ParseUnsigned(body) == Some(x) && y == -x
    ensures ParseDecimal(s) == Some(y)
  {
  }

  /** A negative count prints a minus sign before its magnitude. */
  lemma {:induction false} NegativeReads(q: int)
    requires q < 0
    ensures ParseDecimal(RenderThousandths(q)) == Some(q as real / 1000.0)
  {
    var s, body := RenderThousandths(q), RenderMagnitude(Abs(q));
    MagnitudeReads(Abs(q));
    assert s[0] == '-' && s[1..] == body;
    MinusReads(s, body, Abs(q) as real / 1000.0, q as real / 1000.0);
  }

  /** A count that is not negative prints its magnitude alone, which does not
      start with '-'. */
  lemma {:induction false} NonNegativeReads(q: int)
    requires q >= 0
    ensures ParseDecimal(RenderThousandths(q)) == Some(q as real / 1000.0)
  {
    MagnitudeReads(q);
    assert RenderThousandths(q) == RenderMagnitude(q);
    assert RenderMagnitude(q)[0] != '-';
  }

  /** Reading back what RenderThousandths printed gives exactly q/1000. */
  lemma {:induction false} RenderThousandthsRoundTrip(q: int)
    ensures ParseDecimal(RenderThousandths(q)) == Some(q as real / 1000.0)
  {
    if q < 0 {
      NegativeReads(q);
    } else {
      NonNegativeReads(q);
    }
  }

  /** FormatNumber prints "0" for NaN; otherwise what it prints reads back as
      the quotient rounded to three decimals, within 1/2000 of the quotient. */
  lemma FormatNumberRoundTrip(number: Double, scale: real)
    requires scale != 0.0
    ensures number.NaN? ==> FormatNumber(number, scale) == "0"
    ensures number.Num? ==>
      ParseDecimal(FormatNumber(number, scale)) == Some(Thousandths(number.v / scale))
  {
    if number.Num? {
      assert FormatNumber(number, scale) == FormatValue(number.v / scale);
      FormatValueRoundTrip(number.v / scale);
    }
  }

  /** `formatnumber(double)` reads back as its argument rounded to three decimals. */
  lemma FormatValueRoundTrip(v: real)
    ensures ParseDecimal(FormatValue(v)) == Some(Thousandths(v))
  {
    var q := RoundAway(v, 1000);
    RenderThousandthsRoundTrip(q);
    assert FormatValue(v) == RenderThousandths(q);
  }

  lemma MagnitudeFraction(m: nat)
    ensures var s := RenderMagnitude(m); var k := IndexOf(s, '.');
      k == |s| || (1 <= |s| - k - 1 <= 3 && s[|s| - 1] != '0')
  {
    var ip := NatToString(m / 1000);
    var frac := FractionDigits(m % 1000);
    var tail := if frac == [] then "" else "." + frac;
    PointIndexOfDigits(ip, tail);
    if frac == [] {
      assert RenderMagnitude(m) == ip + tail;
    } else {
      assert IndexOf(tail, '.') == 0;
    }
  }

  /** At most three digits follow the decimal point of a rendering, and the last is not 0. */
  lemma ThousandthsDigits(q: int)
    ensures var s := RenderThousandths(q); var k := IndexOf(s, '.');
      k == |s| || (1 <= |s| - k - 1 <= 3 && s[|s| - 1] != '0')
  {
    var mag := RenderMagnitude(Abs(q));
    assert IndexOf(mag, '.') == |mag| || (1 <= |mag| - IndexOf(mag, '.') - 1 <= 3 && mag[|mag| - 1] != '0') by {
      MagnitudeFraction(Abs(q));
    }
    if q < 0 {
      var s := "-" + mag;
      assert RenderThousandths(q) == s;
      assert s[1..] == mag && s[0] == '-';
      assert IndexOf(s, '.') == 1 + IndexOf(mag, '.');
    } else {
      assert RenderThousandths(q) == mag;
    }
  }

  /** At most three digits follow the decimal point, and the last is not 0. */
  lemma FormatNumberDigits(number: Double, scale: real)
    requires scale != 0.0
    ensures var s := FormatNumber(number, scale); var k := IndexOf(s, '.');
      k == |s| || (1 <= |s| - k - 1 <= 3 && s[|s| - 1] != '0')
  {
    if number.Num? {
      var q := RoundAway(number.v / scale, 1000);
      assert FormatNumber(number, scale) == RenderThousandths(q);
      ThousandthsDigits(q);
    } else {
      assert FormatNumber(number, scale) == "0";
      assert IndexOf("0", '.') == 1 + IndexOf("", '.');
    }
  }

}
