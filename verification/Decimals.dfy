/** Exact decimals: the arithmetic behind `Decimal`, NUMERIC(28, 12) and the canonical
    text sent to the exchange (app/core/numbers.py, app/schemas/webhook.py, app/db/models.py). */
module Decimals {

  /** A Python `Decimal`: (-1)^negative * coefficient * 10^exponent, or NaN / an infinity. */
  datatype Decimal = Finite(negative: bool, coefficient: nat, exponent: int) | NotFinite

  /** Significant digits of the default decimal context, and the NUMERIC(28, 12) column. */
  const PRECISION: nat := 28
  const SCALE: int := 12

  // ---------------------------------------------------------------- powers of ten

  function Pow10(n: nat): (r: nat)
    ensures r > 0
  {
    if n == 0 then 1 else 10 * Pow10(n - 1)
  }

  function TenTo(e: int): (r: real)
    ensures r > 0.0
    decreases if e < 0 then -e else e
  {
    if e == 0 then 1.0
    else if e > 0 then 10.0 * TenTo(e - 1)
    else TenTo(e + 1) / 10.0
  }

  function Magnitude(coefficient: nat, exponent: int): real {
    coefficient as real * TenTo(exponent)
  }

  /** The number a finite decimal denotes. */
  function Value(d: Decimal): real
    requires d.Finite?
  {
    if d.negative then -Magnitude(d.coefficient, d.exponent) else Magnitude(d.coefficient, d.exponent)
  }

  lemma Shift(c: nat, e: int)
    ensures Magnitude(10 * c, e) == Magnitude(c, e + 1)
  {
    assert TenTo(e + 1) == 10.0 * TenTo(e);
    assert (10 * c) as real == 10.0 * c as real;
  }

  lemma PowStep(c: nat, k: nat)
    requires k > 0
    ensures c * Pow10(k) == 10 * (c * Pow10(k - 1))
  {}

  lemma {:induction false} ShiftBy(c: nat, e: int, k: nat)
    ensures Magnitude(c * Pow10(k), e) == Magnitude(c, e + k)
    decreases k
  {
    if k > 0 {
      PowStep(c, k);
      Shift(c * Pow10(k - 1), e);
      ShiftBy(c, e + 1, k - 1);
    }
  }

  /** At one exponent, magnitudes compare as coefficients do. */
  lemma SameScale(c: nat, d: nat, e: int)
    ensures Magnitude(c, e) < Magnitude(d, e) <==> c < d
    ensures Magnitude(c, e) == Magnitude(d, e) <==> c == d
  {
    var t := TenTo(e);
    if c < d {
      assert c as real * t < d as real * t;
    } else if d < c {
      assert d as real * t < c as real * t;
    }
  }

  // ---------------------------------------------------------------- normalisation

  /** How many digits of `c` do not fit the context precision. */
  function Excess(c: nat): nat {
    if c < Pow10(PRECISION) then 0 else 1 + Excess(c / 10)
  }

  /** ROUND_HALF_EVEN of c / m to an integer. */
  function RoundHalfEven(c: nat, m: nat): (q: nat)
    requires m > 0
    ensures c / m <= q <= c / m + 1
    ensures c % m == 0 ==> q == c / m
  {
    var q, r := c / m, c % m;
    if 2 * r > m || (2 * r == m && q % 2 == 1) then q + 1 else q
  }

  /** The nearest multiple of `m`, and of two equally near the even one. */
  lemma HalfEvenIsNearest(c: nat, m: nat)
    requires m > 0
    ensures var q := RoundHalfEven(c, m);
      && 2 * (m * q) - m <= 2 * c <= 2 * (m * q) + m
      && (2 * c == 2 * (m * q) - m || 2 * c == 2 * (m * q) + m ==> q % 2 == 0)
  {
    var q, r := c / m, c % m;
    assert c == m * q + r;
    assert m * (q + 1) == m * q + m;
  }

  /** `Decimal.normalize()` without its final pass: the context rounds to 28 digits. */
  function FixPrecision(d: Decimal): Decimal
    requires d.Finite?
  {
    var k := Excess(d.coefficient);
    d.(coefficient := RoundHalfEven(d.coefficient, Pow10(k)), exponent := d.exponent + k)
  }

  function StripZeros(d: Decimal): (r: Decimal)
    requires d.Finite? && d.coefficient > 0
    ensures r.Finite? && r.coefficient > 0 && r.coefficient % 10 != 0 && r.negative == d.negative
    ensures r.coefficient <= d.coefficient
    decreases d.coefficient
  {
    if d.coefficient % 10 == 0
    then StripZeros(d.(coefficient := d.coefficient / 10, exponent := d.exponent + 1))
    else d
  }

  lemma {:induction false} StripKeepsValue(d: Decimal)
    requires d.Finite? && d.coefficient > 0
    ensures Value(StripZeros(d)) == Value(d)
    decreases d.coefficient
  {
    if d.coefficient % 10 == 0 {
      Shift(d.coefficient / 10, d.exponent);
      StripKeepsValue(d.(coefficient := d.coefficient / 10, exponent := d.exponent + 1));
    }
  }

  /** `Decimal.normalize()`. */
  function Normalise(d: Decimal): Decimal
    requires d.Finite?
  {
    var fixed := FixPrecision(d);
    if fixed.coefficient == 0 then Finite(d.negative, 0, 0) else StripZeros(fixed)
  }

  /** The number needs at most 28 significant digits. */
  predicate Fits(d: Decimal)
    requires d.Finite?
  {
    d.coefficient == 0 || StripZeros(d).coefficient < Pow10(PRECISION)
  }

  lemma {:induction false} ExcessBounds(c: nat)
    ensures c / Pow10(Excess(c)) < Pow10(PRECISION)
    ensures Excess(c) > 0 ==> c / Pow10(Excess(c)) >= Pow10(PRECISION - 1)
  {
    if c >= Pow10(PRECISION) {
      var k := Excess(c / 10);
      ExcessBounds(c / 10);
      DivDiv(c, Pow10(k));
      assert Pow10(PRECISION) == 10 * Pow10(PRECISION - 1);
      if k == 0 {
        assert Pow10(k) == 1;
        assert Pow10(k + 1) == 10;
      }
    }
  }

  lemma DivDiv(c: nat, m: nat)
    requires m > 0
    ensures (c / 10) / m == c / (10 * m)
  {
    var q := (c / 10) / m;
    var r := (c / 10) % m;
    assert c / 10 == q * m + r;
    assert c == 10 * (q * m + r) + c % 10;
    assert c == q * (10 * m) + (10 * r + c % 10);
    assert 10 * r + c % 10 < 10 * m;
    QuotientUnique(c, 10 * m, q, 10 * r + c % 10);
  }

  lemma QuotientUnique(c: nat, m: nat, q: nat, r: nat)
    requires m > 0 && r < m && c == q * m + r
    ensures c / m == q && c % m == r
  {
    MulMonotone(c / m + 1, q, m);
    MulMonotone(q + 1, c / m, m);
  }

  lemma MulMonotone(a: int, b: int, m: nat)
    ensures a <= b ==> a * m <= b * m
  {}

  lemma {:induction false} StripShifted(d: Decimal, k: nat)
    requires d.Finite? && d.coefficient > 0
    ensures d.coefficient * Pow10(k) > 0
    ensures StripZeros(d.(coefficient := d.coefficient * Pow10(k), exponent := d.exponent - k)) == StripZeros(d)
  {
    if k > 0 {
      PowStep(d.coefficient, k);
      StripShifted(d, k - 1);
    }
  }

  lemma FitsShorter(d: Decimal)
    requires d.Finite? && Fits(d) && d.coefficient >= Pow10(PRECISION)
    ensures d.coefficient % 10 == 0 && Fits(d.(coefficient := d.coefficient / 10, exponent := d.exponent + 1))
  {}

  lemma {:induction false} FittingExcess(d: Decimal)
    requires d.Finite? && Fits(d)
    ensures d.coefficient % Pow10(Excess(d.coefficient)) == 0
    decreases d.coefficient
  {
    var c := d.coefficient;
    if c >= Pow10(PRECISION) {
      FitsShorter(d);
      FittingExcess(d.(coefficient := c / 10, exponent := d.exponent + 1));
      ModTimesTen(c, Pow10(Excess(c / 10)));
    } else {
      QuotientUnique(c, Pow10(0), c, 0);
    }
  }

  lemma ModTimesTen(c: nat, m: nat)
    requires m > 0 && c % 10 == 0 && (c / 10) % m == 0
    ensures c % (10 * m) == 0
  {
    var q := (c / 10) / m;
    assert c / 10 == q * m;
    assert c == q * (10 * m);
    QuotientUnique(c, 10 * m, q, 0);
  }

  /** The 28-digit context never rounds a number that fits, and always changes one that does not. */
  lemma NormaliseExactlyWhenFits(d: Decimal)
    requires d.Finite?
    ensures Fits(d) <==> Value(Normalise(d)) == Value(d)
    ensures var n := Normalise(d);
      n.Finite? && n.negative == d.negative && (n.coefficient % 10 != 0 || n == Finite(d.negative, 0, 0))
  {
    var k := Excess(d.coefficient);
    if d.coefficient % Pow10(k) == 0 {
      FixIsExact(d);
      if d.coefficient > 0 {
        StripKeepsValue(FixPrecision(d));
      }
    } else {
      FixRounds(d);
      if FixPrecision(d).coefficient > 0 {
        StripKeepsValue(FixPrecision(d));
      }
      if Fits(d) {
        FittingExcess(d);
      }
    }
  }

  lemma FixIsExact(d: Decimal)
    requires d.Finite? && d.coefficient % Pow10(Excess(d.coefficient)) == 0
    ensures Fits(d) && Value(FixPrecision(d)) == Value(d)
    ensures d.coefficient > 0 ==>
              FixPrecision(d).coefficient > 0 && StripZeros(FixPrecision(d)) == StripZeros(d)
  {
    var c, k := d.coefficient, Excess(d.coefficient);
    var fixed := FixPrecision(d);
    ExactQuotient(c, Pow10(k));
    ExcessBounds(c);
    FixedIsShifted(d, fixed, k);
    if c > 0 {
      StripShifted(fixed, k);
    }
  }

  lemma FixedIsShifted(d: Decimal, fixed: Decimal, k: nat)
    requires d.Finite? && fixed.Finite? && fixed.negative == d.negative
    requires d.coefficient == fixed.coefficient * Pow10(k) && fixed.exponent == d.exponent + k
    ensures Value(fixed) == Value(d)
  {
    ShiftBy(fixed.coefficient, d.exponent, k);
  }

  lemma ExactQuotient(c: nat, m: nat)
    requires m > 0 && c % m == 0
    ensures c == RoundHalfEven(c, m) * m
  {}

  lemma FixRounds(d: Decimal)
    requires d.Finite? && d.coefficient % Pow10(Excess(d.coefficient)) != 0
    ensures Value(FixPrecision(d)) != Value(d)
  {
    var c, k := d.coefficient, Excess(d.coefficient);
    var fixed := FixPrecision(d);
    ShiftBy(fixed.coefficient, d.exponent, k);
    MulExact(fixed.coefficient, Pow10(k), c);
    SameScale(fixed.coefficient * Pow10(k), c, d.exponent);
  }

  lemma MulExact(q: nat, m: nat, c: nat)
    requires m > 0 && c % m != 0
    ensures q * m != c
  {
    if q * m == c {
      QuotientUnique(c, m, q, 0);
    }
  }

  lemma ShiftedEndsInZero(c: nat, k: nat)
    ensures k > 0 ==> (c * Pow10(k)) % 10 == 0
  {
    if k > 0 {
      PowStep(c, k);
    }
  }

  /** Two stripped decimals that denote the same positive number are the same decimal. */
  lemma StrippedUnique(a: Decimal, b: Decimal)
    requires a.Finite? && b.Finite? && a.coefficient % 10 != 0 && b.coefficient % 10 != 0
    requires Magnitude(a.coefficient, a.exponent) == Magnitude(b.coefficient, b.exponent)
    ensures a.coefficient == b.coefficient && a.exponent == b.exponent
  {
    if a.exponent < b.exponent {
      StrippedAligned(a, b);
    } else {
      StrippedAligned(b, a);
    }
  }

  lemma StrippedAligned(a: Decimal, b: Decimal)
    requires a.Finite? && b.Finite? && a.coefficient % 10 != 0 && a.exponent <= b.exponent
    requires Magnitude(a.coefficient, a.exponent) == Magnitude(b.coefficient, b.exponent)
    ensures a.coefficient == b.coefficient && a.exponent == b.exponent
  {
    var k := b.exponent - a.exponent;
    ShiftBy(b.coefficient, a.exponent, k);
    SameScale(a.coefficient, b.coefficient * Pow10(k), a.exponent);
    ShiftedEndsInZero(b.coefficient, k);
  }
}
