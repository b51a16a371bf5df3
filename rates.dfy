/**
 * The rate arithmetic of `calcular_escenario_completo` (calculadora.py):
 * the net nominal annual rate after the fee on returns, the real net rate
 * by the Fisher equation, the relation between the annual and the monthly
 * effective rate, and the deflation of a final balance by annual inflation.
 * Amounts and rates are exact reals; percentages are given as in the source
 * (12.0 means 12 %).
 */
module Rates {
  import opened Wrappers

  /** The only exception the computation raises, in exact arithmetic. */
  datatype CalcError = DivisionByZero

  /** `x ** n` for a natural exponent. */
  function Pow(x: real, n: nat): real
  {
    if n == 0 then 1.0 else x * Pow(x, n - 1)
  }

  lemma {:induction false} PowOne(n: nat)
    ensures Pow(1.0, n) == 1.0
  {
    if n > 0 { PowOne(n - 1); }
  }

  lemma {:induction false} PowPositive(x: real, n: nat)
    requires x > 0.0
    ensures Pow(x, n) > 0.0
  {
    if n > 0 { PowPositive(x, n - 1); }
  }

  /** A power vanishes exactly when its base does and the exponent is positive. */
  lemma {:induction false} PowZero(x: real, n: nat)
    ensures Pow(x, n) == 0.0 <==> x == 0.0 && n >= 1
  {
    if n > 0 { PowZero(x, n - 1); }
  }

  /** On positive bases, raising to a positive power is strictly increasing. */
  lemma {:induction false} PowStrictlyIncreasing(x: real, y: real, n: nat)
    requires 0.0 <= x < y && n >= 1
    ensures Pow(x, n) < Pow(y, n)
  {
    if x == 0.0 {
      PowZero(x, n);
      PowPositive(y, n);
    } else if n == 1 {
      assert Pow(x, 0) == 1.0 && Pow(y, 0) == 1.0;
    } else {
      PowStrictlyIncreasing(x, y, n - 1);
      PowPositive(x, n - 1);
      var a, b := Pow(x, n - 1), Pow(y, n - 1);
      assert Pow(x, n) == x * a && Pow(y, n) == y * b;
      assert x * a < x * b;
      assert x * b < y * b;
    }
  }

  /** A base of at least one gives a power of at least one. */
  lemma {:induction false} PowAtLeastOne(x: real, n: nat)
    requires x >= 1.0
    ensures Pow(x, n) >= 1.0
    ensures x > 1.0 && n >= 1 ==> Pow(x, n) > 1.0
  {
    PowOne(n);
    if x > 1.0 && n >= 1 { PowStrictlyIncreasing(1.0, x, n); }
  }

  /**
   * `tasa_neta_nominal_anual`: the gross annual rate, a percentage, with the
   * fee (a percentage charged on the returns) taken off, as a fraction.
   */
  function NetNominalAnnualRate(grossPct: real, feePct: real): (net: real)
    ensures net == 0.0 <==> grossPct == 0.0 || feePct == 100.0
    ensures feePct == 0.0 ==> net == grossPct / 100.0
    ensures grossPct >= 0.0 && 0.0 <= feePct <= 100.0 ==> 0.0 <= net <= grossPct / 100.0
  {
    (grossPct / 100.0) * (1.0 - feePct / 100.0)
  }

  /**
   * `r` is the monthly effective rate of the annual rate `net`: the
   * non-negative twelfth root of `1 + net`, less one.
   */
  ghost predicate MonthlyRateOf(r: real, net: real)
  {
    1.0 + r >= 0.0 && Pow(1.0 + r, 12) == 1.0 + net
  }

  /** An annual rate has at most one monthly effective rate. */
  lemma MonthlyRateUnique(r1: real, r2: real, net: real)
    requires MonthlyRateOf(r1, net) && MonthlyRateOf(r2, net)
    ensures r1 == r2
  {
    if 1.0 + r1 < 1.0 + r2 {
      PowStrictlyIncreasing(1.0 + r1, 1.0 + r2, 12);
    } else if 1.0 + r2 < 1.0 + r1 {
      PowStrictlyIncreasing(1.0 + r2, 1.0 + r1, 12);
    }
  }

  /** The monthly rate has the sign of the annual rate it compounds to. */
  lemma MonthlyRateSign(r: real, net: real)
    requires MonthlyRateOf(r, net)
    ensures r == 0.0 <==> net == 0.0
    ensures r > 0.0 <==> net > 0.0
    ensures r >= 0.0 <==> net >= 0.0
  {
    PowOne(12);
    if r < 0.0 {
      PowStrictlyIncreasing(1.0 + r, 1.0, 12);
    } else if r > 0.0 {
      PowStrictlyIncreasing(1.0, 1.0 + r, 12);
    }
  }

  /** With a zero gross rate or a 100 % fee the monthly rate is zero. */
  lemma ZeroNetRateGivesZeroMonthlyRate(grossPct: real, feePct: real, r: real)
    requires MonthlyRateOf(r, NetNominalAnnualRate(grossPct, feePct))
    requires grossPct == 0.0 || feePct == 100.0
    ensures r == 0.0
  {
    MonthlyRateSign(r, NetNominalAnnualRate(grossPct, feePct));
  }

  /**
   * `tasa_real_neta_anual` by the Fisher equation; an error where the
   * source divides by zero (an inflation of -100 %).
   */
  function RealNetRate(net: real, inflationPct: real): (rr: Result<real, CalcError>)
    ensures rr.Ok? <==> inflationPct != -100.0
    ensures rr.Ok? ==> (1.0 + rr.value) * (1.0 + inflationPct / 100.0) == 1.0 + net
    ensures inflationPct == 0.0 ==> rr == Ok(net)
    ensures inflationPct > 0.0 && net > -1.0 ==> rr.value < net
  {
    var deflator := 1.0 + inflationPct / 100.0;
    if deflator == 0.0 then Err(DivisionByZero)
    else
      assert inflationPct == 0.0 ==> (1.0 + net) / deflator == 1.0 + net;
      Ok((1.0 + net) / deflator - 1.0)
  }

  /** `factor_descuento`: compound annual inflation over `years` whole years. */
  function DiscountFactor(inflationPct: real, years: nat): real
  {
    Pow(1.0 + inflationPct / 100.0, years)
  }

  /**
   * `saldo_final_real`: the nominal balance deflated by the discount factor;
   * an error where the source divides by zero.
   */
  function RealBalance(nominal: real, inflationPct: real, years: nat): (b: Result<real, CalcError>)
    ensures b.Err? <==> inflationPct == -100.0 && years >= 1
    ensures b.Ok? ==> b.value * DiscountFactor(inflationPct, years) == nominal
  {
    var factor := DiscountFactor(inflationPct, years);
    PowZero(1.0 + inflationPct / 100.0, years);
    if factor == 0.0 then Err(DivisionByZero) else Ok(nominal / factor)
  }

  /**
   * Deflating never raises a non-negative balance when inflation is
   * non-negative, lowers a positive one when inflation is positive, and
   * leaves it unchanged when inflation is zero.
   */
  lemma RealBalanceBounds(nominal: real, inflationPct: real, years: nat)
    ensures inflationPct == 0.0 ==> RealBalance(nominal, inflationPct, years) == Ok(nominal)
    ensures inflationPct >= 0.0 && nominal >= 0.0 ==>
      RealBalance(nominal, inflationPct, years).Ok? &&
      0.0 <= RealBalance(nominal, inflationPct, years).value <= nominal
    ensures inflationPct > 0.0 && nominal > 0.0 && years >= 1 ==>
      RealBalance(nominal, inflationPct, years).value < nominal
  {
    if inflationPct >= 0.0 {
      var f := DiscountFactor(inflationPct, years);
      PowAtLeastOne(1.0 + inflationPct / 100.0, years);
      if inflationPct == 0.0 { PowOne(years); }
      var b := RealBalance(nominal, inflationPct, years).value;
      assert b * f == nominal;
      if nominal >= 0.0 {
        assert b >= 0.0;
        assert b * f >= b * 1.0;
      }
      if nominal > 0.0 && inflationPct > 0.0 && years >= 1 {
        assert 1.0 + inflationPct / 100.0 > 1.0;
        assert f > 1.0;
        assert b > 0.0;
        assert b * f > b * 1.0;
        assert b < nominal;
      }
    }
  }
}
