/**
 * The month-by-month projection of `calcular_escenario_completo`
 * (calculadora.py) and the annual sampling of its nominal series that the
 * page draws from it. `BalanceAt` is the specification of the loop; the
 * method `ProjectNominal` builds the series as the source does, by appending
 * one balance per month.
 */
module Projection {
  import opened Wrappers
  import opened Rates

  /** One month (`interes`, `nuevo_saldo`): interest at the monthly rate, then the fixed contribution. */
  function NextBalance(balance: real, r: real, contribution: real): real
  {
    var interest := balance * r;
    balance + interest + contribution
  }

  /** The balance after `k` months, starting from `initial`. */
  function BalanceAt(initial: real, r: real, contribution: real, k: nat): real
  {
    if k == 0 then initial
    else NextBalance(BalanceAt(initial, r, contribution, k - 1), r, contribution)
  }

  /**
   * `valores_nominales`: the balance at month 0 (the initial balance) and
   * after each of the `months` months, in order.
   */
  method ProjectNominal(initial: real, r: real, contribution: real, months: nat)
    returns (series: seq<real>)
    ensures |series| == months + 1
    ensures series[0] == initial
    ensures forall k {:trigger NextBalance(series[k], r, contribution)} :: 0 <= k < months ==>
      series[k + 1] == NextBalance(series[k], r, contribution)
    ensures forall k {:trigger series[k]} :: 0 <= k <= months ==> series[k] == BalanceAt(initial, r, contribution, k)
  {
    series := [initial];
    for i := 0 to months
      invariant |series| == i + 1
      invariant forall k :: 0 <= k <= i ==> series[k] == BalanceAt(initial, r, contribution, k)
    {
      var next := NextBalance(series[|series| - 1], r, contribution);
      series := series + [next];
    }
  }

  /** With a zero monthly rate the balance grows by the contribution alone. */
  lemma {:induction false} BalanceAtZeroRate(initial: real, contribution: real, k: nat)
    ensures BalanceAt(initial, 0.0, contribution, k) == initial + (k as real) * contribution
  {
    if k > 0 { BalanceAtZeroRate(initial, contribution, k - 1); }
  }

  /**
   * The closed form of the recurrence (future value of the initial balance
   * plus an ordinary annuity), multiplied through by `r` so that it also
   * holds, trivially, at `r == 0`.
   */
  lemma {:induction false} BalanceAtClosedForm(initial: real, r: real, contribution: real, k: nat)
    ensures r * BalanceAt(initial, r, contribution, k)
         == r * initial * Pow(1.0 + r, k) + contribution * (Pow(1.0 + r, k) - 1.0)
  {
    if k > 0 {
      BalanceAtClosedForm(initial, r, contribution, k - 1);
      var b, p := BalanceAt(initial, r, contribution, k - 1), Pow(1.0 + r, k - 1);
      ClosedFormStep(initial, r, contribution, b, p, BalanceAt(initial, r, contribution, k), Pow(1.0 + r, k));
    }
  }

  /** One month of the closed form: the identity carried from `b` at power `p` to the next month. */
  lemma ClosedFormStep(initial: real, r: real, contribution: real, b: real, p: real, next: real, q: real)
    requires r * b == r * initial * p + contribution * (p - 1.0)
    requires next == NextBalance(b, r, contribution) && q == (1.0 + r) * p
    ensures r * next == r * initial * q + contribution * (q - 1.0)
  {
  }

  /** The same closed form, divided out, for a non-zero monthly rate. */
  lemma {:induction false} BalanceAtAnnuity(initial: real, r: real, contribution: real, k: nat)
    requires r != 0.0
    ensures BalanceAt(initial, r, contribution, k)
         == initial * Pow(1.0 + r, k) + contribution * (Pow(1.0 + r, k) - 1.0) / r
  {
    BalanceAtClosedForm(initial, r, contribution, k);
    var p := Pow(1.0 + r, k);
    DivideOut(r, BalanceAt(initial, r, contribution, k), initial * p, contribution * (p - 1.0));
  }

  /** Cancels a non-zero factor `r` from both sides. */
  lemma DivideOut(r: real, b: real, x: real, y: real)
    requires r != 0.0 && r * b == r * x + y
    ensures b == x + y / r
  {
  }

  /**
   * With a non-negative start, contribution and monthly rate, balances are
   * non-negative and never fall from one month to a later one.
   */
  lemma {:induction false} BalanceAtNonDecreasing(initial: real, r: real, contribution: real, j: nat, k: nat)
    requires initial >= 0.0 && contribution >= 0.0 && r >= 0.0
    requires j <= k
    ensures 0.0 <= BalanceAt(initial, r, contribution, j) <= BalanceAt(initial, r, contribution, k)
  {
    if k > 0 {
      BalanceAtNonDecreasing(initial, r, contribution, if j == k then k - 1 else j, k - 1);
      var b := BalanceAt(initial, r, contribution, k - 1);
      assert b * r >= 0.0;
    }
  }

  /** A series of projected balances never falls under non-negative inputs. */
  lemma ProjectedSeriesNonDecreasing(series: seq<real>, initial: real, r: real, contribution: real)
    requires initial >= 0.0 && contribution >= 0.0 && r >= 0.0
    requires forall k :: 0 <= k < |series| ==> series[k] == BalanceAt(initial, r, contribution, k)
    ensures forall j, k :: 0 <= j <= k < |series| ==> 0.0 <= series[j] <= series[k]
  {
    forall j, k | 0 <= j <= k < |series|
      ensures 0.0 <= series[j] <= series[k]
    {
      BalanceAtNonDecreasing(initial, r, contribution, j, k);
    }
  }

  /** `puntos`: the balance at month 0 and at the end of every year. */
  function AnnualSamples(series: seq<real>, years: nat): (points: seq<real>)
    requires 12 * years < |series|
    ensures |points| == years + 1
    ensures forall i :: 0 <= i <= years ==> points[i] == series[12 * i]
  {
    seq(years + 1, i requires 0 <= i <= years => series[12 * i])
  }

  /**
   * Sampling a projected series yearly gives the balance at each year end,
   * starts at the initial balance, ends at the final balance, and is
   * non-decreasing when the start, contribution and rate are non-negative.
   */
  lemma AnnualSamplesOfProjection(series: seq<real>, initial: real, r: real, contribution: real, years: nat)
    requires |series| == 12 * years + 1
    requires forall k :: 0 <= k < |series| ==> series[k] == BalanceAt(initial, r, contribution, k)
    ensures |AnnualSamples(series, years)| == years + 1
    ensures forall i :: 0 <= i <= years ==> AnnualSamples(series, years)[i] == BalanceAt(initial, r, contribution, 12 * i)
    ensures AnnualSamples(series, years)[0] == initial
    ensures AnnualSamples(series, years)[years] == series[|series| - 1]
    ensures initial >= 0.0 && contribution >= 0.0 && r >= 0.0 ==>
      forall i, j :: 0 <= i <= j <= years ==>
        0.0 <= AnnualSamples(series, years)[i] <= AnnualSamples(series, years)[j]
  {
    var points := AnnualSamples(series, years);
    if initial >= 0.0 && contribution >= 0.0 && r >= 0.0 {
      forall i, j | 0 <= i <= j <= years
        ensures 0.0 <= points[i] <= points[j]
      {
        BalanceAtNonDecreasing(initial, r, contribution, 12 * i, 12 * j);
      }
    }
  }

  /** The dictionary `calcular_escenario_completo` returns. */
  datatype Scenario = Scenario(
    nominalSeries: seq<real>,  // serie_nominal
    nominalBalance: real,      // saldo_nominal
    realBalance: real,         // saldo_real
    realNetRate: real          // tasa_real_neta
  )

  /**
   * `calcular_escenario_completo(tasa_bruta_pct, anos, aporte, inicial,
   * comision_pct, inflacion_pct)`, with the monthly effective rate
   * `(1 + net) ** (1/12) - 1` supplied as `r`.
   */
  method ComputeScenario(grossPct: real, years: nat, contribution: real, initial: real,
                         feePct: real, inflationPct: real, r: real)
    returns (res: Result<Scenario, CalcError>)
    requires MonthlyRateOf(r, NetNominalAnnualRate(grossPct, feePct))
    ensures res.Err? <==> inflationPct == -100.0
    ensures res.Ok? ==>
      var s := res.value;
      |s.nominalSeries| == 12 * years + 1 &&
      s.nominalSeries[0] == initial &&
      (forall k {:trigger s.nominalSeries[k]} :: 0 <= k <= 12 * years ==>
        s.nominalSeries[k] == BalanceAt(initial, r, contribution, k)) &&
      (forall k {:trigger NextBalance(s.nominalSeries[k], r, contribution)} :: 0 <= k < 12 * years ==>
        s.nominalSeries[k + 1] == NextBalance(s.nominalSeries[k], r, contribution)) &&
      s.nominalBalance == s.nominalSeries[12 * years] &&
      s.realBalance * DiscountFactor(inflationPct, years) == s.nominalBalance &&
      (1.0 + s.realNetRate) * (1.0 + inflationPct / 100.0) == 1.0 + NetNominalAnnualRate(grossPct, feePct)
    ensures res.Ok? && initial >= 0.0 && contribution >= 0.0 && NetNominalAnnualRate(grossPct, feePct) >= 0.0 ==>
      forall j, k :: 0 <= j <= k <= 12 * years ==>
        0.0 <= res.value.nominalSeries[j] <= res.value.nominalSeries[k]
    ensures res.Ok? && (grossPct == 0.0 || feePct == 100.0) ==>
      res.value.nominalBalance == initial + ((12 * years) as real) * contribution
    ensures res.Ok? && inflationPct >= 0.0 && res.value.nominalBalance >= 0.0 ==>
      0.0 <= res.value.realBalance <= res.value.nominalBalance
    ensures res.Ok? && inflationPct == 0.0 ==> res.value.realBalance == res.value.nominalBalance
  {
    var months := 12 * years;
    var net := NetNominalAnnualRate(grossPct, feePct);
    var realRate := RealNetRate(net, inflationPct);
    if realRate.Err? {
      return Err(DivisionByZero);
    }
    var series := ProjectNominal(initial, r, contribution, months);
    var nominal := series[|series| - 1];
    var realBalance := RealBalance(nominal, inflationPct, years);
    var s := Scenario(series, nominal, realBalance.value, realRate.value);
    RealBalanceBounds(nominal, inflationPct, years);
    if initial >= 0.0 && contribution >= 0.0 && net >= 0.0 {
      MonthlyRateSign(r, net);
      ProjectedSeriesNonDecreasing(series, initial, r, contribution);
    }
    if grossPct == 0.0 || feePct == 100.0 {
      ZeroNetRateGivesZeroMonthlyRate(grossPct, feePct, r);
      BalanceAtZeroRate(initial, contribution, months);
    }
    res := Ok(s);
  }
}
