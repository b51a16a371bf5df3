# Investment-plan projection (calculadora-financiera), modelled in Dafny

The repository is a one-page Streamlit "financial calculator" that projects a
periodic investment plan under three gross-rate scenarios (conservative,
moderate, optimistic). Its only computation is `calcular_escenario_completo`
in `calculadora.py`, together with the yearly sampling of the series it
returns that feeds the chart. This project models that computation:

- `Rates` (`rates.dfy`): the net nominal annual rate after the fee charged on
  returns, the real net rate by the Fisher equation, the relation between an
  annual rate and its monthly effective rate, and the deflation of the final
  balance by compound annual inflation. Includes the natural power `Pow` and
  its monotonicity lemmas.
- `Projection` (`projection.dfy`): the month-by-month balance recurrence
  (`new = prev + prev * r + contribution`), built by a loop that appends to
  the series as the source does and specified by the recursive function
  `BalanceAt`; the closed form of that recurrence; the yearly sampling
  (`puntos`); and the whole scenario computation `ComputeScenario`, which
  returns the source's result dictionary as a `Scenario` value or the error
  the source raises.
- `Wrappers` (`wrappers.dfy`): `Result`, the value-or-error type.

Amounts and rates are exact `real`s; percentages are passed as in the source
(`12.0` means 12 %). The term in years is a `nat`; the page's input widget
never offers less than one year, and the model also covers zero years.

The monthly effective rate `(1 + net) ** (1/12) - 1` is a fractional power,
which has no counterpart in Dafny. `ComputeScenario` takes it as a parameter
`r` and requires `MonthlyRateOf(r, net)`: `1 + r >= 0` and `(1 + r)^12 == 1 + net`.
`MonthlyRateUnique` proves that at most one `r` meets this. For every net rate
of -100 % or more, the source's value is the only such `r`. At exactly -100 %
that value is `-1`, because `0.0 ** (1/12)` is `0.0`.

In exact arithmetic the function fails in one way only: a division by zero
when the inflation is -100 %. The Fisher rate then divides by
`1 + inflation/100`, and the real balance divides by the discount factor
`(1 + inflation/100) ^ years`, which is zero as well when the term is at
least one year. Since the Fisher rate fails first, the model returns
`Err(DivisionByZero)` exactly when the inflation is -100 %, whatever the term.
Floating-point effects that add other failures are listed under "Left out".

The final balance is deflated once, by `(1 + inflation/100) ^ years`.

## Model

| member | source | states |
|---|---|---|
| `Rates.NetNominalAnnualRate` | calculadora.py:57 | the net rate is zero exactly when the gross rate is 0 or the fee is 100 %; with no fee it is the gross rate as a fraction; for a non-negative gross rate and a fee in [0, 100] it lies between 0 and the gross rate |
| `Rates.MonthlyRateUnique` | calculadora.py:63 | an annual net rate has at most one monthly effective rate `r` with `1 + r >= 0` and `(1 + r)^12 == 1 + net` |
| `Rates.MonthlyRateSign` | calculadora.py:63 | the monthly rate is zero, positive or non-negative exactly when the annual net rate is |
| `Rates.ZeroNetRateGivesZeroMonthlyRate` | calculadora.py:57-63 | a zero gross rate or a 100 % fee gives a monthly rate of exactly 0 |
| `Rates.RealNetRate` | calculadora.py:60 | the Fisher equation `(1 + real) * (1 + inflation/100) == 1 + net`; undefined (division by zero) exactly at inflation -100 %; equal to the net rate at zero inflation; below it at positive inflation when the net rate is above -100 % |
| `Rates.RealBalance` | calculadora.py:75-76 | the real balance times `(1 + inflation/100)^years` is the nominal balance; undefined exactly when that factor is zero (inflation -100 % and at least one year) |
| `Rates.RealBalanceBounds` | calculadora.py:75-76 | with zero inflation the real balance equals the nominal one; with non-negative inflation a non-negative nominal balance deflates to a value in [0, nominal]; with positive inflation, a positive balance and at least one year it is strictly smaller |
| `Projection.ProjectNominal` | calculadora.py:65-70 | the series has `months + 1` entries, starts at the initial balance, each entry is the previous one plus its interest plus the contribution, and entry `k` is `BalanceAt(k)` |
| `Projection.BalanceAtZeroRate` | calculadora.py:65-70 | at a monthly rate of 0 the balance after `k` months is `initial + k * contribution` |
| `Projection.BalanceAtClosedForm` | calculadora.py:65-70 | `r * B(k) == r * initial * (1 + r)^k + contribution * ((1 + r)^k - 1)` for every rate |
| `Projection.BalanceAtAnnuity` | calculadora.py:65-70 | for a non-zero rate, `B(k)` is the future value of the initial balance plus that of an ordinary annuity of the contribution |
| `Projection.ProjectedSeriesNonDecreasing` | calculadora.py:65-70 | a series whose entries are the projected balances is non-negative and never falls, given a non-negative initial balance, contribution and monthly rate |
| `Projection.BalanceAtNonDecreasing` | calculadora.py:67-70 | with non-negative initial balance, contribution and monthly rate every balance is non-negative and no later month has a smaller balance |
| `Projection.AnnualSamplesOfProjection` | calculadora.py:105 | on a projected series the samples are the year-end balances, the first is the initial balance, the last is the final nominal balance, and they are non-negative and non-decreasing under non-negative inputs |
| `Projection.ComputeScenario` | calculadora.py:53-83 | fails exactly at inflation -100 %; otherwise the series has `12 * years + 1` entries, starts at the initial balance, entry `k` is `BalanceAt(k)` and each entry follows from the previous one by the monthly step; `saldo_nominal` is its last entry; `saldo_real` times the discount factor is `saldo_nominal`; the real net rate satisfies the Fisher equation; the series is non-negative and non-decreasing when the initial balance, the contribution and the net rate are non-negative; with a zero gross rate or a 100 % fee the final balance is `initial + 12 * years * contribution`; when inflation and the nominal balance are non-negative, the real balance lies in [0, nominal]; at zero inflation it equals the nominal balance |

## Left out

- Page setup, CSS, sidebar inputs, metrics, tabs, the chart and the table (calculadora.py:1-49, 94-140): presentation only.
- The scenario dictionary and the loop that calls the computation once per scenario (calculadora.py:86-102): wiring; each call is one `ComputeScenario`.
- pandas DataFrame assembly and the currency and percentage formatting (calculadora.py:97, 106, 115, 122, 127, 140): library calls and display.
- The fractional power `(1 + net) ** (1/12)` (calculadora.py:63): Dafny has no real roots, so the monthly rate is a parameter tied to the net rate by `MonthlyRateOf`.
- Projection.ComputeScenario: does not cover a net rate below -100 %. This needs a fee outside [0, 100] % or a gross rate below -100 % (for example a fee of -100 % with a gross rate of -60 % gives a net rate of -120 %); no input range in calculadora.py:41-49 rules these out. Python then computes a complex twelfth root of a negative number and carries complex numbers onward. `MonthlyRateOf` cannot hold there, so the requires excludes these inputs.
- IEEE-754 behaviour of Python floats: amounts are exact reals, so the model states exact equalities that the floating-point program only approximates. It also leaves out three floating-point failures. A very large inflation or term makes `float ** int` at calculadora.py:75 raise OverflowError. An inflation just above -100 % over many years can underflow the discount factor to `0.0`, and line 76 then raises ZeroDivisionError. Large rates or terms make the loop at lines 67-70 reach `inf` without raising.
