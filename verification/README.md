# Agent earnings projection — a Dafny model

This project models the calculation core of a single-file commission
calculator, `payments_app.py`. A sales agent signs new small-business clients
every month. Each month's signups form a *cohort*. The cohort pays a contract
price: optional free months, then an intro price followed by a recurring price,
or a single flat price. The cohort shrinks either by a fixed number of
cancellations at activation or by a constant monthly churn probability. It
stops paying once it passes an optional lifetime cutoff. The agent earns a
new-sale bonus during the first months of the run, a commission on the
clients' recurring payments, or both, as the payout policy decides. The
monthly table is then rolled up into a yearly table.

The modules follow the structure of the original:

- `Types` (types.dfy): the run's parameters, the cohort record, the monthly
  row and the mode enumerations. The original passes the modes as strings;
  here they are tagged variants.
- `Helpers` (helpers.dfy): the lifetime gate, the survival factor, the churn
  clamp and the per-client price rule.
- `Projection` (projection.dfy): a closed-form definition of every monthly
  row. Month `m` is computed from the cohorts born in months 1..m. This
  module also holds the properties of the monthly table.
- `Engine` (engine.dfy): the month loop as the original writes it. It keeps
  a growing cohort list, a running signed count and an inner scan over all
  cohorts. It is proved to produce exactly the rows of `Projection`. Its
  smaller methods (`ReadCohort`, `RecurringIncome`, `NewSaleBonus`,
  `MonthEarnings`) are steps of that proof: each equals its closed-form
  counterpart and states nothing further.
- `Yearly` (yearly.dfy): the group-by-year rollup and its properties.
- `Scenarios` (scenarios.dfy): three worked examples, derived from the
  general lemmas.

The monthly projection is total: `build_monthly_dataframe` checks none of
its parameters, and the model accepts every parameter set as well. A horizon
of zero or fewer months yields an empty table, which is what
`range(1, months + 1)` does. The yearly rollup of that empty table differs
from the original (see "## Left out"). Money is `real`, and paying clients are
`real` because churn makes them fractional.

## Model

| member | source | states |
|---|---|---|
| Helpers.LifetimeCutoff | payments_app.py:12-22 | An unlimited lifetime (≤ 0) is always active. Otherwise a cohort is active exactly for the ages below the lifetime (counted from activation) or below the lifetime plus the free months (counted from the first payment). |
| Helpers.LifetimeNeverReactivates | payments_app.py:12-22 | For a ≤ b, inactive at age a implies inactive at age b, and active at b implies active at a: the active ages form a prefix. |
| Helpers.AgeFromFirstPayment | payments_app.py:109 | The age counted from the first paid month is never negative. It is age - free after the free months and 0 during them. |
| Helpers.FirstPaymentAgeMonotone | payments_app.py:109 | For a ≤ b, the first-payment age at a is at most the one at b, and the two differ by at most b - a. |
| Helpers.GateAntitone | payments_app.py:12-22 | If the gate is closed for a pair of ages, it stays closed for any pair at least as large in both. An unlimited lifetime (≤ 0) always keeps it open. |
| Helpers.ClampChurn | payments_app.py:77 | The monthly churn rate always lies in [0, 0.99]. It equals percent/100 for percentages in [0, 99], is 0 for non-positive percentages and 0.99 from 99% up. |
| Helpers.SurvivalFactor | payments_app.py:24-28 | The factor is 1 when the rate or the age is not positive. It lies in (0, 1] for every rate below 1, and is strictly below 1 for a rate in (0, 1) and a positive age. |
| Helpers.PowAntitone | payments_app.py:28 | Powers of a base in (0, 1] never grow with the exponent, and strictly shrink when the base is below 1. |
| Helpers.SurvivalNonIncreasing | payments_app.py:24-28 | For any rate below 1, a later churn age never has a larger survival factor. |
| Helpers.SurvivalStrictlyDecreasing | payments_app.py:24-28 | For a rate in (0, 1), survival strictly decreases from age 0 on. |
| Helpers.PerClientPayment | payments_app.py:33-49 | The price is 0 during the free months. After them it is the flat amount for a flat contract, and the intro or the recurring amount otherwise. With non-negative amounts it is never negative. |
| Helpers.PaymentShiftsByFreeMonths | payments_app.py:41-49 | After the free months, the price equals the price with no free months at the age counted from the first paid month. |
| Helpers.IntroWindow | payments_app.py:44-47 | For distinct intro and recurring prices and a non-zero intro price, the intro price is paid exactly at ages free ≤ age < free + introMonths. |
| Projection.NetSize | payments_app.py:91-95 | In Fixed mode the cohort size is `max(new - cancellations, 0)`: non-negative, at least new - cancellations, and one of the two. In Churn mode it is every signup. |
| Projection.ProjectMonths | payments_app.py:86-173 | The table has one row per month 1..months, in order, and none for a non-positive horizon. |
| Projection.NewClientsOverride | payments_app.py:88 | A month shows the override count when the override is on and targets it, and the default count otherwise. When the two counts differ, this holds in both directions. |
| Projection.NetActivationsByMode | payments_app.py:91-95 | Fixed rows report `max(new - cancellations, 0)` and the cancellation count. Churn rows report every signup and the "-" cell. |
| Projection.SignedCumulativeIsRunningSum | payments_app.py:96-98 | Conservation: each month's signed cumulative count is the sum of the net activations of months 1..m. |
| Projection.SteadySignupsCumulative | payments_app.py:88-98 | Before the override month, month m's signed cumulative count is m times its net activations. |
| Projection.PolicyPartition | payments_app.py:142-157 | Under every policy, total = new-sale income + commission. Recurring-only has no bonus. Bonus-only has no paying clients, gross or commission. Otherwise commission = gross × rate. |
| Projection.BonusWindow | payments_app.py:144-149 | The bonus is 0 after the payout duration, when the bonus is off, or under recurring-only. Inside the window it is payout × this month's new clients, scaled by the commission rate when commissionable. |
| Projection.ZeroPriceContributesNothing | payments_app.py:105-140 | A cohort that is unborn, past its lifetime, or priced at most 0 adds nothing to paying clients or gross. |
| Projection.ExpiredCohortStaysSilent | payments_app.py:111-119 | Once a cohort fails the lifetime gate, it contributes nothing in any later month. |
| Projection.ContributionShape | payments_app.py:105-140 | For a cohort of non-negative size and a rate below 1, paying clients lie between 0 and the cohort size. Gross = the cohort's current price × paying clients. In Fixed mode a born, live cohort at a positive price pays for all of its clients. |
| Projection.ChurnContribution | payments_app.py:121-140 | In Churn mode a born, live cohort at a positive price pays for its size × the survival factor. The survival clock is the activation age when lifetime counts from activation, and the first-payment age otherwise. |
| Projection.ChurnCohortDecays | payments_app.py:121-140 | In Churn mode, once a cohort of non-negative size pays at month m, its paying clients in any later month m' are no more than at m. |
| Projection.ScanPayingBounds | payments_app.py:104-140 | With non-negative cohort sizes, a month's paying clients lie between 0 and the total cohort size. |
| Projection.PayingAtMostSigned | payments_app.py:137-139 | With non-negative signups, paying clients are between 0 and the signed cumulative count. |
| Projection.FlatScenarioGross | payments_app.py:104-140 | Fixed mode, unlimited lifetime, a non-negative flat price, no free months and a policy with recurring income: gross = flat price × signed cumulative count. Paying clients equal that count when the price is positive. |
| Engine.ScanCohortsLoop | payments_app.py:104-140 | The inner loop over all cohorts accumulates exactly the closed-form sum of contributions. |
| Engine.BuildMonthly | payments_app.py:54-173 | The month loop produces exactly the closed-form table: `months` rows, row i being month i + 1. |
| Yearly.YearlyTotals | payments_app.py:175-185 | The yearly table lists every year that has a month, and only such years, in strictly ascending order. Each entry is that year's sums. |
| Yearly.YearOfRange | payments_app.py:177 | A month is in year y exactly when 12(y - 1) + 1 ≤ month ≤ 12y, for every integer month. |
| Yearly.ConsecutiveYears | payments_app.py:177 | A table of months 1..n spans years 1..(n-1) div 12 + 1 with no gap. |
| Yearly.YearlyTotalsOfConsecutive | payments_app.py:177-184 | For months 1..n there are ceil(n/12) yearly entries, for years 1, 2, ... Entry j sums the four metrics over months 12j+1..min(12j+12, n). |
| Yearly.YearlyTotalsOfProjection | payments_app.py:175-185 | The projection's yearly table has ceil(months/12) entries, each summing its own months. |
| Scenarios.SteadyFlatEarnings | payments_app.py:54-173 | Flat 100, no churn, 50% commission, one client a month: month k has gross 100k and commission 50k. |
| Scenarios.BonusOnlyTotals | payments_app.py:144-157 | Bonus-only, commissionable, 160 per client, 12 clients, one-month window: totals 960, 0, 0. |
| Scenarios.OverrideMonthThree | payments_app.py:88-98 | An override of 50 in month 3 shows only in month 3. From month 3 on, month k's gross is 100 × (10k + 40), so it is 7000 in month 3. |

The functions that compute without a contract of their own have their
properties stated by the rows above:

- `Helpers.IsActiveByLifetime`: GateAntitone, LifetimeCutoff and LifetimeNeverReactivates.
- `Projection.NewClientsFor`: NewClientsOverride.
- `Projection.Contribution`: ContributionShape, ChurnContribution, ChurnCohortDecays, ZeroPriceContributesNothing and ExpiredCohortStaysSilent.
- `Projection.ChurnAge`: ChurnContribution and ChurnCohortDecays.
- `Projection.ScanCohorts`: ScanPayingBounds, FlatScenarioGross and Engine.ScanCohortsLoop.
- `Projection.NewSaleIncome`: BonusWindow.
- `Projection.PolicyTotal`: PolicyPartition.
- `Projection.MonthRow`: every `Projection` row lemma, through ProjectMonths.
- `Yearly.YearOf`: YearOfRange and ConsecutiveYears.

## Left out

- The Streamlit user interface (payments_app.py:244-382) is left out. It collects the parameters and renders tables. Here the parameters are one `Params` value passed in by the caller.
- The spreadsheet export and download helpers (payments_app.py:187-239, 384-419) are left out. They do file I/O and formatting only.
- The `currency` argument is left out. The engine only carries it as a display label, and it changes no number.
- The column rename in `yearly_totals` (Total Monthly Earnings to Total Yearly Earnings) is left out. It is cosmetic. The yearly total is the `total` field of `YearTotal`.
- Floating-point rounding is not modelled. Money and fractional clients are exact `real`s, so every equality above holds exactly in the model. The original's IEEE-754 arithmetic can differ in the last bits.
- The dataframe representation is left out. Rows are records, and the "-" cancellation cell is `None`.
- Helpers.SurvivalFactor: no bound is stated for rates of 1 or more. The run always clamps the rate to at most 0.99 first, so such a rate never reaches the factor.
- Projection.PayingAtMostSigned: assumes non-negative signups. The original accepts negative counts, and then a negative cohort size breaks the bound.
- Parameter validation is left out. Only the UI restricts inputs: a horizon of 12 to 60 months (payments_app.py:255), and non-negative counts and amounts (payments_app.py:259, 266, 277, 286, 293-304). `build_monthly_dataframe` checks nothing, so the model has no preconditions on the parameters.
- Yearly.YearlyTotals: the rollup of an empty monthly table is the empty yearly table. The original raises instead. With months ≤ 0, `build_monthly_dataframe` returns a dataframe with no "Month" column (payments_app.py:173), and `yearly_totals` then fails with a missing-column error at payments_app.py:177. The UI's horizon starts at 12, so this never happens there.
- Projection.ContributionShape: the bounds are stated for cohorts of non-negative size and a rate below 1. The run always uses the clamped rate, which is at most 0.99. Sizes are negative only when signups are.
