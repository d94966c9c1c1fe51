/** Data model of the earnings projection: the run's parameter set, the
    cohort record and the monthly result row. The string-typed modes of the
    original are tagged variants here. */
module Types {

  /** A value that may be absent (the "-" cell of the monthly table). */
  datatype Option<T> = None | Some(value: T)

  /** How client losses are modelled: a fixed number of cancellations
      subtracted at activation, or a constant monthly churn probability. */
  datatype CancellationMode = Fixed | Churn

  /** The reference point from which the client lifetime is counted. */
  datatype LifetimeMode = FromActivation | AfterFreeMonths

  /** The client contract: an intro price followed by a recurring price, or a
      single flat monthly price. */
  datatype ContractType = IntroRecurring | FlatMonthly

  /** Which earnings components reach the agent. */
  datatype PayoutPolicy = BonusOnly | BonusAndRecurring | RecurringOnly

  /** Whether the new-sale bonus is scaled by the commission rate or paid as is. */
  datatype PayoutType = Commissionable | FlatDirect

  /** One run's parameters. `overrideMonth == 0` switches the override off;
      `lifetimeMonths <= 0` means an unlimited lifetime. */
  datatype Params = Params(
    months: int,
    defaultNewClients: int,
    overrideMonth: int,
    overrideNewClients: int,
    cancellationMode: CancellationMode,
    cancellations: int,
    churnPercent: real,
    commissionRate: real,
    payoutPolicy: PayoutPolicy,
    payoutType: PayoutType,
    useNewSaleBonus: bool,
    newSalePayout: real,
    payoutDuration: int,
    contractType: ContractType,
    freeMonths: int,
    introMonths: int,
    introAmount: real,
    recurringAmount: real,
    flatAmount: real,
    lifetimeMonths: int,
    lifetimeMode: LifetimeMode)

  /** The clients activated in one month; the size is fixed at creation and
      attrition is applied when the cohort is read. */
  datatype Cohort = Cohort(birth: int, size: int)

  /** One row of the monthly table. `cancellations` is present only in Fixed mode. */
  datatype Row = Row(
    month: int,
    newClients: int,
    cancellations: Option<int>,
    mode: CancellationMode,
    netActivations: int,
    signedCumulative: int,
    payingClients: real,
    grossPayments: real,
    newSaleIncome: real,
    commission: real,
    total: real)

  /** What the cohorts contribute in one month: expected paying clients and
      their gross payments. */
  datatype Tally = Tally(paying: real, gross: real)

  /** Number of months the projection runs: `range(1, months + 1)` is empty
      when `months <= 0`. */
  function MonthCount(p: Params): nat
  {
    if p.months > 0 then p.months else 0
  }

  predicate IncludesBonus(policy: PayoutPolicy)
  {
    policy == BonusOnly || policy == BonusAndRecurring
  }

  predicate IncludesRecurring(policy: PayoutPolicy)
  {
    policy == BonusAndRecurring || policy == RecurringOnly
  }
}
