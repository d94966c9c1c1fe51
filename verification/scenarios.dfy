/** Worked examples of the projection, stated as facts about concrete
    parameter sets and derived from the general properties. */
module Scenarios {
  import opened Types
  import opened Helpers
  import opened Projection

  /** Flat contract of 100, unlimited lifetime, no churn, 50% commission,
      recurring income only, one new client a month for three months. */
  function SteadyFlat(): Params
  {
    Params(months := 3, defaultNewClients := 1, overrideMonth := 0, overrideNewClients := 0,
           cancellationMode := Fixed, cancellations := 0, churnPercent := 0.0,
           commissionRate := 0.5, payoutPolicy := RecurringOnly, payoutType := Commissionable,
           useNewSaleBonus := false, newSalePayout := 0.0, payoutDuration := 0,
           contractType := FlatMonthly, freeMonths := 0, introMonths := 0,
           introAmount := 0.0, recurringAmount := 0.0, flatAmount := 100.0,
           lifetimeMonths := 0, lifetimeMode := FromActivation)
  }

  /** Month k of the steady flat run has k clients paying 100 each, and the
      agent earns half of it. */
  lemma SteadyFlatEarnings(i: int)
    requires 0 <= i < 3
    ensures var r := ProjectMonths(SteadyFlat())[i];
            r.grossPayments == 100.0 * (i + 1) as real &&
            r.commission == 50.0 * (i + 1) as real &&
            r.total == r.commission
  {
    var p := SteadyFlat();
    SteadySignupsCumulative(p, i);
    FlatScenarioGross(p, i);
    PolicyPartition(p, i);
  }

  /** A bonus-only, commissionable run: 160 per new client for one month,
      12 new clients a month, 50% commission. */
  function BonusOnlyRun(): Params
  {
    Params(months := 3, defaultNewClients := 12, overrideMonth := 0, overrideNewClients := 0,
           cancellationMode := Fixed, cancellations := 0, churnPercent := 0.0,
           commissionRate := 0.5, payoutPolicy := BonusOnly, payoutType := Commissionable,
           useNewSaleBonus := true, newSalePayout := 160.0, payoutDuration := 1,
           contractType := FlatMonthly, freeMonths := 0, introMonths := 0,
           introAmount := 0.0, recurringAmount := 0.0, flatAmount := 100.0,
           lifetimeMonths := 0, lifetimeMode := FromActivation)
  }

  /** The first month earns 160 * 12 * 0.5; once the one-month payout window
      has passed nothing more is earned. */
  lemma BonusOnlyTotals(i: int)
    requires 0 <= i < 3
    ensures ProjectMonths(BonusOnlyRun())[i].total == if i == 0 then 960.0 else 0.0
  {
    var p := BonusOnlyRun();
    BonusWindow(p, i);
    PolicyPartition(p, i);
  }

  /** Ten new clients a month, fifty in month 3, flat contract of 100 with
      full commission on recurring income. */
  function OverrideRun(): Params
  {
    Params(months := 12, defaultNewClients := 10, overrideMonth := 3, overrideNewClients := 50,
           cancellationMode := Fixed, cancellations := 0, churnPercent := 0.0,
           commissionRate := 1.0, payoutPolicy := RecurringOnly, payoutType := Commissionable,
           useNewSaleBonus := false, newSalePayout := 0.0, payoutDuration := 0,
           contractType := FlatMonthly, freeMonths := 0, introMonths := 0,
           introAmount := 0.0, recurringAmount := 0.0, flatAmount := 100.0,
           lifetimeMonths := 0, lifetimeMode := FromActivation)
  }

  /** From month 3 on, the override run has signed its 10 clients a month
      plus the 40 extra of month 3. */
  lemma {:induction false} OverrideSignedCount(m: nat)
    requires m >= 3
    ensures SumSizes(Cohorts(OverrideRun(), m)) == 10 * m + 40
  {
    var p := OverrideRun();
    if m == 3 {
      CohortsExtend(p, 0);
      CohortsExtend(p, 1);
      CohortsExtend(p, 2);
    } else {
      OverrideSignedCount(m - 1);
      CohortsExtend(p, m - 1);
    }
  }

  /** Month 3 alone shows 50 new clients, and from month 3 on the gross
      payments include the 5000 paid by that month's cohort. */
  lemma OverrideMonthThree(i: int)
    requires 0 <= i < 12
    ensures ProjectMonths(OverrideRun())[i].newClients == if i == 2 then 50 else 10
    ensures i >= 2 ==>
              ProjectMonths(OverrideRun())[i].grossPayments == 100.0 * (10 * (i + 1) + 40) as real
    ensures i == 2 ==> ProjectMonths(OverrideRun())[i].grossPayments == 7000.0
  {
    var p := OverrideRun();
    NewClientsOverride(p, i);
    if i >= 2 {
      OverrideSignedCount(i + 1);
      FlatScenarioGross(p, i);
    }
  }
}
