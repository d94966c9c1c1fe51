/** The projection engine as the month loop of the original: a growing list
    of cohorts, a running signed total, and an inner scan over every cohort
    each month. Both loops are proved to compute the closed-form rows of
    module Projection. */
module Engine {
  import opened Types
  import opened Helpers
  import opened Projection

  /** What one cohort adds to month `m`: skipped before its birth and
      outside its lifetime, scaled by survival in Churn mode, and counted only
      when its clients pay a positive price. */
  method ReadCohort(p: Params, rate: real, c: Cohort, m: int) returns (t: Tally)
    ensures t == Contribution(p, rate, c, m)
  {
    t := Tally(0.0, 0.0);
    var age := m - c.birth;
    if age < 0 {
      return;
    }
    var firstAge := Max(age - p.freeMonths, 0);
    if !IsActiveByLifetime(age, firstAge, p.lifetimeMonths, p.lifetimeMode) {
      return;
    }
    var sf := 1.0;
    if p.cancellationMode == Churn {
      var churnAge := if p.lifetimeMode == FromActivation then age else firstAge;
      sf := SurvivalFactor(rate, churnAge);
    }
    var price := PerClientPayment(p.contractType, age, p.freeMonths, p.introMonths,
                                  p.introAmount, p.recurringAmount, p.flatAmount);
    if price > 0.0 {
      var active := c.size as real * sf;
      t := Tally(active, price * active);
    }
  }

  /** Paying clients and gross payments of month `m`, summed over `cohorts`. */
  method ScanCohortsLoop(p: Params, rate: real, cohorts: seq<Cohort>, m: int)
    returns (tally: Tally)
    ensures tally == ScanCohorts(p, rate, cohorts, m)
  {
    var paying := 0.0;
    var gross := 0.0;
    var k := 0;
    while k < |cohorts|
      invariant 0 <= k <= |cohorts|
      invariant Tally(paying, gross) == ScanCohorts(p, rate, cohorts[..k], m)
    {
      var t := ReadCohort(p, rate, cohorts[k], m);
      paying := paying + t.paying;
      gross := gross + t.gross;
      assert cohorts[..k + 1][..k] == cohorts[..k];
      k := k + 1;
    }
    assert cohorts[..k] == cohorts;
    tally := Tally(paying, gross);
  }

  /** Recurring income of month `m`: all cohorts are scanned only when the
      policy includes recurring income. */
  method RecurringIncome(p: Params, rate: real, cohorts: seq<Cohort>, m: nat)
    returns (tally: Tally)
    requires rate == ChurnRate(p) && cohorts == Cohorts(p, m)
    ensures tally == RecurringTally(p, m)
  {
    tally := Tally(0.0, 0.0);
    if p.payoutPolicy == BonusAndRecurring || p.payoutPolicy == RecurringOnly {
      tally := ScanCohortsLoop(p, rate, cohorts, m);
    }
  }

  /** The new-sale bonus of month `m`, paid while the payout window is open. */
  method NewSaleBonus(p: Params, m: int, newClients: int) returns (bonus: real)
    ensures bonus == NewSaleIncome(p, m, newClients)
  {
    var includeBonus := p.payoutPolicy == BonusOnly || p.payoutPolicy == BonusAndRecurring;
    var bonusRaw := 0.0;
    if includeBonus && p.useNewSaleBonus && p.payoutDuration > 0 && m <= p.payoutDuration {
      bonusRaw := p.newSalePayout * newClients as real;
    }
    bonus := if p.payoutType == Commissionable then bonusRaw * p.commissionRate else bonusRaw;
  }

  /** Earnings of month `m` once its cohort has been appended: recurring
      income from every cohort, the new-sale bonus, and the policy total. */
  method MonthEarnings(p: Params, rate: real, cohorts: seq<Cohort>, signedCum: int,
                       m: nat, newClients: int, netSize: int)
    returns (row: Row)
    requires rate == ChurnRate(p)
    requires cohorts == Cohorts(p, m) && signedCum == SumSizes(cohorts)
    requires newClients == NewClientsFor(p, m) && netSize == NetSize(p, newClients)
    ensures row == MonthRow(p, m)
  {
    var includeRecurring := p.payoutPolicy == BonusAndRecurring || p.payoutPolicy == RecurringOnly;
    var tally := RecurringIncome(p, rate, cohorts, m);
    var commission := if includeRecurring then tally.gross * p.commissionRate else 0.0;
    var bonus := NewSaleBonus(p, m, newClients);

    var total;
    if p.payoutPolicy == BonusOnly {
      total := bonus;
    } else if p.payoutPolicy == RecurringOnly {
      total := commission;
    } else {
      total := bonus + commission;
    }

    row := Row(m, newClients,
               if p.cancellationMode == Fixed then Some(p.cancellations) else None,
               p.cancellationMode, netSize, signedCum,
               tally.paying, tally.gross, bonus, commission, total);
  }

  /** The monthly table, built month by month as the original does. */
  method BuildMonthly(p: Params) returns (rows: seq<Row>)
    ensures rows == ProjectMonths(p)
    ensures |rows| == MonthCount(p)
  {
    var rate := ClampChurn(p.churnPercent);
    rows := [];
    var cohorts: seq<Cohort> := [];
    var signedCum := 0;
    var m := 1;
    while m <= p.months
      invariant 1 <= m <= MonthCount(p) + 1
      invariant cohorts == Cohorts(p, m - 1)
      invariant signedCum == SumSizes(cohorts)
      invariant |rows| == m - 1
      invariant forall i :: 0 <= i < |rows| ==> rows[i] == MonthRow(p, i + 1)
    {
      var newClients := if p.overrideMonth == m && p.overrideMonth > 0
                        then p.overrideNewClients else p.defaultNewClients;
      var netSize := if p.cancellationMode == Fixed
                     then Max(newClients - p.cancellations, 0) else newClients;
      CohortsExtend(p, m - 1);
      assert CohortOf(p, m) == Cohort(m, netSize);
      cohorts := cohorts + [Cohort(m, netSize)];
      signedCum := signedCum + netSize;

      var row := MonthEarnings(p, rate, cohorts, signedCum, m, newClients, netSize);
      rows := rows + [row];
      m := m + 1;
    }
    assert |rows| == |ProjectMonths(p)|;
    forall i | 0 <= i < |rows|
      ensures rows[i] == ProjectMonths(p)[i]
    {
    }
  }
}
