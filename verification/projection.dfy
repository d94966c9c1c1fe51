/** The cohort projection engine as a closed-form specification: month `m`'s
    row is computed from the `m` cohorts born in months 1..m. The imperative
    month loop in module Engine is proved to produce exactly these rows. */
module Projection {
  import opened Types
  import opened Helpers

  /** Monthly churn rate used by the whole run. */
  function ChurnRate(p: Params): real
  {
    ClampChurn(p.churnPercent)
  }

  /** New clients signed in month `m`, honouring the one-month override. */
  function NewClientsFor(p: Params, m: int): int
  {
    if p.overrideMonth == m && p.overrideMonth > 0 then p.overrideNewClients
    else p.defaultNewClients
  }

  /** Size of the cohort born with `newClients` signups: Fixed mode takes the
      cancellations off at once (never below zero); Churn mode keeps every
      signup and applies attrition when the cohort is read. */
  function NetSize(p: Params, newClients: int): (r: int)
    ensures p.cancellationMode == Fixed ==>
              r >= 0 && r >= newClients - p.cancellations &&
              (r == 0 || r == newClients - p.cancellations)
    ensures p.cancellationMode == Churn ==> r == newClients
  {
    if p.cancellationMode == Fixed then Max(newClients - p.cancellations, 0)
    else newClients
  }

  /** The cohort created in month `m`. */
  function CohortOf(p: Params, m: int): Cohort
  {
    Cohort(m, NetSize(p, NewClientsFor(p, m)))
  }

  /** The cohorts that exist once month `m` has been processed, oldest first. */
  function Cohorts(p: Params, m: nat): seq<Cohort>
  {
    seq(m, i => CohortOf(p, i + 1))
  }

  /** Total size of a list of cohorts. */
  function SumSizes(cs: seq<Cohort>): int
    decreases |cs|
  {
    if |cs| == 0 then 0 else SumSizes(cs[..|cs| - 1]) + cs[|cs| - 1].size
  }

  /** The age the survival clock uses: it follows the lifetime counting mode. */
  function ChurnAge(mode: LifetimeMode, ageFromActivation: int, ageFromFirstPayment: int): int
  {
    if mode == FromActivation then ageFromActivation else ageFromFirstPayment
  }

  /** What cohort `c` adds to month `m`'s paying clients and gross payments. */
  function Contribution(p: Params, rate: real, c: Cohort, m: int): Tally
  {
    var age := m - c.birth;
    if age < 0 then Tally(0.0, 0.0)
    else
      var firstAge := AgeFromFirstPayment(age, p.freeMonths);
      if !IsActiveByLifetime(age, firstAge, p.lifetimeMonths, p.lifetimeMode) then Tally(0.0, 0.0)
      else
        var sf := if p.cancellationMode == Churn
                  then SurvivalFactor(rate, ChurnAge(p.lifetimeMode, age, firstAge))
                  else 1.0;
        var price := PerClientPayment(p.contractType, age, p.freeMonths, p.introMonths,
                                      p.introAmount, p.recurringAmount, p.flatAmount);
        if price > 0.0 then
          var active := c.size as real * sf;
          Tally(active, price * active)
        else Tally(0.0, 0.0)
  }

  /** Sum of the contributions of `cs` to month `m`, accumulated oldest first. */
  function ScanCohorts(p: Params, rate: real, cs: seq<Cohort>, m: int): Tally
    decreases |cs|
  {
    if |cs| == 0 then Tally(0.0, 0.0)
    else
      var t := ScanCohorts(p, rate, cs[..|cs| - 1], m);
      var c := Contribution(p, rate, cs[|cs| - 1], m);
      Tally(t.paying + c.paying, t.gross + c.gross)
  }

  /** New-sale income of month `m`: the bonus for this month's signups while
      the payout window (counted from the start of the run) is open. */
  function NewSaleIncome(p: Params, m: int, newClients: int): real
  {
    var bonusRaw :=
      if IncludesBonus(p.payoutPolicy) && p.useNewSaleBonus && p.payoutDuration > 0
         && m <= p.payoutDuration
      then p.newSalePayout * newClients as real
      else 0.0;
    if p.payoutType == Commissionable then bonusRaw * p.commissionRate else bonusRaw
  }

  /** Paying clients and gross payments of month `m`; nothing is scanned
      when the policy excludes recurring income. */
  function RecurringTally(p: Params, m: nat): Tally
  {
    if IncludesRecurring(p.payoutPolicy) then ScanCohorts(p, ChurnRate(p), Cohorts(p, m), m)
    else Tally(0.0, 0.0)
  }

  /** The agent's commission on the clients' gross payments. */
  function CommissionOn(p: Params, gross: real): real
  {
    if IncludesRecurring(p.payoutPolicy) then gross * p.commissionRate else 0.0
  }

  /** The month's total as the payout policy combines its two components. */
  function PolicyTotal(policy: PayoutPolicy, bonus: real, commission: real): real
  {
    match policy
    case BonusOnly => bonus
    case RecurringOnly => commission
    case BonusAndRecurring => bonus + commission
  }

  /** The row of month `m`. */
  function MonthRow(p: Params, m: nat): Row
  {
    var newClients := NewClientsFor(p, m);
    var tally := RecurringTally(p, m);
    var commission := CommissionOn(p, tally.gross);
    var bonus := NewSaleIncome(p, m, newClients);
    Row(m, newClients,
        if p.cancellationMode == Fixed then Some(p.cancellations) else None,
        p.cancellationMode,
        NetSize(p, newClients),
        SumSizes(Cohorts(p, m)),
        tally.paying, tally.gross, bonus, commission,
        PolicyTotal(p.payoutPolicy, bonus, commission))
  }

  /** The monthly table: one row per month 1..months, in order. */
  function ProjectMonths(p: Params): (rows: seq<Row>)
    ensures |rows| == MonthCount(p)
    ensures forall i :: 0 <= i < |rows| ==> rows[i].month == i + 1
  {
    seq(MonthCount(p), i requires 0 <= i => MonthRow(p, i + 1))
  }

  /** Sum of the Net Activations column. */
  function SumNet(rows: seq<Row>): int
    decreases |rows|
  {
    if |rows| == 0 then 0 else SumNet(rows[..|rows| - 1]) + rows[|rows| - 1].netActivations
  }

  // ---------------------------------------------------------------------
  // Properties of the monthly table
  // ---------------------------------------------------------------------

  /** Month `m` shows the override count exactly when the override is on and
      targets `m`; every other month shows the default count. */
  lemma NewClientsOverride(p: Params, i: int)
    requires 0 <= i < MonthCount(p)
    ensures p.overrideMonth == i + 1 && p.overrideMonth > 0 ==>
              ProjectMonths(p)[i].newClients == p.overrideNewClients
    ensures !(p.overrideMonth == i + 1 && p.overrideMonth > 0) ==>
              ProjectMonths(p)[i].newClients == p.defaultNewClients
    ensures p.overrideNewClients != p.defaultNewClients ==>
              (ProjectMonths(p)[i].newClients == p.overrideNewClients <==>
               p.overrideMonth == i + 1 && p.overrideMonth > 0)
  {
  }

  /** Net activations per mode: Fixed takes the cancellations off without
      going below zero and reports them; Churn keeps every signup and reports
      no cancellation count. */
  lemma NetActivationsByMode(p: Params, i: int)
    requires 0 <= i < MonthCount(p)
    ensures var r := ProjectMonths(p)[i];
            p.cancellationMode == Fixed ==>
              r.netActivations == Max(r.newClients - p.cancellations, 0) &&
              r.netActivations >= 0 &&
              r.cancellations == Some(p.cancellations)
    ensures var r := ProjectMonths(p)[i];
            p.cancellationMode == Churn ==>
              r.netActivations == r.newClients && r.cancellations == None
  {
  }

  lemma CohortsExtend(p: Params, m: nat)
    ensures Cohorts(p, m + 1) == Cohorts(p, m) + [CohortOf(p, m + 1)]
    ensures SumSizes(Cohorts(p, m + 1)) == SumSizes(Cohorts(p, m)) + CohortOf(p, m + 1).size
  {
    assert Cohorts(p, m + 1)[..m] == Cohorts(p, m);
  }

  /** Conservation: the signed cumulative count of month i+1 is the sum of
      the net activations of months 1..i+1. */
  lemma {:induction false} SignedCumulativeIsRunningSum(p: Params, i: int)
    requires 0 <= i < MonthCount(p)
    ensures ProjectMonths(p)[i].signedCumulative == SumNet(ProjectMonths(p)[..i + 1])
  {
    var rows := ProjectMonths(p);
    assert rows[..i + 1][..i] == rows[..i];
    CohortsExtend(p, i);
    if i > 0 {
      SignedCumulativeIsRunningSum(p, i - 1);
    }
  }

  lemma {:induction false} SteadyCohortSizes(p: Params, m: nat)
    requires p.overrideMonth <= 0 || p.overrideMonth > m
    ensures SumSizes(Cohorts(p, m)) == m * NetSize(p, p.defaultNewClients)
  {
    if m > 0 {
      SteadyCohortSizes(p, m - 1);
      CohortsExtend(p, m - 1);
      assert (m - 1) * NetSize(p, p.defaultNewClients) + NetSize(p, p.defaultNewClients)
          == m * NetSize(p, p.defaultNewClients);
    }
  }

  /** Until the override month is reached, every month adds the same net
      cohort, so the signed cumulative count grows linearly. */
  lemma SteadySignupsCumulative(p: Params, i: int)
    requires 0 <= i < MonthCount(p)
    requires p.overrideMonth <= 0 || p.overrideMonth > i + 1
    ensures ProjectMonths(p)[i].signedCumulative
         == (i + 1) * ProjectMonths(p)[i].netActivations
  {
    SteadyCohortSizes(p, i + 1);
  }

  /** The total is the new-sale income plus the commission under every
      policy, and each policy zeroes the component it excludes. */
  lemma PolicyPartition(p: Params, i: int)
    requires 0 <= i < MonthCount(p)
    ensures var r := ProjectMonths(p)[i];
            r.total == r.newSaleIncome + r.commission
    ensures var r := ProjectMonths(p)[i];
            p.payoutPolicy == RecurringOnly ==> r.newSaleIncome == 0.0
    ensures var r := ProjectMonths(p)[i];
            p.payoutPolicy == BonusOnly ==>
              r.grossPayments == 0.0 && r.commission == 0.0 && r.payingClients == 0.0
    ensures var r := ProjectMonths(p)[i];
            IncludesRecurring(p.payoutPolicy) ==> r.commission == r.grossPayments * p.commissionRate
  {
  }

  /** The bonus is paid only in the first `payoutDuration` months of the run,
      on that month's signups, scaled by the commission rate when commissionable. */
  lemma BonusWindow(p: Params, i: int)
    requires 0 <= i < MonthCount(p)
    ensures var r := ProjectMonths(p)[i];
            (i + 1 > p.payoutDuration || p.payoutDuration == 0 || !p.useNewSaleBonus
             || p.payoutPolicy == RecurringOnly) ==> r.newSaleIncome == 0.0
    ensures var r := ProjectMonths(p)[i];
            var raw := p.newSalePayout * r.newClients as real;
            (i + 1 <= p.payoutDuration && p.useNewSaleBonus && p.payoutPolicy != RecurringOnly) ==>
              r.newSaleIncome == (if p.payoutType == Commissionable then raw * p.commissionRate else raw)
  {
  }

  // ---------------------------------------------------------------------
  // Properties of a cohort's contribution
  // ---------------------------------------------------------------------

  /** A cohort whose client price is not positive (for instance during its
      free months), that is not yet born, or that is outside its lifetime
      adds nothing to paying clients or gross payments. */
  lemma ZeroPriceContributesNothing(p: Params, rate: real, c: Cohort, m: int)
    requires m - c.birth < 0 ||
             !CohortActiveAt(m - c.birth, p.freeMonths, p.lifetimeMonths, p.lifetimeMode) ||
             PerClientPayment(p.contractType, m - c.birth, p.freeMonths, p.introMonths,
                              p.introAmount, p.recurringAmount, p.flatAmount) <= 0.0
    ensures Contribution(p, rate, c, m) == Tally(0.0, 0.0)
  {
  }

  /** Once a cohort has left its lifetime window it contributes nothing in
      any later month. */
  lemma ExpiredCohortStaysSilent(p: Params, rate: real, c: Cohort, m: int, later: int)
    requires c.birth <= m <= later
    requires !CohortActiveAt(m - c.birth, p.freeMonths, p.lifetimeMonths, p.lifetimeMode)
    ensures Contribution(p, rate, c, later) == Tally(0.0, 0.0)
  {
    LifetimeNeverReactivates(m - c.birth, later - c.birth, p.freeMonths, p.lifetimeMonths,
                             p.lifetimeMode);
  }

  /** A cohort of non-negative size contributes between none and all of its
      clients, each paying the cohort's current price; without churn, a
      live, paying cohort contributes all of its clients. */
  lemma ContributionShape(p: Params, rate: real, c: Cohort, m: int)
    requires c.size >= 0 && rate < 1.0
    ensures var t := Contribution(p, rate, c, m);
            0.0 <= t.paying <= c.size as real
    ensures var t := Contribution(p, rate, c, m);
            t.gross == PerClientPayment(p.contractType, m - c.birth, p.freeMonths, p.introMonths,
                                        p.introAmount, p.recurringAmount, p.flatAmount) * t.paying
    ensures p.cancellationMode == Fixed && m >= c.birth &&
            CohortActiveAt(m - c.birth, p.freeMonths, p.lifetimeMonths, p.lifetimeMode) &&
            PerClientPayment(p.contractType, m - c.birth, p.freeMonths, p.introMonths,
                             p.introAmount, p.recurringAmount, p.flatAmount) > 0.0 ==>
              Contribution(p, rate, c, m).paying == c.size as real
  {
  }

  /** In Churn mode a born, live cohort at a positive price pays for its size
      scaled by the survival factor, the survival clock following the
      lifetime counting mode. */
  lemma ChurnContribution(p: Params, rate: real, c: Cohort, m: int)
    requires p.cancellationMode == Churn && c.birth <= m
    requires CohortActiveAt(m - c.birth, p.freeMonths, p.lifetimeMonths, p.lifetimeMode)
    requires PerClientPayment(p.contractType, m - c.birth, p.freeMonths, p.introMonths,
                              p.introAmount, p.recurringAmount, p.flatAmount) > 0.0
    ensures Contribution(p, rate, c, m).paying
         == c.size as real * SurvivalFactor(rate, ChurnAge(p.lifetimeMode, m - c.birth,
                                                           AgeFromFirstPayment(m - c.birth, p.freeMonths)))
    ensures p.lifetimeMode == FromActivation ==>
              ChurnAge(p.lifetimeMode, m - c.birth, AgeFromFirstPayment(m - c.birth, p.freeMonths))
              == m - c.birth
    ensures p.lifetimeMode == AfterFreeMonths ==>
              ChurnAge(p.lifetimeMode, m - c.birth, AgeFromFirstPayment(m - c.birth, p.freeMonths))
              == AgeFromFirstPayment(m - c.birth, p.freeMonths)
  {
  }

  /** Scaling by a non-negative amount preserves order. */
  lemma ScaleMonotone(s: real, x: real, y: real)
    requires s >= 0.0 && x <= y
    ensures s * x <= s * y
  {
    assert s * y - s * x == s * (y - x);
  }

  /** A cohort's size scaled by survival never grows with its activation age,
      whichever age the survival clock follows. */
  lemma ChurnSurvivalDecays(mode: LifetimeMode, rate: real, size: int, freeMonths: int,
                            a: int, a': int)
    requires size >= 0 && rate < 1.0 && a <= a'
    ensures size as real * SurvivalFactor(rate, ChurnAge(mode, a', AgeFromFirstPayment(a', freeMonths)))
         <= size as real * SurvivalFactor(rate, ChurnAge(mode, a, AgeFromFirstPayment(a, freeMonths)))
  {
    FirstPaymentAgeMonotone(a, a', freeMonths);
    var ca := ChurnAge(mode, a, AgeFromFirstPayment(a, freeMonths));
    var ca' := ChurnAge(mode, a', AgeFromFirstPayment(a', freeMonths));
    SurvivalNonIncreasing(rate, ca, ca');
    ScaleMonotone(size as real, SurvivalFactor(rate, ca'), SurvivalFactor(rate, ca));
  }

  /** Two months at which a Churn cohort is live and paying: the later one
      has no more paying clients. */
  lemma ChurnLiveDecays(p: Params, rate: real, c: Cohort, m: int, m': int)
    requires p.cancellationMode == Churn && c.size >= 0 && rate < 1.0 && c.birth <= m <= m'
    requires CohortActiveAt(m - c.birth, p.freeMonths, p.lifetimeMonths, p.lifetimeMode)
    requires CohortActiveAt(m' - c.birth, p.freeMonths, p.lifetimeMonths, p.lifetimeMode)
    requires PerClientPayment(p.contractType, m - c.birth, p.freeMonths, p.introMonths,
                              p.introAmount, p.recurringAmount, p.flatAmount) > 0.0
    requires PerClientPayment(p.contractType, m' - c.birth, p.freeMonths, p.introMonths,
                              p.introAmount, p.recurringAmount, p.flatAmount) > 0.0
    ensures Contribution(p, rate, c, m').paying <= Contribution(p, rate, c, m).paying
  {
    var a, a' := m - c.birth, m' - c.birth;
    var sf := SurvivalFactor(rate, ChurnAge(p.lifetimeMode, a, AgeFromFirstPayment(a, p.freeMonths)));
    var sf' := SurvivalFactor(rate, ChurnAge(p.lifetimeMode, a', AgeFromFirstPayment(a', p.freeMonths)));
    ChurnContribution(p, rate, c, m);
    ChurnContribution(p, rate, c, m');
    ChurnSurvivalDecays(p.lifetimeMode, rate, c.size, p.freeMonths, a, a');
    assert c.size as real * sf' <= c.size as real * sf;
  }

  /** In Churn mode a cohort's paying clients never grow once it pays: the
      survival factor shrinks with age and an expired cohort stays expired. */
  lemma ChurnCohortDecays(p: Params, c: Cohort, m: int, m': int)
    requires p.cancellationMode == Churn && c.size >= 0 && c.birth <= m <= m'
    requires PerClientPayment(p.contractType, m - c.birth, p.freeMonths, p.introMonths,
                              p.introAmount, p.recurringAmount, p.flatAmount) > 0.0
    ensures Contribution(p, ChurnRate(p), c, m').paying <= Contribution(p, ChurnRate(p), c, m).paying
  {
    var rate := ChurnRate(p);
    var a, a' := m - c.birth, m' - c.birth;
    if CohortActiveAt(a', p.freeMonths, p.lifetimeMonths, p.lifetimeMode)
       && PerClientPayment(p.contractType, a', p.freeMonths, p.introMonths,
                           p.introAmount, p.recurringAmount, p.flatAmount) > 0.0
    {
      LifetimeNeverReactivates(a, a', p.freeMonths, p.lifetimeMonths, p.lifetimeMode);
      ChurnLiveDecays(p, rate, c, m, m');
    } else {
      ContributionShape(p, rate, c, m);
      ZeroPriceContributesNothing(p, rate, c, m');
    }
  }

  /** With non-negative cohort sizes, the expected paying clients of a month
      lie between 0 and the total cohort size. */
  lemma {:induction false} ScanPayingBounds(p: Params, cs: seq<Cohort>, m: int)
    requires forall j :: 0 <= j < |cs| ==> cs[j].size >= 0
    ensures 0.0 <= ScanCohorts(p, ChurnRate(p), cs, m).paying <= SumSizes(cs) as real
    decreases |cs|
  {
    if |cs| > 0 {
      ScanPayingBounds(p, cs[..|cs| - 1], m);
      ContributionShape(p, ChurnRate(p), cs[|cs| - 1], m);
    }
  }

  /** When signups are non-negative, the paying clients of a month never
      exceed the signed cumulative count. */
  lemma PayingAtMostSigned(p: Params, i: int)
    requires 0 <= i < MonthCount(p)
    requires p.defaultNewClients >= 0 && p.overrideNewClients >= 0
    ensures 0.0 <= ProjectMonths(p)[i].payingClients <= ProjectMonths(p)[i].signedCumulative as real
  {
    var cs := Cohorts(p, i + 1);
    ScanPayingBounds(p, cs, i + 1);
  }

  /** Fixed mode, unlimited lifetime, a flat contract and no free months. */
  predicate FlatScenario(p: Params)
  {
    && p.cancellationMode == Fixed
    && p.lifetimeMonths <= 0
    && p.contractType == FlatMonthly
    && p.freeMonths <= 0
    && p.flatAmount >= 0.0
  }

  /** In the flat scenario every born cohort pays the flat price for each of
      its clients. */
  lemma {:induction false} FlatScanGross(p: Params, rate: real, cs: seq<Cohort>, m: int)
    requires FlatScenario(p)
    requires forall j :: 0 <= j < |cs| ==> cs[j].birth <= m
    ensures ScanCohorts(p, rate, cs, m).gross == p.flatAmount * SumSizes(cs) as real
    ensures p.flatAmount > 0.0 ==> ScanCohorts(p, rate, cs, m).paying == SumSizes(cs) as real
    decreases |cs|
  {
    if |cs| > 0 {
      var init := cs[..|cs| - 1];
      var c := cs[|cs| - 1];
      FlatScanGross(p, rate, init, m);
      assert p.flatAmount * SumSizes(init) as real + p.flatAmount * c.size as real
          == p.flatAmount * (SumSizes(init) + c.size) as real;
    }
  }

  /** The paying, gross and signed columns of row i are those of month
      i + 1's cohorts. */
  lemma RowColumns(p: Params, i: int)
    requires 0 <= i < MonthCount(p)
    ensures ProjectMonths(p)[i].payingClients == RecurringTally(p, i + 1).paying
    ensures ProjectMonths(p)[i].grossPayments == RecurringTally(p, i + 1).gross
    ensures ProjectMonths(p)[i].signedCumulative == SumSizes(Cohorts(p, i + 1))
  {
    assert ProjectMonths(p)[i] == MonthRow(p, i + 1);
  }

  /** In the flat scenario with recurring income, a month's gross payments
      are the flat price times the clients signed so far. */
  lemma FlatScenarioGross(p: Params, i: int)
    requires 0 <= i < MonthCount(p)
    requires FlatScenario(p) && IncludesRecurring(p.payoutPolicy)
    ensures ProjectMonths(p)[i].grossPayments == p.flatAmount * ProjectMonths(p)[i].signedCumulative as real
    ensures p.flatAmount > 0.0 ==>
              ProjectMonths(p)[i].payingClients == ProjectMonths(p)[i].signedCumulative as real
  {
    var cs := Cohorts(p, i + 1);
    RowColumns(p, i);
    assert RecurringTally(p, i + 1) == ScanCohorts(p, ChurnRate(p), cs, i + 1);
    FlatScanGross(p, ChurnRate(p), cs, i + 1);
  }
}
