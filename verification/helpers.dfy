/** The three pure helpers of the projection: the lifetime gate, the
    geometric survival model and the per-client contract price, plus the
    clamping of the churn percentage into a monthly rate. */
module Helpers {
  import opened Types

  /** Larger of two integers (Python's `max` on two ints). */
  function Max(a: int, b: int): int
  {
    if a >= b then a else b
  }

  /** Months since the first paid month; 0 while still in the free months. */
  function AgeFromFirstPayment(ageFromActivation: int, freeMonths: int): (r: int)
    ensures r >= 0
    ensures ageFromActivation >= freeMonths ==> r == ageFromActivation - freeMonths
    ensures ageFromActivation <= freeMonths ==> r == 0
  {
    Max(ageFromActivation - freeMonths, 0)
  }

  /** The first-payment age never decreases as the activation age grows,
      and never grows by more than the activation age does. */
  lemma FirstPaymentAgeMonotone(a: int, b: int, freeMonths: int)
    requires a <= b
    ensures AgeFromFirstPayment(a, freeMonths) <= AgeFromFirstPayment(b, freeMonths)
    ensures AgeFromFirstPayment(b, freeMonths) - AgeFromFirstPayment(a, freeMonths) <= b - a
  {
  }

  // ---------------------------------------------------------------------
  // Lifetime gate
  // ---------------------------------------------------------------------

  /** True when a client of the given ages is still inside its lifetime window. */
  function IsActiveByLifetime(ageFromActivation: int, ageFromFirstPayment: int,
                              lifetimeMonths: int, mode: LifetimeMode): bool
  {
    if lifetimeMonths <= 0 then true
    else if mode == FromActivation then ageFromActivation < lifetimeMonths
    else ageFromFirstPayment < lifetimeMonths
  }

  /** The gate never reopens: a client that fails it fails it again when
      both of its ages are at least as large. */
  lemma GateAntitone(a: int, f: int, a': int, f': int, lifetimeMonths: int, mode: LifetimeMode)
    requires a <= a' && f <= f'
    ensures !IsActiveByLifetime(a, f, lifetimeMonths, mode) ==>
              !IsActiveByLifetime(a', f', lifetimeMonths, mode)
    ensures lifetimeMonths <= 0 ==> IsActiveByLifetime(a, f, lifetimeMonths, mode)
  {
  }

  /** The gate of one cohort at a given age, with the first-payment age
      derived from the activation age as the projection does. */
  predicate CohortActiveAt(age: int, freeMonths: int, lifetimeMonths: int, mode: LifetimeMode)
  {
    IsActiveByLifetime(age, AgeFromFirstPayment(age, freeMonths), lifetimeMonths, mode)
  }

  /** A limited lifetime keeps a cohort active exactly for the ages below a
      cutoff: the lifetime itself when counted from activation, the lifetime
      plus the free months when counted from the first payment. An unlimited
      lifetime keeps it active at every age. */
  lemma LifetimeCutoff(age: int, freeMonths: int, lifetimeMonths: int, mode: LifetimeMode)
    ensures lifetimeMonths <= 0 ==> CohortActiveAt(age, freeMonths, lifetimeMonths, mode)
    ensures lifetimeMonths > 0 && mode == FromActivation ==>
              (CohortActiveAt(age, freeMonths, lifetimeMonths, mode) <==> age < lifetimeMonths)
    ensures lifetimeMonths > 0 && mode == AfterFreeMonths ==>
              (CohortActiveAt(age, freeMonths, lifetimeMonths, mode) <==>
               age < lifetimeMonths + freeMonths)
  {
  }

  /** Once a cohort fails the lifetime gate it fails it at every later age:
      it never reactivates. Equivalently, the active ages form a prefix. */
  lemma LifetimeNeverReactivates(a: int, b: int, freeMonths: int, lifetimeMonths: int,
                                 mode: LifetimeMode)
    requires a <= b
    ensures !CohortActiveAt(a, freeMonths, lifetimeMonths, mode) ==>
              !CohortActiveAt(b, freeMonths, lifetimeMonths, mode)
    ensures CohortActiveAt(b, freeMonths, lifetimeMonths, mode) ==>
              CohortActiveAt(a, freeMonths, lifetimeMonths, mode)
  {
  }

  // ---------------------------------------------------------------------
  // Survival model
  // ---------------------------------------------------------------------

  /** `b ** n` for a non-negative integer exponent. */
  function Pow(b: real, n: nat): real
    decreases n
  {
    if n == 0 then 1.0 else b * Pow(b, n - 1)
  }

  /** Scaling a positive amount by a factor in (0, 1] does not enlarge it;
      by a factor below 1 it strictly shrinks it. */
  lemma Shrink(x: real, q: real, r: real)
    requires 0.0 < x <= 1.0 && 0.0 < q && r == x * q
    ensures 0.0 < r <= q
    ensures x < 1.0 ==> r < q
  {
    assert q - r == (1.0 - x) * q;
  }

  lemma {:induction false} PowBounds(x: real, n: nat)
    requires 0.0 < x <= 1.0
    ensures 0.0 < Pow(x, n) <= 1.0
  {
    if n > 0 {
      PowBounds(x, n - 1);
      Shrink(x, Pow(x, n - 1), Pow(x, n));
    }
  }

  lemma PowStep(x: real, n: nat)
    requires 0.0 < x <= 1.0 && n > 0
    ensures Pow(x, n) <= Pow(x, n - 1)
    ensures x < 1.0 ==> Pow(x, n) < Pow(x, n - 1)
  {
    PowBounds(x, n - 1);
    Shrink(x, Pow(x, n - 1), Pow(x, n));
  }

  /** Powers of a base in (0, 1] never grow with the exponent, and strictly
      shrink when the base is below 1. */
  lemma {:induction false} PowAntitone(x: real, a: nat, b: nat)
    requires 0.0 < x <= 1.0
    requires a <= b
    ensures Pow(x, b) <= Pow(x, a)
    ensures x < 1.0 && a < b ==> Pow(x, b) < Pow(x, a)
    decreases b - a
  {
    if a < b {
      PowAntitone(x, a, b - 1);
      PowStep(x, b);
    }
  }

  /** Monthly churn rate from a percentage, clamped into [0, 0.99]. */
  function ClampChurn(churnPercent: real): (r: real)
    ensures 0.0 <= r <= 0.99
    ensures 0.0 <= churnPercent <= 99.0 ==> r * 100.0 == churnPercent
    ensures churnPercent <= 0.0 ==> r == 0.0
    ensures churnPercent >= 99.0 ==> r == 0.99
  {
    var rate := churnPercent / 100.0;
    var capped := if rate <= 0.99 then rate else 0.99;
    if capped >= 0.0 then capped else 0.0
  }

  /** Expected fraction of a cohort still present after `churnAge` months of
      constant monthly churn. */
  function SurvivalFactor(churnRate: real, churnAge: int): (r: real)
    ensures churnRate <= 0.0 || churnAge <= 0 ==> r == 1.0
    ensures churnRate < 1.0 ==> 0.0 < r <= 1.0
    ensures 0.0 < churnRate < 1.0 && churnAge > 0 ==> r < 1.0
  {
    if churnRate <= 0.0 || churnAge <= 0 then 1.0
    else if churnRate < 1.0 then
      PowAntitone(1.0 - churnRate, 0, churnAge);
      PowBounds(1.0 - churnRate, churnAge);
      Pow(1.0 - churnRate, churnAge)
    else
      Pow(1.0 - churnRate, churnAge)
  }

  /** For any rate below 1, survival never grows with the churn age. */
  lemma SurvivalNonIncreasing(churnRate: real, a: int, b: int)
    requires churnRate < 1.0
    requires a <= b
    ensures SurvivalFactor(churnRate, b) <= SurvivalFactor(churnRate, a)
  {
    if churnRate > 0.0 && a > 0 {
      PowAntitone(1.0 - churnRate, a, b);
    }
  }

  /** With a positive rate below 1, survival strictly decreases from age 0 on. */
  lemma SurvivalStrictlyDecreasing(churnRate: real, a: int, b: int)
    requires 0.0 < churnRate < 1.0
    requires 0 <= a < b
    ensures SurvivalFactor(churnRate, b) < SurvivalFactor(churnRate, a)
  {
    if a > 0 {
      PowAntitone(1.0 - churnRate, a, b);
    }
  }

  // ---------------------------------------------------------------------
  // Contract pricing rule
  // ---------------------------------------------------------------------

  /** Gross monthly payment of one client activated `ageFromActivation` months ago. */
  function PerClientPayment(contract: ContractType, ageFromActivation: int, freeMonths: int,
                            introMonths: int, introAmount: real, recurringAmount: real,
                            flatAmount: real): (r: real)
    ensures ageFromActivation < freeMonths ==> r == 0.0
    ensures ageFromActivation >= freeMonths ==>
              (contract == FlatMonthly ==> r == flatAmount) &&
              (contract == IntroRecurring ==> r == introAmount || r == recurringAmount)
    ensures introAmount >= 0.0 && recurringAmount >= 0.0 && flatAmount >= 0.0 ==> r >= 0.0
  {
    if ageFromActivation < freeMonths then 0.0
    else
      var effAge := ageFromActivation - freeMonths;
      if contract == IntroRecurring then
        (if effAge < introMonths then introAmount else recurringAmount)
      else flatAmount
  }

  /** The price schedule is the free period followed by the undelayed
      schedule: after the free months the price depends only on the age
      counted from the first paid month. */
  lemma PaymentShiftsByFreeMonths(contract: ContractType, age: int, freeMonths: int,
                                  introMonths: int, introAmount: real,
                                  recurringAmount: real, flatAmount: real)
    requires age >= freeMonths
    ensures PerClientPayment(contract, age, freeMonths, introMonths, introAmount,
                             recurringAmount, flatAmount)
         == PerClientPayment(contract, age - freeMonths, 0, introMonths, introAmount,
                             recurringAmount, flatAmount)
  {
  }

  /** For an intro contract whose two prices differ, the intro price is paid
      exactly in the `introMonths` months that follow the free months. */
  lemma IntroWindow(age: int, freeMonths: int, introMonths: int, introAmount: real,
                    recurringAmount: real, flatAmount: real)
    requires introAmount != recurringAmount && introAmount != 0.0
    ensures PerClientPayment(IntroRecurring, age, freeMonths, introMonths, introAmount,
                             recurringAmount, flatAmount) == introAmount
        <==> freeMonths <= age < freeMonths + introMonths
  {
  }
}
