/** The records of `internal/loan` that the contractual calculator reads and returns. */
module Loan {

  /** `loan.Money`: an immutable exact rational. Only exact operations are used, so `real` carries the same laws. */
  type Money = real

  function MinMoney(left: Money, right: Money): Money {
    if left <= right then left else right
  }

  /** `loan.Date`: a calendar triple, ordered only through its packed key. The zero value has year 0. */
  datatype Date = Date(year: int, month: int, day: int) {
    function Packed(): int {
      year * 10000 + month * 100 + day
    }

    predicate IsZero() {
      year == 0
    }

    predicate Before(other: Date) {
      Packed() < other.Packed()
    }

    predicate After(other: Date) {
      Packed() > other.Packed()
    }

    predicate Equal(other: Date) {
      Packed() == other.Packed()
    }

    predicate IsCalendar() {
      1 <= month <= 12 && 1 <= day <= 31
    }
  }

  const ZERO_DATE := Date(0, 0, 0)

  /** On calendar dates the packed key is the year-month-day order, so distinct days never compare equal. */
  lemma PackedIsCalendarOrder(a: Date, b: Date)
    requires a.IsCalendar() && b.IsCalendar()
    ensures a.Before(b) <==>
            a.year < b.year || (a.year == b.year && (a.month < b.month || (a.month == b.month && a.day < b.day)))
    ensures a.Equal(b) <==> a == b
  {
  }

  /** The error sentinels the calculator and the schedule normaliser wrap. */
  datatype Error =
    | InvalidInput
    | Invariant
    | HistoricalEvidence
    | UnsupportedCalculation
    | UnsupportedReversal
    | UnsupportedAdjustment

  datatype Repayment = Repayment(
    date: Date,
    principal: Money,
    interest: Money,
    penalty: Money,
    earlyPenalty: Money,
    dwp: Money,
    total: Money,
    journal: string,
    sourceOrder: int)
  {
    /** The part of a repayment that reduces principal or interest. */
    function Amount(): Money {
      principal + interest
    }
  }

  datatype Installment = Installment(number: int, dueDate: Date)

  datatype ScheduleRow = ScheduleRow(
    number: int,
    dueDate: Date,
    principal: Money,
    interest: Money,
    installment: Money,
    balance: Money)

  datatype CollectabilityPoint = CollectabilityPoint(date: Date, value: int)

  datatype OpeningState = OpeningState(
    account: string,
    interestType: string,
    principal: Money,
    principalDue: Money,
    interestDue: Money,
    penaltyDue: Money,
    collectability: int)

  datatype CalculationInput = CalculationInput(
    asOf: Date,
    cutoff: Date,
    contractualPrincipal: Money,
    tenorMonths: int,
    flatRatePercent: Money,
    opening: OpeningState,
    schedule: seq<Installment>,
    repayments: seq<Repayment>,
    timeline: seq<CollectabilityPoint>)

  datatype CalculationTrace = CalculationTrace(
    opening: OpeningState,
    periodsAccrued: int,
    repaymentsApplied: int,
    lastPaymentDate: Date,
    lastDueDateAccrued: Date)

  datatype CalculationResult = CalculationResult(
    asOf: Date,
    principal: Money,
    principalDue: Money,
    interestDue: Money,
    collectability: int,
    unapplied: Money,
    trace: CalculationTrace,
    schedule: seq<ScheduleRow>)
}
