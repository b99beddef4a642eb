/**
 What a result reports, read off the input: what fell due, which collectability applied on which day, the counters of
 the trace, and when there is a result at all.
 */
module Reported {
  import opened Wrappers
  import opened Loan
  import opened Balances
  import opened Schedule
  import opened Timeline
  import opened Calculator

  predicate Between(date: Date, cutoff: Date, asOf: Date) {
    cutoff.Packed() < date.Packed() <= asOf.Packed()
  }

  // ----- the rows that fall due

  function FallingDue(rows: seq<ScheduleRow>, cutoff: Date, asOf: Date): nat {
    if rows == [] then 0
    else (if Between(rows[0].dueDate, cutoff, asOf) then 1 else 0) + FallingDue(rows[1..], cutoff, asOf)
  }

  function PrincipalBetween(rows: seq<ScheduleRow>, cutoff: Date, asOf: Date): Money {
    if rows == [] then 0.0
    else
      (if Between(rows[0].dueDate, cutoff, asOf) then rows[0].principal else 0.0) +
      PrincipalBetween(rows[1..], cutoff, asOf)
  }

  function InterestBetween(rows: seq<ScheduleRow>, cutoff: Date, asOf: Date): Money {
    if rows == [] then 0.0
    else
      (if Between(rows[0].dueDate, cutoff, asOf) then rows[0].interest else 0.0) +
      InterestBetween(rows[1..], cutoff, asOf)
  }

  function LastDueBetween(rows: seq<ScheduleRow>, cutoff: Date, asOf: Date): Date {
    if rows == [] then ZERO_DATE
    else if Between(rows[|rows| - 1].dueDate, cutoff, asOf) then rows[|rows| - 1].dueDate
    else LastDueBetween(rows[..|rows| - 1], cutoff, asOf)
  }

  function PrincipalOf(rows: seq<ScheduleRow>): Money {
    if rows == [] then 0.0 else rows[0].principal + PrincipalOf(rows[1..])
  }

  function InterestOf(rows: seq<ScheduleRow>): Money {
    if rows == [] then 0.0 else rows[0].interest + InterestOf(rows[1..])
  }

  lemma {:induction false} DueRowsSums(rows: seq<ScheduleRow>, cutoff: Date, asOf: Date)
    ensures var dues := DueRows(rows, cutoff, asOf);
            && |dues| == FallingDue(rows, cutoff, asOf)
            && PrincipalOf(dues) == PrincipalBetween(rows, cutoff, asOf)
            && InterestOf(dues) == InterestBetween(rows, cutoff, asOf)
  {
    if rows != [] {
      DueRowsSums(rows[1..], cutoff, asOf);
      var rest := DueRows(rows[1..], cutoff, asOf);
      if Between(rows[0].dueDate, cutoff, asOf) {
        assert DueRows(rows, cutoff, asOf) == [rows[0]] + rest && ([rows[0]] + rest)[1..] == rest;
      } else {
        assert DueRows(rows, cutoff, asOf) == rest;
      }
    }
  }

  lemma {:induction false} DueRowsAppend(a: seq<ScheduleRow>, b: seq<ScheduleRow>, cutoff: Date, asOf: Date)
    ensures DueRows(a + b, cutoff, asOf) == DueRows(a, cutoff, asOf) + DueRows(b, cutoff, asOf)
  {
    if a == [] {
      assert a + b == b;
    } else {
      assert (a + b)[1..] == a[1..] + b;
      DueRowsAppend(a[1..], b, cutoff, asOf);
    }
  }

  lemma {:induction false} LastOfDueRows(rows: seq<ScheduleRow>, cutoff: Date, asOf: Date)
    ensures var dues := DueRows(rows, cutoff, asOf);
            LastDueBetween(rows, cutoff, asOf) == if dues == [] then ZERO_DATE else dues[|dues| - 1].dueDate
  {
    if rows != [] {
      var init, last := rows[..|rows| - 1], rows[|rows| - 1];
      assert rows == init + [last];
      DueRowsAppend(init, [last], cutoff, asOf);
      LastOfDueRows(init, cutoff, asOf);
      assert DueRows([last][1..], cutoff, asOf) == [];
    }
  }

  // ----- without repayments

  function Least(a: Money, b: Money): Money {
    if a < b then a else b
  }

  lemma LeastTwice(limit: Money, due: Money, a: Money, b: Money)
    requires due <= limit && a >= 0.0 && b >= 0.0
    ensures Least(limit, Least(limit, due + a) + b) == Least(limit, due + (a + b))
  {
  }

  lemma AccruedLeast(b: Balance, principal: Money, interest: Money)
    requires WellFormed(b) && principal >= 0.0
    ensures Accrued(b, principal, interest) ==
            b.(principalDue := Least(b.principal, b.principalDue + principal),
               interestDue := b.interestDue + if b.principal > 0.0 then interest else 0.0)
  {
    AccruedMeaning(b, principal, interest);
  }

  /** What dues alone make of a balance: principal falls due up to what is outstanding. */
  function WithDues(b: Balance, principal: Money, interest: Money): Balance {
    b.(principalDue := Least(b.principal, b.principalDue + principal),
       interestDue := b.interestDue + if b.principal > 0.0 then interest else 0.0)
  }

  lemma DuesAddUp(b: Balance, p: Money, i: Money, q: Money, j: Money)
    requires b.principalDue <= b.principal && p >= 0.0 && q >= 0.0
    ensures WithDues(WithDues(b, p, i), q, j) == WithDues(b, p + q, i + j)
  {
    LeastTwice(b.principal, b.principalDue, p, q);
  }

  lemma {:induction false} DuesAlone(g: Progress, dues: seq<ScheduleRow>)
    requires WellFormed(g.balance) && SoundRows(dues)
    ensures Play(g, Merge(dues, [])).balance == WithDues(g.balance, PrincipalOf(dues), InterestOf(dues))
    decreases |dues|
  {
    if dues == [] {
      assert Merge(dues, []) == [];
    } else {
      var next := Step(g, Due(dues[0]));
      PlayMergeDue(g, dues, []);
      AccruedLeast(g.balance, dues[0].principal, dues[0].interest);
      AccrueKeepsWellFormed(g.balance, dues[0].principal, dues[0].interest);
      DuesAlone(next, dues[1..]);
      NonNegativeSum(dues[1..]);
      DuesAddUp(g.balance, dues[0].principal, dues[0].interest, PrincipalOf(dues[1..]), InterestOf(dues[1..]));
    }
  }

  lemma {:induction false} NonNegativeSum(rows: seq<ScheduleRow>)
    requires SoundRows(rows)
    ensures PrincipalOf(rows) >= 0.0
  {
    if rows != [] {
      NonNegativeSum(rows[1..]);
    }
  }

  /**
   Principal due is the opening due plus the principals of the rows falling due between cutoff and as-of, up to the
   outstanding principal; their interest is added while principal is owed.
   */
  ghost predicate OnlyDues(input: CalculationInput, r: CalculationResult) {
    var o := input.opening;
    && r.principal == o.principal && r.unapplied == 0.0
    && r.principalDue == Least(o.principal, o.principalDue + PrincipalBetween(r.schedule, input.cutoff, input.asOf))
    && r.interestDue == o.interestDue +
       if o.principal > 0.0 then InterestBetween(r.schedule, input.cutoff, input.asOf) else 0.0
  }

  /** So a result ends when there is no effective repayment. */
  lemma DueWithoutRepayments(round: Rounding, input: CalculationInput)
    requires Calculated(round, input).Ok? && !input.asOf.Equal(input.cutoff)
    requires EffectiveLedger(input).Ok? && |EffectiveLedger(input).value| == 0
    ensures OnlyDues(input, Calculated(round, input).value)
  {
    DuesConcluded(round, input, ContractRows(round, input), EffectiveLedger(input), Calculated(round, input).value);
  }

  lemma DuesConcluded(round: Rounding, input: CalculationInput, contract: Outcome<seq<ScheduleRow>, Error>,
                      effective: Outcome<seq<Repayment>, Error>, r: CalculationResult)
    requires contract == ContractRows(round, input) && !input.asOf.Equal(input.cutoff)
    requires effective.Ok? && |effective.value| == 0
    requires Concluded(input, contract, effective) == Ok(r)
    ensures OnlyDues(input, r)
  {
    var rows := contract.value;
    ContractSound(round, input);
    assert effective.value == [];
    NothingPaid(input, rows);
    DuesInWindowAlone(input.opening, rows, input.cutoff, input.asOf);
    DueRowsSums(rows, input.cutoff, input.asOf);
    DuesReported(r, input.opening, PrincipalBetween(rows, input.cutoff, input.asOf),
                 InterestBetween(rows, input.cutoff, input.asOf));
  }

  lemma DuesReported(r: CalculationResult, o: OpeningState, principal: Money, interest: Money)
    requires Balance(r.principal, r.principalDue, r.interestDue, r.unapplied) ==
             WithDues(Balance(o.principal, o.principalDue, o.interestDue, 0.0), principal, interest)
    ensures r.principal == o.principal && r.unapplied == 0.0
    ensures r.principalDue == Least(o.principal, o.principalDue + principal)
    ensures r.interestDue == o.interestDue + if o.principal > 0.0 then interest else 0.0
  {
  }

  lemma {:induction false} NothingPaid(input: CalculationInput, rows: seq<ScheduleRow>)
    ensures History(input, rows, []) == Merge(DueRows(rows, input.cutoff, input.asOf), [])
  {
    assert Payments([], input.opening.collectability, OrderedTimeline(input)) == [];
  }

  lemma EndOfCalculation(round: Rounding, input: CalculationInput)
    requires Calculated(round, input).Ok? && !input.asOf.Equal(input.cutoff)
    ensures ContractRows(round, input).Ok? && EffectiveLedger(input).Ok? && ValidOpening(input.opening)
    ensures var r, rows := Calculated(round, input).value, ContractRows(round, input).value;
            var end := Play(Start(input.opening), History(input, rows, EffectiveLedger(input).value)).balance;
            r.schedule == rows && end == Balance(r.principal, r.principalDue, r.interestDue, r.unapplied)
  {
  }

  lemma {:induction false} DuesInWindowAlone(o: OpeningState, rows: seq<ScheduleRow>, cutoff: Date, asOf: Date)
    requires ValidOpening(o) && Rising(rows) && SoundRows(rows)
    ensures var dues := DueRows(rows, cutoff, asOf);
            Play(Start(o), Merge(dues, [])).balance ==
            WithDues(Balance(o.principal, o.principalDue, o.interestDue, 0.0), PrincipalOf(dues), InterestOf(dues))
  {
    DueRowsSound(rows, cutoff, asOf);
    DuesAlone(Start(o), DueRows(rows, cutoff, asOf));
  }

  // ----- the trace

  function CountPaying(pays: seq<Payment>): nat {
    if pays == [] then 0 else (if pays[0].amount != 0.0 then 1 else 0) + CountPaying(pays[1..])
  }

  function LastPaying(pays: seq<Payment>, before: Date): Date {
    if pays == [] then before else LastPaying(pays[1..], if pays[0].amount != 0.0 then pays[0].date else before)
  }

  lemma {:induction false} PlayCounts(g: Progress, dues: seq<ScheduleRow>, pays: seq<Payment>)
    ensures var e := Play(g, Merge(dues, pays));
            && e.periods == g.periods + |dues| && e.applied == g.applied + CountPaying(pays)
            && e.lastDue == (if dues == [] then g.lastDue else dues[|dues| - 1].dueDate)
            && e.lastPayment == LastPaying(pays, g.lastPayment)
    decreases |dues| + |pays|
  {
    if dues != [] && (pays == [] || !dues[0].dueDate.After(pays[0].date)) {
      PlayMergeDue(g, dues, pays);
      PlayCounts(Step(g, Due(dues[0])), dues[1..], pays);
    } else if pays != [] {
      PlayMergePay(g, dues, pays);
      PlayCounts(Step(g, Pay(pays[0])), dues, pays[1..]);
    }
  }

  /** Repayments that move money: the allocable part is principal plus interest, penalties and deposits are not. */
  function CountApplied(rows: seq<Repayment>): nat {
    if rows == [] then 0 else (if rows[0].principal + rows[0].interest != 0.0 then 1 else 0) + CountApplied(rows[1..])
  }

  function LastApplied(rows: seq<Repayment>): Date {
    if rows == [] then ZERO_DATE
    else if rows[|rows| - 1].principal + rows[|rows| - 1].interest != 0.0 then rows[|rows| - 1].date
    else LastApplied(rows[..|rows| - 1])
  }

  lemma {:induction false} PaymentsCount(rows: seq<Repayment>, opening: int, points: seq<CollectabilityPoint>)
    ensures CountPaying(Payments(rows, opening, points)) == CountApplied(rows)
  {
    if rows != [] {
      assert Payments(rows, opening, points)[1..] == Payments(rows[1..], opening, points);
      PaymentsCount(rows[1..], opening, points);
    }
  }

  lemma {:induction false} LastPayingAppend(a: seq<Payment>, p: Payment, before: Date)
    ensures LastPaying(a + [p], before) == if p.amount != 0.0 then p.date else LastPaying(a, before)
  {
    if a == [] {
      assert [] + [p] == [p] && [p][1..] == [];
      assert LastPaying([p], before) == LastPaying([p][1..], if p.amount != 0.0 then p.date else before);
    } else {
      assert (a + [p])[1..] == a[1..] + [p];
      LastPayingAppend(a[1..], p, if a[0].amount != 0.0 then a[0].date else before);
    }
  }

  lemma {:induction false} PaymentsLast(rows: seq<Repayment>, opening: int, points: seq<CollectabilityPoint>)
    ensures LastPaying(Payments(rows, opening, points), ZERO_DATE) == LastApplied(rows)
  {
    if rows != [] {
      var init, pays := rows[..|rows| - 1], Payments(rows, opening, points);
      assert pays == Payments(init, opening, points) + [pays[|pays| - 1]];
      LastPayingAppend(Payments(init, opening, points), pays[|pays| - 1], ZERO_DATE);
      PaymentsLast(init, opening, points);
    }
  }

  /**
   The trace counts the rows that fell due between cutoff and as-of and the effective repayments that moved money, and
   names the last of each; the schedule is the contract's, and opening and as-of are the input's.
   */
  lemma TraceIsTrue(round: Rounding, input: CalculationInput)
    requires Calculated(round, input).Ok? && !input.asOf.Equal(input.cutoff)
    ensures EffectiveLedger(input).Ok?
    ensures var r, ledger := Calculated(round, input).value, EffectiveLedger(input).value;
            && r.trace.periodsAccrued == FallingDue(r.schedule, input.cutoff, input.asOf)
            && r.trace.lastDueDateAccrued == LastDueBetween(r.schedule, input.cutoff, input.asOf)
            && r.trace.repaymentsApplied == CountApplied(ledger)
            && r.trace.lastPaymentDate == LastApplied(ledger)
            && r.trace.opening == input.opening && r.asOf == input.asOf
            && Built(round, input.contractualPrincipal, input.tenorMonths, input.flatRatePercent, input.schedule) ==
               Ok(r.schedule)
  {
    var rows, ledger := ContractRows(round, input).value, EffectiveLedger(input).value;
    var dues := DueRows(rows, input.cutoff, input.asOf);
    var pays := Payments(ledger, input.opening.collectability, OrderedTimeline(input));
    PlayCounts(Start(input.opening), dues, pays);
    DueRowsSums(rows, input.cutoff, input.asOf);
    LastOfDueRows(rows, input.cutoff, input.asOf);
    PaymentsCount(ledger, input.opening.collectability, OrderedTimeline(input));
    PaymentsLast(ledger, input.opening.collectability, OrderedTimeline(input));
  }

  /** On the cutoff day the result is the opening itself, with an empty schedule and trace. */
  lemma AtCutoff(round: Rounding, input: CalculationInput)
    requires Calculated(round, input).Ok? && input.asOf.Equal(input.cutoff)
    ensures var r, o := Calculated(round, input).value, input.opening;
            && r.principal == o.principal && r.principalDue == o.principalDue && r.interestDue == o.interestDue
            && r.unapplied == 0.0 && r.collectability == o.collectability && r.asOf == input.asOf && r.schedule == []
            && r.trace == CalculationTrace(o, 0, 0, ZERO_DATE, ZERO_DATE)
  {
  }

  // ----- the collectability

  /** The value the raw evidence records for a day: that of a latest point on or before it, else the opening value. */
  ghost predicate RecordedFor(input: CalculationInput, date: Date, value: int) {
    && (forall p :: LatestOf(input.timeline, date, p) ==> value == p.value)
    && ((forall q :: q in input.timeline ==> q.date.After(date)) ==> value == input.opening.collectability)
  }

  lemma {:induction false} SomeLatest(timeline: seq<CollectabilityPoint>, date: Date)
    returns (p: Option<CollectabilityPoint>)
    ensures match p
      case Some(q) => LatestOf(timeline, date, q)
      case None => forall q :: q in timeline ==> q.date.After(date)
  {
    if timeline == [] {
      p := None;
    } else {
      var rest := SomeLatest(timeline[1..], date);
      assert forall q :: q in timeline <==> q == timeline[0] || q in timeline[1..];
      if timeline[0].date.After(date) {
        p := rest;
      } else if rest.Some? && timeline[0].date.Before(rest.value.date) {
        p := rest;
      } else {
        p := Some(timeline[0]);
      }
    }
  }

  /** Every day has exactly one such value. */
  lemma RecordedForOnce(input: CalculationInput, date: Date, v: int, w: int)
    requires RecordedFor(input, date, v) && RecordedFor(input, date, w)
    ensures v == w
  {
    var p := SomeLatest(input.timeline, date);
  }

  lemma {:induction false} ValueIsRecorded(input: CalculationInput, date: Date)
    requires ValidTimeline(OrderedTimeline(input))
    ensures RecordedFor(input, date, ValueAt(input.opening.collectability, OrderedTimeline(input), date))
  {
    var opening := input.opening.collectability;
    forall p | LatestOf(input.timeline, date, p) ensures ValueAt(opening, OrderedTimeline(input), date) == p.value {
      LatestGivesValue(opening, input.timeline, date, p);
    }
    if forall q :: q in input.timeline ==> q.date.After(date) {
      NoneGivesOpening(opening, input.timeline, date);
    }
  }

  /** The reported collectability is the one recorded for the as-of day; on the cutoff day it is the opening one. */
  lemma CollectabilityReported(round: Rounding, input: CalculationInput)
    requires Calculated(round, input).Ok?
    ensures if input.asOf.Equal(input.cutoff) then
              Calculated(round, input).value.collectability == input.opening.collectability
            else RecordedFor(input, input.asOf, Calculated(round, input).value.collectability)
  {
    if !input.asOf.Equal(input.cutoff) {
      ValueIsRecorded(input, input.asOf);
    }
  }

  /**
   The payments allocated are the effective repayments in their order, each with principal plus interest as its amount
   and the collectability recorded for its day.
   */
  lemma PaymentsReported(round: Rounding, input: CalculationInput)
    requires Calculated(round, input).Ok? && !input.asOf.Equal(input.cutoff)
    ensures EffectiveLedger(input).Ok? && ContractRows(round, input).Ok?
    ensures var ledger := EffectiveLedger(input).value;
            var pays := PaysOf(History(input, ContractRows(round, input).value, ledger));
            && |pays| == |ledger|
            && forall i :: 0 <= i < |pays| ==>
                 && pays[i].date == ledger[i].date && pays[i].amount == ledger[i].principal + ledger[i].interest
                 && RecordedFor(input, pays[i].date, pays[i].collectability)
  {
    var ledger := EffectiveLedger(input).value;
    var pays := Payments(ledger, input.opening.collectability, OrderedTimeline(input));
    MergeHoldsBoth(DueRows(ContractRows(round, input).value, input.cutoff, input.asOf), pays);
    forall i | 0 <= i < |pays| ensures RecordedFor(input, pays[i].date, pays[i].collectability) {
      ValueIsRecorded(input, pays[i].date);
    }
  }

  // ----- the whole history

  /** What one event does to the balances, in closed form. */
  ghost predicate Moves(b: Balance, e: Event, a: Balance) {
    match e
    case Due(row) =>
      a == Balance(b.principal, Least(b.principal, b.principalDue + row.principal),
                   b.interestDue + if b.principal > 0.0 then row.interest else 0.0, b.unapplied)
    case Pay(p) => a == Settled(b, p.amount, p.collectability)
  }

  ghost predicate Traced(balances: seq<Balance>, events: seq<Event>) {
    |balances| == |events| + 1 && forall i :: 0 <= i < |events| ==> Moves(balances[i], events[i], balances[i + 1])
  }

  lemma StepMoves(g: Progress, e: Event)
    requires WellFormed(g.balance) && SoundEvent(e)
    ensures Moves(g.balance, e, Step(g, e).balance)
  {
    match e {
      case Due(row) => AccruedLeast(g.balance, row.principal, row.interest);
      case Pay(p) =>
        AllocatedMeaning(g.balance, p.amount, p.collectability);
        AllocateNothing(g.balance, p.collectability);
    }
  }

  lemma {:induction false} PlayTraced(g: Progress, events: seq<Event>) returns (balances: seq<Balance>)
    requires WellFormed(g.balance) && forall i :: 0 <= i < |events| ==> SoundEvent(events[i])
    ensures Traced(balances, events) && balances[0] == g.balance && balances[|events|] == Play(g, events).balance
    decreases |events|
  {
    if events == [] {
      balances := [g.balance];
    } else {
      StepMoves(g, events[0]);
      StepKeepsWellFormed(g, events[0]);
      var rest := PlayTraced(Step(g, events[0]), events[1..]);
      balances := [g.balance] + rest;
      forall i | 0 <= i < |events| ensures Moves(balances[i], events[i], balances[i + 1]) {
        if i > 0 {
          assert Moves(rest[i - 1], events[1..][i - 1], rest[i]);
        }
      }
    }
  }

  lemma {:induction false} DueRowsMembers(rows: seq<ScheduleRow>, cutoff: Date, asOf: Date, row: ScheduleRow)
    ensures row in DueRows(rows, cutoff, asOf) <==> row in rows && Between(row.dueDate, cutoff, asOf)
  {
    if rows != [] {
      DueRowsMembers(rows[1..], cutoff, asOf, row);
    }
  }

  lemma EventsOf(round: Rounding, input: CalculationInput)
    requires Calculated(round, input).Ok? && !input.asOf.Equal(input.cutoff)
    ensures ContractRows(round, input).Ok? && EffectiveLedger(input).Ok?
    ensures var events := History(input, ContractRows(round, input).value, EffectiveLedger(input).value);
            && InEventOrder(events)
            && DuesOf(events) == DueRows(ContractRows(round, input).value, input.cutoff, input.asOf)
            && forall i :: 0 <= i < |events| ==> SoundEvent(events[i])
  {
    var rows := ContractRows(round, input).value;
    var dues := DueRows(rows, input.cutoff, input.asOf);
    var pays := Payments(EffectiveLedger(input).value, input.opening.collectability, OrderedTimeline(input));
    ContractSound(round, input);
    DueRowsSound(rows, input.cutoff, input.asOf);
    LedgerSound(input);
    MergeIsTheTimeline(dues, pays);
    MergeSound(dues, pays);
  }

  /**
   A result is reached from the opening balances by one move per event: the schedule rows dated after cutoff and not
   after as-of, and the effective repayments, in date order with dues first on a tie.
   */
  lemma HistoryIsTrue(round: Rounding, input: CalculationInput) returns (events: seq<Event>, balances: seq<Balance>)
    requires Calculated(round, input).Ok? && !input.asOf.Equal(input.cutoff)
    ensures ContractRows(round, input).Ok? && EffectiveLedger(input).Ok?
    ensures events == History(input, ContractRows(round, input).value, EffectiveLedger(input).value)
    ensures InEventOrder(events) && Traced(balances, events)
    ensures var r := Calculated(round, input).value;
            && (forall row :: row in DuesOf(events) <==>
                              row in r.schedule && Between(row.dueDate, input.cutoff, input.asOf))
            && balances[0] == Balance(input.opening.principal, input.opening.principalDue, input.opening.interestDue,
               0.0)
            && balances[|events|] == Balance(r.principal, r.principalDue, r.interestDue, r.unapplied)
  {
    var rows := ContractRows(round, input).value;
    events := History(input, rows, EffectiveLedger(input).value);
    EventsOf(round, input);
    EndOfCalculation(round, input);
    balances := PlayTraced(Start(input.opening), events);
    forall row ensures row in DuesOf(events) <==> row in rows && Between(row.dueDate, input.cutoff, input.asOf) {
      DueRowsMembers(rows, input.cutoff, input.asOf, row);
    }
  }

  // ----- when there is a result

  predicate UsableOpening(o: OpeningState) {
    0.0 <= o.principalDue <= o.principal && 0.0 <= o.interestDue && 1 <= o.collectability <= 5
  }

  predicate Dates(input: CalculationInput) {
    input.asOf.year != 0 && input.cutoff.year != 0 && input.cutoff.Packed() <= input.asOf.Packed()
  }

  /**
   A calculation succeeds exactly on usable dates, opening, contract, evidence and ledger; on the cutoff day without.
   */
  lemma ResultExactly(round: Rounding, input: CalculationInput)
    ensures Calculated(round, input).Ok? <==>
            && Dates(input) && UsableOpening(input.opening)
            && (input.cutoff.Packed() < input.asOf.Packed() ==>
                  && ContractRows(round, input).Ok? && UsableEvidence(input.timeline) && EffectiveLedger(input).Ok?)
  {
    ValidInAnyOrder(input.timeline);
  }

  /** And fails with the error of the first check that does not pass. */
  lemma ErrorsInOrder(round: Rounding, input: CalculationInput)
    requires Calculated(round, input).Err?
    ensures var e := Calculated(round, input).error;
            if !Dates(input) then e == InvalidInput
            else if !UsableOpening(input.opening) then e == Invariant
            else if ContractRows(round, input).Err? then e == ContractRows(round, input).error
            else if !UsableEvidence(input.timeline) then e == HistoricalEvidence
            else EffectiveLedger(input) == Err(e)
  {
    ValidInAnyOrder(input.timeline);
  }
}
