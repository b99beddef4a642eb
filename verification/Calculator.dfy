/**
 The contractual calculator. `Calculated` says what a calculation means: the fold of a loan's dated events, each due
 installment before the payments of its day. `Calculate` is the cursor-driven loop of the source, proved against it.
 */
module Calculator {
  import opened Wrappers
  import opened Loan
  import opened Sorting
  import opened Balances
  import opened Schedule
  import opened Timeline
  import opened Ledger

  // ----- the events of a loan

  datatype Payment = Payment(date: Date, amount: Money, collectability: int)

  datatype Event = Due(row: ScheduleRow) | Pay(payment: Payment) {
    function When(): Date {
      if Due? then row.dueDate else payment.date
    }
  }

  /** Schedule rows that fall due in (cutoff, as-of]. */
  function DueRows(rows: seq<ScheduleRow>, cutoff: Date, asOf: Date): (r: seq<ScheduleRow>)
    ensures forall i :: 0 <= i < |r| ==> r[i] in rows && r[i].dueDate.After(cutoff) && !r[i].dueDate.After(asOf)
  {
    if rows == [] then []
    else
      (if rows[0].dueDate.After(cutoff) && !rows[0].dueDate.After(asOf) then [rows[0]] else []) +
      DueRows(rows[1..], cutoff, asOf)
  }

  /** Each effective repayment with the collectability that orders its allocation. */
  function Payments(rows: seq<Repayment>, opening: int, points: seq<CollectabilityPoint>): (r: seq<Payment>)
    ensures |r| == |rows|
    ensures forall i :: 0 <= i < |r| ==>
              r[i] == Payment(rows[i].date, rows[i].Amount(), ValueAt(opening, points, rows[i].date))
  {
    seq(|rows|, i requires 0 <= i < |rows| =>
      Payment(rows[i].date, rows[i].Amount(), ValueAt(opening, points, rows[i].date)))
  }

  /** Both streams as one list of dated events. */
  function Merge(dues: seq<ScheduleRow>, pays: seq<Payment>): seq<Event>
    decreases |dues| + |pays|
  {
    if dues != [] && (pays == [] || !dues[0].dueDate.After(pays[0].date)) then [Due(dues[0])] + Merge(dues[1..], pays)
    else if pays != [] then [Pay(pays[0])] + Merge(dues, pays[1..])
    else []
  }

  // ----- the fold

  /** Balances and trace counters part-way through a calculation. */
  datatype Progress = Progress(balance: Balance, periods: int, lastDue: Date, applied: int, lastPayment: Date)

  function Step(g: Progress, e: Event): Progress {
    match e
    case Due(row) =>
      g.(balance := Accrued(g.balance, row.principal, row.interest), periods := g.periods + 1, lastDue := row.dueDate)
    case Pay(p) =>
      if p.amount == 0.0 then g
      else
        g.(balance := Allocated(g.balance, p.amount, p.collectability),
           applied := g.applied + 1, lastPayment := p.date)
  }

  function Play(g: Progress, events: seq<Event>): Progress
    decreases |events|
  {
    if events == [] then g else Play(Step(g, events[0]), events[1..])
  }

  // ----- a whole calculation

  predicate ValidOpening(o: OpeningState) {
    0.0 <= o.principalDue <= o.principal && 0.0 <= o.interestDue && ValidCollectability(o.collectability)
  }

  function Start(o: OpeningState): Progress {
    Progress(Balance(o.principal, o.principalDue, o.interestDue, 0.0), 0, ZERO_DATE, 0, ZERO_DATE)
  }

  function Report(input: CalculationInput, collectability: int, g: Progress, rows: seq<ScheduleRow>)
      : CalculationResult
  {
    CalculationResult(
      input.asOf, g.balance.principal, g.balance.principalDue, g.balance.interestDue, collectability,
          g.balance.unapplied,
      CalculationTrace(input.opening, g.periods, g.applied, g.lastPayment, g.lastDue), rows)
  }

  predicate UsableDates(input: CalculationInput) {
    !input.asOf.IsZero() && !input.cutoff.IsZero() && !input.asOf.Before(input.cutoff)
  }

  ghost function ContractRows(round: Rounding, input: CalculationInput): Outcome<seq<ScheduleRow>, Error> {
    Built(round, input.contractualPrincipal, input.tenorMonths, input.flatRatePercent, input.schedule)
  }

  function OrderedTimeline(input: CalculationInput): seq<CollectabilityPoint> {
    StableSort(input.timeline, PointKey)
  }

  function EffectiveLedger(input: CalculationInput): Outcome<seq<Repayment>, Error> {
    Effective(Ordered(input.repayments, input.cutoff, input.asOf))
  }

  /** The dated events between cutoff and as-of. */
  function History(input: CalculationInput, rows: seq<ScheduleRow>, effective: seq<Repayment>): seq<Event> {
    Merge(DueRows(rows, input.cutoff, input.asOf),
          Payments(effective, input.opening.collectability, OrderedTimeline(input)))
  }

  /** The result once the contract rows and the effective ledger are known. */
  ghost function Concluded(input: CalculationInput, contract: Outcome<seq<ScheduleRow>, Error>,
                           effective: Outcome<seq<Repayment>, Error>): Outcome<CalculationResult, Error>
  {
    if !UsableDates(input) then Err(InvalidInput)
    else if !ValidOpening(input.opening) then Err(Invariant)
    else if input.asOf.Equal(input.cutoff) then
        Ok(Report(input, input.opening.collectability, Start(input.opening), []))
    else if contract.Err? then Err(contract.error)
    else if !ValidTimeline(OrderedTimeline(input)) then Err(HistoricalEvidence)
    else if effective.Err? then Err(effective.error)
    else
      var collectability := ValueAt(input.opening.collectability, OrderedTimeline(input), input.asOf);
      var end := Play(Start(input.opening), History(input, contract.value, effective.value));
      Ok(Report(input, collectability, end, contract.value))
  }

  /** What a calculation means. */
  ghost function Calculated(round: Rounding, input: CalculationInput): Outcome<CalculationResult, Error> {
    Concluded(input, ContractRows(round, input), EffectiveLedger(input))
  }

  // ----- facts about events and the fold

  ghost predicate Rising(rows: seq<ScheduleRow>) {
    forall i, j :: 0 <= i < j < |rows| ==> rows[i].dueDate.Before(rows[j].dueDate)
  }

  ghost predicate InDateOrder(pays: seq<Payment>) {
    forall i, j :: 0 <= i < j < |pays| ==> !pays[i].date.After(pays[j].date)
  }

  ghost predicate SoundRows(rows: seq<ScheduleRow>) {
    forall i :: 0 <= i < |rows| ==> rows[i].principal >= 0.0 && rows[i].interest >= 0.0
  }

  ghost predicate SoundPays(pays: seq<Payment>) {
    forall i :: 0 <= i < |pays| ==> pays[i].amount >= 0.0
  }

  ghost predicate SoundEvent(e: Event) {
    match e
    case Due(row) => row.principal >= 0.0 && row.interest >= 0.0
    case Pay(p) => p.amount >= 0.0
  }

  function DuesOf(events: seq<Event>): seq<ScheduleRow> {
    if events == [] then []
    else (if events[0].Due? then [events[0].row] else []) + DuesOf(events[1..])
  }

  function PaysOf(events: seq<Event>): seq<Payment> {
    if events == [] then []
    else (if events[0].Pay? then [events[0].payment] else []) + PaysOf(events[1..])
  }

  /** Earlier day first; on one day every due row precedes every payment. */
  ghost predicate InEventOrder(events: seq<Event>) {
    forall i, j :: 0 <= i < j < |events| ==> FirstOf(events[i], events[j])
  }

  lemma {:induction false} MergeMembers(dues: seq<ScheduleRow>, pays: seq<Payment>)
    ensures forall e :: e in Merge(dues, pays) ==> if e.Due? then e.row in dues else e.payment in pays
    decreases |dues| + |pays|
  {
    if dues != [] && (pays == [] || !dues[0].dueDate.After(pays[0].date)) {
      MergeMembers(dues[1..], pays);
    } else if pays != [] {
      MergeMembers(dues, pays[1..]);
    }
  }

  lemma {:induction false} MergeInOrder(dues: seq<ScheduleRow>, pays: seq<Payment>)
    requires Rising(dues) && InDateOrder(pays)
    ensures InEventOrder(Merge(dues, pays))
    decreases |dues| + |pays|
  {
    var dueFirst := dues != [] && (pays == [] || !dues[0].dueDate.After(pays[0].date));
    if dueFirst || pays != [] {
      var dues', pays' := if dueFirst then dues[1..] else dues, if dueFirst then pays else pays[1..];
      MergeInOrder(dues', pays');
      MergeMembers(dues', pays');
      var rest := Merge(dues', pays');
      forall k | 0 <= k < |rest| ensures FirstOf(Merge(dues, pays)[0], rest[k]) {
        assert rest[k] in rest;
      }
      assert Merge(dues, pays) == [Merge(dues, pays)[0]] + rest;
    }
  }

  ghost predicate FirstOf(a: Event, b: Event) {
    a.When().Before(b.When()) || (a.When().Equal(b.When()) && !(a.Pay? && b.Due?))
  }

  /** The merged list holds exactly both streams, in date order with dues before payments on a tie. */
  lemma {:induction false} MergeIsTheTimeline(dues: seq<ScheduleRow>, pays: seq<Payment>)
    requires Rising(dues) && InDateOrder(pays)
    ensures DuesOf(Merge(dues, pays)) == dues && PaysOf(Merge(dues, pays)) == pays
    ensures InEventOrder(Merge(dues, pays))
  {
    MergeInOrder(dues, pays);
    MergeHoldsBoth(dues, pays);
  }

  lemma {:induction false} MergeHoldsBoth(dues: seq<ScheduleRow>, pays: seq<Payment>)
    ensures DuesOf(Merge(dues, pays)) == dues && PaysOf(Merge(dues, pays)) == pays
    decreases |dues| + |pays|
  {
    var es := Merge(dues, pays);
    if dues != [] && (pays == [] || !dues[0].dueDate.After(pays[0].date)) {
      MergeHoldsBoth(dues[1..], pays);
      assert es[1..] == Merge(dues[1..], pays);
    } else if pays != [] {
      MergeHoldsBoth(dues, pays[1..]);
      assert es[1..] == Merge(dues, pays[1..]);
    }
  }

  lemma {:induction false} PlayMergeDue(g: Progress, dues: seq<ScheduleRow>, pays: seq<Payment>)
    requires dues != [] && (pays == [] || !dues[0].dueDate.After(pays[0].date))
    ensures Play(g, Merge(dues, pays)) == Play(Step(g, Due(dues[0])), Merge(dues[1..], pays))
  {
    assert Merge(dues, pays)[1..] == Merge(dues[1..], pays);
  }

  lemma {:induction false} PlayMergePay(g: Progress, dues: seq<ScheduleRow>, pays: seq<Payment>)
    requires pays != [] && (dues == [] || dues[0].dueDate.After(pays[0].date))
    ensures Play(g, Merge(dues, pays)) == Play(Step(g, Pay(pays[0])), Merge(dues, pays[1..]))
  {
    assert Merge(dues, pays)[1..] == Merge(dues, pays[1..]);
  }

  lemma StepKeepsWellFormed(g: Progress, e: Event)
    requires WellFormed(g.balance) && SoundEvent(e)
    ensures WellFormed(Step(g, e).balance)
  {
    match e
    case Due(row) => AccrueKeepsWellFormed(g.balance, row.principal, row.interest);
    case Pay(p) => AllocateKeepsWellFormed(g.balance, p.amount, p.collectability);
  }

  /** Every step keeps dues within outstanding and all balances non-negative, so `finish` never rejects. */
  lemma {:induction false} PlayKeepsWellFormed(g: Progress, events: seq<Event>)
    requires WellFormed(g.balance)
    requires forall i :: 0 <= i < |events| ==> SoundEvent(events[i])
    ensures WellFormed(Play(g, events).balance)
    decreases |events|
  {
    if events != [] {
      StepKeepsWellFormed(g, events[0]);
      PlayKeepsWellFormed(Step(g, events[0]), events[1..]);
    }
  }

  lemma {:induction false} MergeSound(dues: seq<ScheduleRow>, pays: seq<Payment>)
    requires SoundRows(dues) && SoundPays(pays)
    ensures forall i :: 0 <= i < |Merge(dues, pays)| ==> SoundEvent(Merge(dues, pays)[i])
    decreases |dues| + |pays|
  {
    if dues != [] && (pays == [] || !dues[0].dueDate.After(pays[0].date)) {
      MergeSound(dues[1..], pays);
    } else if pays != [] {
      MergeSound(dues, pays[1..]);
    }
  }

  lemma {:induction false} DueRowsSound(rows: seq<ScheduleRow>, cutoff: Date, asOf: Date)
    requires Rising(rows) && SoundRows(rows)
    ensures Rising(DueRows(rows, cutoff, asOf)) && SoundRows(DueRows(rows, cutoff, asOf))
  {
    if rows != [] {
      DueRowsSound(rows[1..], cutoff, asOf);
      var rest := DueRows(rows[1..], cutoff, asOf);
      forall i | 0 <= i < |rest| ensures rows[0].dueDate.Before(rest[i].dueDate) {
        var j :| 0 <= j < |rows[1..]| && rows[1..][j] == rest[i];
        assert rows[j + 1] == rest[i];
      }
    }
  }

  /** What a successful ledger, timeline and schedule hand to the fold. */
  lemma LedgerSound(input: CalculationInput)
    requires EffectiveLedger(input).Ok?
    ensures var pays := Payments(EffectiveLedger(input).value, input.opening.collectability, OrderedTimeline(input));
            InDateOrder(pays) && SoundPays(pays) &&
            forall i :: 0 <= i < |pays| ==> pays[i].date.After(input.cutoff) && !pays[i].date.After(input.asOf)
  {
    var ordered := Ordered(input.repayments, input.cutoff, input.asOf);
    var window := Window(input.repayments, input.cutoff, input.asOf);
    StableSortCorrect(window, RepaymentKey);
    EffectiveRows(ordered);
    var rows := EffectiveLedger(input).value;
    var pays := Payments(rows, input.opening.collectability, OrderedTimeline(input));
    forall i | 0 <= i < |pays| ensures pays[i].date.After(input.cutoff) && !pays[i].date.After(input.asOf) {
      assert rows[i] in multiset(ordered);
      assert rows[i] in window;
    }
    forall i, j | 0 <= i < j < |pays| ensures !pays[i].date.After(pays[j].date) {
      assert KeyLe(RepaymentKey(rows[i]), RepaymentKey(rows[j]));
    }
  }

  lemma ContractSound(round: Rounding, input: CalculationInput)
    requires ContractRows(round, input).Ok?
    ensures Rising(ContractRows(round, input).value) && SoundRows(ContractRows(round, input).value)
  {
    BuiltAmortises(round, input.contractualPrincipal, input.tenorMonths, input.flatRatePercent, input.schedule);
    var rows := ContractRows(round, input).value;
    forall i | 0 <= i < |rows| ensures rows[i].principal >= 0.0 && rows[i].interest >= 0.0 {
      assert SoundRow(rows[i], input.contractualPrincipal);
    }
  }

  // ----- the loop of the source

  method Finish(input: CalculationInput, collectability: int, g: Progress, rows: seq<ScheduleRow>)
      returns (r: Outcome<CalculationResult, Error>)
    ensures r == if WellFormed(g.balance) then Ok(Report(input, collectability, g, rows)) else Err(Invariant)
  {
    if !WellFormed(g.balance) {
      return Err(Invariant);
    }
    return Ok(Report(input, collectability, g, rows));
  }

  /** The events still ahead once the cursor stands at `cursor` and `pays` remain. */
  ghost function Ahead(schedule: seq<ScheduleRow>, cursor: nat, cutoff: Date, asOf: Date, pays: seq<Payment>)
      : seq<Event>
    requires cursor <= |schedule|
  {
    Merge(DueRows(schedule[cursor..], cutoff, asOf), pays)
  }

  lemma {:induction false} AheadDue(g: Progress, schedule: seq<ScheduleRow>, cursor: nat, cutoff: Date, asOf: Date,
                                    pays: seq<Payment>)
    requires cursor < |schedule|
    requires schedule[cursor].dueDate.After(cutoff) && !schedule[cursor].dueDate.After(asOf)
    requires pays != [] ==> !schedule[cursor].dueDate.After(pays[0].date)
    ensures Play(g, Ahead(schedule, cursor, cutoff, asOf, pays)) ==
            Play(Step(g, Due(schedule[cursor])), Ahead(schedule, cursor + 1, cutoff, asOf, pays))
  {
    var dues := DueRows(schedule[cursor..], cutoff, asOf);
    assert schedule[cursor..][1..] == schedule[cursor + 1..];
    assert dues[1..] == DueRows(schedule[cursor + 1..], cutoff, asOf);
    PlayMergeDue(g, dues, pays);
  }

  lemma {:induction false} NoDueBefore(schedule: seq<ScheduleRow>, cursor: nat, cutoff: Date, asOf: Date, date: Date)
    requires cursor <= |schedule| && Rising(schedule)
    requires cursor < |schedule| ==> schedule[cursor].dueDate.After(date)
    ensures var dues := DueRows(schedule[cursor..], cutoff, asOf);
            dues != [] ==> dues[0].dueDate.After(date) && !dues[0].dueDate.After(asOf)
  {
    var dues := DueRows(schedule[cursor..], cutoff, asOf);
    if dues != [] {
      var k :| 0 <= k < |schedule[cursor..]| && schedule[cursor..][k] == dues[0];
      assert schedule[cursor + k] == dues[0];
      assert k == 0 || schedule[cursor].dueDate.Before(schedule[cursor + k].dueDate);
    }
  }

  lemma {:induction false} AheadPay(g: Progress, schedule: seq<ScheduleRow>, cursor: nat, cutoff: Date, asOf: Date,
                                    pays: seq<Payment>)
    requires cursor <= |schedule| && Rising(schedule) && pays != []
    requires cursor < |schedule| ==> schedule[cursor].dueDate.After(pays[0].date)
    ensures Play(g, Ahead(schedule, cursor, cutoff, asOf, pays)) ==
            Play(Step(g, Pay(pays[0])), Ahead(schedule, cursor, cutoff, asOf, pays[1..]))
  {
    NoDueBefore(schedule, cursor, cutoff, asOf, pays[0].date);
    PlayMergePay(g, DueRows(schedule[cursor..], cutoff, asOf), pays);
  }

  /**
   `accrueThrough`: moves the due cursor past every row due on or before `date`. Seen from the event list it only
   consumes due events, so the outcome of the remaining list does not change.
   */
  method AccrueThrough(state: CalculationState, schedule: seq<ScheduleRow>, cursor: nat, date: Date, counts: Progress,
                       ghost cutoff: Date, ghost asOf: Date, ghost pays: seq<Payment>)
      returns (nextDue: nat, g: Progress)
    requires cursor <= |schedule| && SoundRows(schedule)
    requires forall i :: cursor <= i < |schedule| ==> schedule[i].dueDate.After(cutoff)
    requires !date.After(asOf) && (pays != [] ==> pays[0].date == date)
    requires counts.balance == state.Snapshot() && WellFormed(counts.balance)
    modifies state
    ensures cursor <= nextDue <= |schedule|
    ensures nextDue < |schedule| ==> schedule[nextDue].dueDate.After(date)
    ensures g.balance == state.Snapshot() && WellFormed(g.balance)
    ensures Play(g, Ahead(schedule, nextDue, cutoff, asOf, pays)) ==
            Play(counts, Ahead(schedule, cursor, cutoff, asOf, pays))
  {
    nextDue, g := cursor, counts;
    while nextDue < |schedule| && !schedule[nextDue].dueDate.After(date)
      invariant cursor <= nextDue <= |schedule|
      invariant g.balance == state.Snapshot() && WellFormed(g.balance)
      invariant Play(g, Ahead(schedule, nextDue, cutoff, asOf, pays)) ==
                Play(counts, Ahead(schedule, cursor, cutoff, asOf, pays))
    {
      AheadDue(g, schedule, nextDue, cutoff, asOf, pays);
      StepKeepsWellFormed(g, Due(schedule[nextDue]));
      state.Accrue(schedule[nextDue].principal, schedule[nextDue].interest);
      g := Progress(state.Snapshot(), g.periods + 1, schedule[nextDue].dueDate, g.applied, g.lastPayment);
      nextDue := nextDue + 1;
    }
  }

  method FirstDueAfter(schedule: seq<ScheduleRow>, cutoff: Date, ghost asOf: Date) returns (nextDue: nat)
    requires Rising(schedule)
    ensures nextDue <= |schedule|
    ensures forall i :: 0 <= i < |schedule| ==> (schedule[i].dueDate.After(cutoff) <==> nextDue <= i)
    ensures DueRows(schedule[nextDue..], cutoff, asOf) == DueRows(schedule, cutoff, asOf)
  {
    nextDue := 0;
    assert schedule[0..] == schedule;
    while nextDue < |schedule| && !schedule[nextDue].dueDate.After(cutoff)
      invariant nextDue <= |schedule|
      invariant forall i :: 0 <= i < nextDue ==> !schedule[i].dueDate.After(cutoff)
      invariant DueRows(schedule[nextDue..], cutoff, asOf) == DueRows(schedule, cutoff, asOf)
    {
      assert schedule[nextDue..][1..] == schedule[nextDue + 1..];
      nextDue := nextDue + 1;
    }
    assert nextDue < |schedule| ==> forall i :: nextDue < i < |schedule| ==>
           schedule[nextDue].dueDate.Before(schedule[i].dueDate);
  }

  /** A zero allocable amount is skipped: it neither changes a balance nor counts as applied. */
  method TakePayment(state: CalculationState, counts: Progress, p: Payment) returns (g: Progress)
    requires counts.balance == state.Snapshot() && WellFormed(counts.balance) && p.amount >= 0.0
    modifies state
    ensures g == Step(counts, Pay(p)) && g.balance == state.Snapshot() && WellFormed(g.balance)
  {
    StepKeepsWellFormed(counts, Pay(p));
    if p.amount == 0.0 {
      return counts;
    }
    state.Allocate(p.amount, p.collectability);
    g := Progress(state.Snapshot(), counts.periods, counts.lastDue, counts.applied + 1, p.date);
  }

  /** One turn of the payment loop: accrue up to the payment's day, then allocate it by that day's collectability. */
  method ApplyRepayment(state: CalculationState, schedule: seq<ScheduleRow>, cursor: nat, payment: Payment,
                        counts: Progress,
                        ghost cutoff: Date, ghost asOf: Date, ghost pays: seq<Payment>)
      returns (nextDue: nat, g: Progress)
    requires cursor <= |schedule| && Rising(schedule) && SoundRows(schedule)
    requires forall i :: cursor <= i < |schedule| ==> schedule[i].dueDate.After(cutoff)
    requires pays != [] && pays[0] == payment && payment.amount >= 0.0 && !payment.date.After(asOf)
    requires counts.balance == state.Snapshot() && WellFormed(counts.balance)
    modifies state
    ensures cursor <= nextDue <= |schedule|
    ensures g.balance == state.Snapshot() && WellFormed(g.balance)
    ensures Play(g, Ahead(schedule, nextDue, cutoff, asOf, pays[1..])) ==
            Play(counts, Ahead(schedule, cursor, cutoff, asOf, pays))
  {
    var accrued: Progress;
    nextDue, accrued := AccrueThrough(state, schedule, cursor, payment.date, counts, cutoff, asOf, pays);
    AheadPay(accrued, schedule, nextDue, cutoff, asOf, pays);
    g := TakePayment(state, accrued, payment);
  }

  method CollectabilityOn(opening: int, timeline: seq<CollectabilityPoint>, date: Date) returns (collectability: int)
    requires Sorted(timeline, PointKey) && ValidTimeline(timeline) && ValidCollectability(opening)
    ensures collectability == ValueAt(opening, timeline, date)
  {
    ValueAtValid(opening, timeline, date);
    var looked := CollectabilityAt(opening, timeline, date);
    return looked.value;
  }

  /** The payment loop followed by the last accrual plays the whole event list. */
  method ApplyRepayments(state: CalculationState, start: Progress, schedule: seq<ScheduleRow>,
                         repayments: seq<Repayment>,
                         opening: int, timeline: seq<CollectabilityPoint>, cutoff: Date, asOf: Date)
      returns (g: Progress)
    requires Rising(schedule) && SoundRows(schedule)
    requires Sorted(timeline, PointKey) && ValidTimeline(timeline) && ValidCollectability(opening)
    requires forall i :: 0 <= i < |repayments| ==> repayments[i].Amount() >= 0.0 && !repayments[i].date.After(asOf)
    requires start.balance == state.Snapshot() && WellFormed(start.balance)
    modifies state
    ensures g.balance == state.Snapshot() && WellFormed(g.balance)
    ensures g == Play(start, Merge(DueRows(schedule, cutoff, asOf), Payments(repayments, opening, timeline)))
  {
    ghost var pays := Payments(repayments, opening, timeline);
    var nextDue := FirstDueAfter(schedule, cutoff, asOf);
    g := start;
    assert pays[0..] == pays;
    for index := 0 to |repayments|
      invariant 0 <= nextDue <= |schedule|
      invariant forall i :: nextDue <= i < |schedule| ==> schedule[i].dueDate.After(cutoff)
      invariant g.balance == state.Snapshot() && WellFormed(g.balance)
      invariant Play(g, Ahead(schedule, nextDue, cutoff, asOf, pays[index..])) ==
                Play(start, Merge(DueRows(schedule, cutoff, asOf), pays))
    {
      ghost var left := pays[index..];
      assert left[0] == pays[index] && left[1..] == pays[index + 1..];
      var collectability := CollectabilityOn(opening, timeline, repayments[index].date);
      var payment := Payment(repayments[index].date, repayments[index].Amount(), collectability);
      nextDue, g := ApplyRepayment(state, schedule, nextDue, payment, g, cutoff, asOf, left);
    }
    assert pays[|repayments|..] == [];
    nextDue, g := AccrueThrough(state, schedule, nextDue, asOf, g, cutoff, asOf, []);
    NoDueBefore(schedule, nextDue, cutoff, asOf, asOf);
  }

  method ValidateOpening(o: OpeningState) returns (valid: bool)
    ensures valid <==> ValidOpening(o)
  {
    if o.principal < 0.0 || o.principalDue < 0.0 || o.interestDue < 0.0 || o.principalDue > o.principal {
      return false;
    }
    return 1 <= o.collectability <= 5;
  }

  method Calculate(round: Rounding, input: CalculationInput) returns (r: Outcome<CalculationResult, Error>)
    ensures r == Calculated(round, input)
  {
    if input.asOf.IsZero() || input.cutoff.IsZero() || input.asOf.Before(input.cutoff) {
      return Err(InvalidInput);
    }
    var valid := ValidateOpening(input.opening);
    if !valid {
      return Err(Invariant);
    }
    if input.asOf.Equal(input.cutoff) {
      r := Finish(input, input.opening.collectability, Start(input.opening), []);
      return;
    }
    if input.contractualPrincipal <= 0.0 || input.tenorMonths <= 0 || input.flatRatePercent < 0.0 {
      return Err(Invariant);
    }
    var schedule := BuildSchedule(round, input.contractualPrincipal, input.tenorMonths, input.flatRatePercent,
        input.schedule);
    if schedule.Err? {
      return Err(schedule.error);
    }
    var timeline := StableSort(input.timeline, PointKey);
    StableSortCorrect(input.timeline, PointKey);
    valid := ValidateTimeline(timeline);
    if !valid {
      return Err(HistoricalEvidence);
    }
    var repayments := EffectiveRepayments(input.repayments, input.cutoff, input.asOf);
    if repayments.Err? {
      return Err(repayments.error);
    }
    ContractSound(round, input);
    LedgerSound(input);
    var opening := input.opening.collectability;
    forall i | 0 <= i < |repayments.value|
      ensures repayments.value[i].Amount() >= 0.0 && !repayments.value[i].date.After(input.asOf)
    {
      var p := Payments(repayments.value, opening, timeline)[i];
      assert p.date == repayments.value[i].date && p.amount == repayments.value[i].Amount();
    }
    var state := new CalculationState(input.opening.principal, input.opening.principalDue, input.opening.interestDue);
    var played := ApplyRepayments(state, Start(input.opening), schedule.value, repayments.value, opening, timeline,
                                  input.cutoff, input.asOf);
    var collectability := CollectabilityOn(opening, timeline, input.asOf);
    r := Finish(input, collectability, played, schedule.value);
  }
}
