/**
 Restarting a calculation: stopping at an earlier day and continuing from the balances reached there is the same as
 calculating straight through. Sorting, the same-day reversal rule, the due cursor and the timeline lookup all split.
 */
module Restart {
  import Collections
  import opened Loan
  import opened Sorting
  import opened Balances
  import opened Schedule
  import opened Timeline
  import opened Ledger
  import opened Calculator

  // ----- splitting the ledger

  lemma {:induction false} SelectOutside(source: seq<Repayment>, cutoff: Date, asOf: Date, k: Key)
    requires k.0 <= cutoff.Packed() || k.0 > asOf.Packed()
    ensures Select(Window(source, cutoff, asOf), RepaymentKey, k) == []
  {
    if source != [] {
      SelectOutside(source[1..], cutoff, asOf, k);
      var rest := Window(source[1..], cutoff, asOf);
      assert ([source[0]] + rest)[1..] == rest && [] + rest == rest;
    }
  }

  lemma {:induction false} SelectInside(source: seq<Repayment>, cutoff: Date, asOf: Date, cutoff': Date, asOf': Date,
                                        k: Key)
    requires cutoff.Packed() < k.0 <= asOf.Packed() && cutoff'.Packed() < k.0 <= asOf'.Packed()
    ensures Select(Window(source, cutoff, asOf), RepaymentKey, k) ==
            Select(Window(source, cutoff', asOf'), RepaymentKey, k)
  {
    if source != [] {
      SelectInside(source[1..], cutoff, asOf, cutoff', asOf', k);
      var a, b := Window(source[1..], cutoff, asOf), Window(source[1..], cutoff', asOf');
      assert ([source[0]] + a)[1..] == a && [] + a == a;
      assert ([source[0]] + b)[1..] == b && [] + b == b;
    }
  }

  lemma OrderedInWindow(source: seq<Repayment>, cutoff: Date, asOf: Date)
    ensures Sorted(Ordered(source, cutoff, asOf), RepaymentKey)
    ensures forall i :: 0 <= i < |Ordered(source, cutoff, asOf)| ==>
            InWindow(Ordered(source, cutoff, asOf)[i], cutoff, asOf)
  {
    var window, ordered := Window(source, cutoff, asOf), Ordered(source, cutoff, asOf);
    StableSortCorrect(window, RepaymentKey);
    forall i | 0 <= i < |ordered| ensures InWindow(ordered[i], cutoff, asOf) {
      assert ordered[i] in multiset(ordered);
      assert ordered[i] in window;
    }
  }

  lemma LedgerSplit(source: seq<Repayment>, cutoff: Date, mid: Date, asOf: Date)
    requires !mid.Before(cutoff) && !mid.After(asOf)
    ensures Ordered(source, cutoff, asOf) == Ordered(source, cutoff, mid) + Ordered(source, mid, asOf)
  {
    var a, b, all := Ordered(source, cutoff, mid), Ordered(source, mid, asOf), Ordered(source, cutoff, asOf);
    OrderedInWindow(source, cutoff, mid);
    OrderedInWindow(source, mid, asOf);
    OrderedInWindow(source, cutoff, asOf);
    StableSortCorrect(Window(source, cutoff, mid), RepaymentKey);
    StableSortCorrect(Window(source, mid, asOf), RepaymentKey);
    StableSortCorrect(Window(source, cutoff, asOf), RepaymentKey);
    forall k ensures Select(all, RepaymentKey, k) == Select(a + b, RepaymentKey, k) {
      SelectAppend(a, b, RepaymentKey, k);
      if k.0 <= cutoff.Packed() || k.0 > asOf.Packed() {
        SelectOutside(source, cutoff, asOf, k);
        SelectOutside(source, cutoff, mid, k);
        SelectOutside(source, mid, asOf, k);
      } else if k.0 <= mid.Packed() {
        SelectInside(source, cutoff, asOf, cutoff, mid, k);
        SelectOutside(source, mid, asOf, k);
      } else {
        SelectInside(source, cutoff, asOf, mid, asOf, k);
        SelectOutside(source, cutoff, mid, k);
      }
    }
    StableOrderUnique(all, a + b, RepaymentKey);
  }

  lemma EffectiveLedgerSplit(source: seq<Repayment>, cutoff: Date, mid: Date, asOf: Date)
    requires !mid.Before(cutoff) && !mid.After(asOf)
    ensures var whole, first, second :=
            Effective(Ordered(source, cutoff, asOf)), Effective(Ordered(source, cutoff, mid)),
                                        Effective(Ordered(source, mid, asOf));
            && (whole.Ok? <==> first.Ok? && second.Ok?)
            && (whole.Ok? ==> whole.value == first.value + second.value)
  {
    LedgerSplit(source, cutoff, mid, asOf);
    OrderedInWindow(source, cutoff, mid);
    OrderedInWindow(source, mid, asOf);
    EffectiveSplit(Ordered(source, cutoff, mid), Ordered(source, mid, asOf));
  }

  // ----- splitting the schedule and the merged events

  lemma {:induction false} DueRowsSplit(rows: seq<ScheduleRow>, cutoff: Date, mid: Date, asOf: Date)
    requires Rising(rows) && !mid.Before(cutoff) && !mid.After(asOf)
    ensures DueRows(rows, cutoff, asOf) == DueRows(rows, cutoff, mid) + DueRows(rows, mid, asOf)
  {
    if rows != [] {
      DueRowsSplit(rows[1..], cutoff, mid, asOf);
      var x, early, late := rows[0], DueRows(rows[1..], cutoff, mid), DueRows(rows[1..], mid, asOf);
      if x.dueDate.After(mid) {
        forall j | 0 <= j < |rows[1..]| ensures rows[1..][j].dueDate.After(mid) {
          assert rows[0].dueDate.Before(rows[j + 1].dueDate);
        }
        NothingDue(rows[1..], cutoff, mid);
        assert [] + early + ([x] + late) == [x] + (early + late);
      } else {
        assert ([x] + early) + late == [x] + (early + late);
      }
    }
  }

  lemma {:induction false} NothingDue(rows: seq<ScheduleRow>, cutoff: Date, asOf: Date)
    requires forall i :: 0 <= i < |rows| ==> rows[i].dueDate.After(asOf)
    ensures DueRows(rows, cutoff, asOf) == []
  {
    if rows != [] {
      NothingDue(rows[1..], cutoff, asOf);
    }
  }

  ghost predicate Until(dues: seq<ScheduleRow>, pays: seq<Payment>, mid: Date) {
    (forall i :: 0 <= i < |dues| ==> !dues[i].dueDate.After(mid)) &&
        (forall i :: 0 <= i < |pays| ==> !pays[i].date.After(mid))
  }

  ghost predicate Beyond(dues: seq<ScheduleRow>, pays: seq<Payment>, mid: Date) {
    (forall i :: 0 <= i < |dues| ==> dues[i].dueDate.After(mid)) &&
        (forall i :: 0 <= i < |pays| ==> pays[i].date.After(mid))
  }

  lemma {:induction false} MergeSplit(d1: seq<ScheduleRow>, d2: seq<ScheduleRow>, p1: seq<Payment>, p2: seq<Payment>,
                                      mid: Date)
    requires Until(d1, p1, mid) && Beyond(d2, p2, mid)
    ensures Merge(d1 + d2, p1 + p2) == Merge(d1, p1) + Merge(d2, p2)
    decreases |d1| + |p1|
  {
    if d1 == [] && p1 == [] {
      assert d1 + d2 == d2 && p1 + p2 == p2;
    } else if d1 != [] && (p1 == [] || !d1[0].dueDate.After(p1[0].date)) {
      MergeSplit(d1[1..], d2, p1, p2, mid);
      DueFirst(d1, d2, p1, p2, mid);
      Collections.Assoc([Due(d1[0])], Merge(d1[1..], p1), Merge(d2, p2));
    } else {
      MergeSplit(d1, d2, p1[1..], p2, mid);
      PaymentFirst(d1, d2, p1, p2, mid);
      Collections.Assoc([Pay(p1[0])], Merge(d1, p1[1..]), Merge(d2, p2));
    }
  }

  lemma {:induction false} DueFirst(d1: seq<ScheduleRow>, d2: seq<ScheduleRow>, p1: seq<Payment>, p2: seq<Payment>,
                                    mid: Date)
    requires Until(d1, p1, mid) && Beyond(d2, p2, mid) && d1 != []
    requires p1 == [] || !d1[0].dueDate.After(p1[0].date)
    ensures Merge(d1 + d2, p1 + p2) == [Due(d1[0])] + Merge(d1[1..] + d2, p1 + p2)
    ensures Merge(d1, p1) == [Due(d1[0])] + Merge(d1[1..], p1)
  {
    assert (d1 + d2)[1..] == d1[1..] + d2 && (d1 + d2)[0] == d1[0];
    assert p1 == [] ==> p1 + p2 == p2;
  }

  /** The next event of the first half is a payment, so it is the next event of the whole. */
  lemma {:induction false} PaymentFirst(d1: seq<ScheduleRow>, d2: seq<ScheduleRow>, p1: seq<Payment>, p2: seq<Payment>,
                                        mid: Date)
    requires Until(d1, p1, mid) && Beyond(d2, p2, mid) && p1 != []
    requires d1 == [] || d1[0].dueDate.After(p1[0].date)
    ensures Merge(d1 + d2, p1 + p2) == [Pay(p1[0])] + Merge(d1 + d2, p1[1..] + p2)
    ensures Merge(d1, p1) == [Pay(p1[0])] + Merge(d1, p1[1..])
  {
    assert (p1 + p2)[1..] == p1[1..] + p2 && (p1 + p2)[0] == p1[0];
    assert d1 == [] ==> d1 + d2 == d2;
  }

  lemma {:induction false} PlayAppend(g: Progress, a: seq<Event>, b: seq<Event>)
    ensures Play(g, a + b) == Play(Play(g, a), b)
    decreases |a|
  {
    if a == [] {
      assert a + b == b;
    } else {
      assert (a + b)[1..] == a[1..] + b;
      PlayAppend(Step(g, a[0]), a[1..], b);
    }
  }

  // ----- continuing a run

  /** What `later`, started with empty counters, says about the run that began with `earlier`. */
  function Continued(earlier: Progress, later: Progress): Progress {
    Progress(
      later.balance.(unapplied := earlier.balance.unapplied + later.balance.unapplied),
      earlier.periods + later.periods,
      if later.periods == 0 then earlier.lastDue else later.lastDue,
      earlier.applied + later.applied,
      if later.applied == 0 then earlier.lastPayment else later.lastPayment)
  }

  lemma StepContinued(earlier: Progress, later: Progress, e: Event)
    requires later.periods >= 0 && later.applied >= 0
    ensures Step(Continued(earlier, later), e) == Continued(earlier, Step(later, e))
  {
  }

  lemma {:induction false} PlayContinued(earlier: Progress, later: Progress, events: seq<Event>)
    requires later.periods >= 0 && later.applied >= 0
    ensures Play(Continued(earlier, later), events) == Continued(earlier, Play(later, events))
    decreases |events|
  {
    if events != [] {
      StepContinued(earlier, later, events[0]);
      PlayContinued(earlier, Step(later, events[0]), events[1..]);
    }
  }

  /** The opening a caller builds from an earlier result. */
  function OpeningFrom(o: OpeningState, r: CalculationResult): OpeningState {
    o.(principal := r.principal, principalDue := r.principalDue, interestDue := r.interestDue,
       collectability := r.collectability)
  }

  function FirstLeg(whole: CalculationInput, mid: Date): CalculationInput {
    whole.(asOf := mid)
  }

  function SecondLeg(whole: CalculationInput, mid: Date, reached: CalculationResult): CalculationInput {
    whole.(cutoff := mid, opening := OpeningFrom(whole.opening, reached))
  }

  /** The straight-through result is the second leg's result with unapplied money and counters added up. */
  ghost predicate AddsUp(whole: CalculationResult, first: CalculationResult, second: CalculationResult) {
    && whole.asOf == second.asOf
    && whole.principal == second.principal
    && whole.principalDue == second.principalDue
    && whole.interestDue == second.interestDue
    && whole.collectability == second.collectability
    && whole.unapplied == first.unapplied + second.unapplied
    && whole.trace.periodsAccrued == first.trace.periodsAccrued + second.trace.periodsAccrued
    && whole.trace.repaymentsApplied == first.trace.repaymentsApplied + second.trace.repaymentsApplied
    && whole.trace.lastDueDateAccrued ==
       (if second.trace.periodsAccrued == 0 then first.trace.lastDueDateAccrued else second.trace.lastDueDateAccrued)
    && whole.trace.lastPaymentDate ==
       (if second.trace.repaymentsApplied == 0 then first.trace.lastPaymentDate else second.trace.lastPaymentDate)
  }

  lemma {:induction false} PaymentsSplit(a: seq<Repayment>, b: seq<Repayment>, opening: int,
                                         points: seq<CollectabilityPoint>, mid: Date)
    requires forall i :: 0 <= i < |b| ==> b[i].date.After(mid)
    ensures Payments(a + b, opening, points) ==
            Payments(a, opening, points) + Payments(b, ValueAt(opening, points, mid), points)
  {
    forall i | 0 <= i < |b|
      ensures ValueAt(ValueAt(opening, points, mid), points, b[i].date) == ValueAt(opening, points, b[i].date)
    {
      ValueAtRestart(opening, points, mid, b[i].date);
    }
    assert forall i :: |a| <= i < |a + b| ==> (a + b)[i] == b[i - |a|];
  }

  /** The events of the whole run are those of the first leg followed by those of the second. */
  lemma {:induction false} HistorySplit(whole: CalculationInput, mid: Date, rows: seq<ScheduleRow>,
                                        first: seq<Repayment>, second: seq<Repayment>,
                     reached: CalculationResult)
    requires Rising(rows) && !mid.Before(whole.cutoff) && !mid.After(whole.asOf)
    requires forall i :: 0 <= i < |first| ==> !first[i].date.After(mid)
    requires forall i :: 0 <= i < |second| ==> second[i].date.After(mid)
    requires reached.collectability == ValueAt(whole.opening.collectability, OrderedTimeline(whole), mid)
    ensures History(whole, rows, first + second) ==
            History(FirstLeg(whole, mid), rows, first) + History(SecondLeg(whole, mid, reached), rows, second)
  {
    var points, opening := OrderedTimeline(whole), whole.opening.collectability;
    PaymentsSplit(first, second, opening, points, mid);
    DueRowsSplit(rows, whole.cutoff, mid, whole.asOf);
    MergeSplit(DueRows(rows, whole.cutoff, mid), DueRows(rows, mid, whole.asOf),
               Payments(first, opening, points), Payments(second, reached.collectability, points), mid);
  }

  lemma EffectiveInWindow(source: seq<Repayment>, cutoff: Date, asOf: Date)
    requires Effective(Ordered(source, cutoff, asOf)).Ok?
    ensures var rows := Effective(Ordered(source, cutoff, asOf)).value;
            forall i :: 0 <= i < |rows| ==> rows[i].date.After(cutoff) && !rows[i].date.After(asOf)
  {
    OrderedInWindow(source, cutoff, asOf);
    EffectiveRows(Ordered(source, cutoff, asOf));
  }

  /** A calculation strictly after its cutoff that succeeds ends well formed. */
  lemma CalculatedPlay(round: Rounding, input: CalculationInput)
    requires Calculated(round, input).Ok? && !input.asOf.Equal(input.cutoff)
    ensures ContractRows(round, input).Ok? && EffectiveLedger(input).Ok?
    ensures WellFormed(Play(Start(input.opening),
                            History(input, ContractRows(round, input).value, EffectiveLedger(input).value)).balance)
  {
    ContractSound(round, input);
    LedgerSound(input);
    var rows := ContractRows(round, input).value;
    DueRowsSound(rows, input.cutoff, input.asOf);
    var pays := Payments(EffectiveLedger(input).value, input.opening.collectability, OrderedTimeline(input));
    MergeSound(DueRows(rows, input.cutoff, input.asOf), pays);
    PlayKeepsWellFormed(Start(input.opening), History(input, rows, EffectiveLedger(input).value));
  }

  /** The result of a successful first leg is a valid opening, with a collectability the timeline supports. */
  lemma ReachedIsValid(round: Rounding, input: CalculationInput)
    requires Calculated(round, input).Ok?
    ensures ValidOpening(OpeningFrom(input.opening, Calculated(round, input).value))
  {
    if !input.asOf.Equal(input.cutoff) {
      CalculatedPlay(round, input);
      ValueAtValid(input.opening.collectability, OrderedTimeline(input), input.asOf);
    }
  }

  /** What has to hold for a calculation to succeed. */
  ghost predicate Accepts(round: Rounding, input: CalculationInput) {
    && UsableDates(input)
    && ValidOpening(input.opening)
    && (input.asOf.Equal(input.cutoff) ||
        (ContractRows(round, input).Ok? && ValidTimeline(OrderedTimeline(input)) && EffectiveLedger(input).Ok?))
  }

  lemma AcceptsExactly(round: Rounding, input: CalculationInput)
    ensures Calculated(round, input).Ok? <==> Accepts(round, input)
  {
  }

  ghost predicate BothLegs(round: Rounding, whole: CalculationInput, mid: Date) {
    && Calculated(round, FirstLeg(whole, mid)).Ok?
    && Calculated(round, SecondLeg(whole, mid, Calculated(round, FirstLeg(whole, mid)).value)).Ok?
  }

  lemma RestartAccepts(round: Rounding, whole: CalculationInput, mid: Date)
    requires !mid.IsZero() && whole.cutoff.Before(mid) && mid.Before(whole.asOf)
    ensures Calculated(round, whole).Ok? <==> BothLegs(round, whole, mid)
  {
    EffectiveLedgerSplit(whole.repayments, whole.cutoff, mid, whole.asOf);
    AcceptsExactly(round, whole);
    AcceptsExactly(round, FirstLeg(whole, mid));
    if Calculated(round, FirstLeg(whole, mid)).Ok? {
      ReachedIsValid(round, FirstLeg(whole, mid));
      AcceptsExactly(round, SecondLeg(whole, mid, Calculated(round, FirstLeg(whole, mid)).value));
    }
  }

  lemma {:induction false} PlayCounts(g: Progress, events: seq<Event>)
    requires g.periods >= 0 && g.applied >= 0
    ensures Play(g, events).periods >= g.periods && Play(g, events).applied >= g.applied
    ensures Play(g, events).periods == g.periods ==> Play(g, events).lastDue == g.lastDue
    ensures Play(g, events).applied == g.applied ==> Play(g, events).lastPayment == g.lastPayment
    decreases |events|
  {
    if events != [] {
      PlayCounts(Step(g, events[0]), events[1..]);
    }
  }

  lemma RestartBalances(round: Rounding, whole: CalculationInput, mid: Date)
    requires !mid.IsZero() && whole.cutoff.Before(mid) && mid.Before(whole.asOf)
    requires Calculated(round, whole).Ok? && BothLegs(round, whole, mid)
    ensures var first := Calculated(round, FirstLeg(whole, mid)).value;
            AddsUp(Calculated(round, whole).value, first, Calculated(round, SecondLeg(whole, mid, first)).value)
  {
    var first := Calculated(round, FirstLeg(whole, mid)).value;
    var leg1, leg2 := FirstLeg(whole, mid), SecondLeg(whole, mid, first);
    var rows := ContractRows(round, whole).value;
    var e1, e2 := EffectiveLedger(leg1).value, EffectiveLedger(leg2).value;
    EffectiveLedgerSplit(whole.repayments, whole.cutoff, mid, whole.asOf);
    EffectiveInWindow(whole.repayments, whole.cutoff, mid);
    EffectiveInWindow(whole.repayments, mid, whole.asOf);
    ContractSound(round, whole);
    HistorySplit(whole, mid, rows, e1, e2, first);
    ValueAtRestart(whole.opening.collectability, OrderedTimeline(whole), mid, whole.asOf);
    var h1, h2 := History(leg1, rows, e1), History(leg2, rows, e2);
    var g1 := Play(Start(whole.opening), h1);
    PlayAppend(Start(whole.opening), h1, h2);
    PlayContinued(g1, Start(leg2.opening), h2);
    PlayCounts(Start(leg2.opening), h2);
    assert Continued(g1, Start(leg2.opening)) == g1;
  }

  // ----- restarting at an end of the window

  lemma {:induction false} WindowCongruent(source: seq<Repayment>, c: Date, a: Date, c': Date, a': Date)
    requires c.Equal(c') && a.Equal(a')
    ensures Window(source, c, a) == Window(source, c', a')
  {
    if source != [] {
      WindowCongruent(source[1..], c, a, c', a');
    }
  }

  lemma {:induction false} DueRowsCongruent(rows: seq<ScheduleRow>, c: Date, a: Date, c': Date, a': Date)
    requires c.Equal(c') && a.Equal(a')
    ensures DueRows(rows, c, a) == DueRows(rows, c', a')
  {
    if rows != [] {
      DueRowsCongruent(rows[1..], c, a, c', a');
    }
  }

  lemma {:induction false} ValueAtCongruent(opening: int, points: seq<CollectabilityPoint>, a: Date, b: Date)
    requires a.Equal(b)
    ensures ValueAt(opening, points, a) == ValueAt(opening, points, b)
  {
    if points != [] {
      ValueAtCongruent(opening, points[..|points| - 1], a, b);
    }
  }

  ghost predicate SameDays(a: CalculationInput, b: CalculationInput) {
    && b == a.(asOf := b.asOf, cutoff := b.cutoff)
    && a.asOf.Equal(b.asOf) && a.cutoff.Equal(b.cutoff)
    && !a.asOf.IsZero() && !b.asOf.IsZero() && !a.cutoff.IsZero() && !b.cutoff.IsZero()
  }

  lemma HistoryCongruent(a: CalculationInput, b: CalculationInput, rows: seq<ScheduleRow>, effective: seq<Repayment>)
    requires SameDays(a, b)
    ensures History(a, rows, effective) == History(b, rows, effective)
  {
    DueRowsCongruent(rows, a.cutoff, a.asOf, b.cutoff, b.asOf);
  }

  /** Only the day a date packs to matters. */
  lemma CalculatedCongruent(round: Rounding, a: CalculationInput, b: CalculationInput)
    requires SameDays(a, b)
    ensures Calculated(round, a).Ok? == Calculated(round, b).Ok?
    ensures Calculated(round, a).Ok? ==> Calculated(round, b).value == Calculated(round, a).value.(asOf := b.asOf)
  {
    WindowCongruent(a.repayments, a.cutoff, a.asOf, b.cutoff, b.asOf);
    assert EffectiveLedger(a) == EffectiveLedger(b);
    AcceptsExactly(round, a);
    AcceptsExactly(round, b);
    if Calculated(round, a).Ok? && !a.asOf.Equal(a.cutoff) {
      HistoryCongruent(a, b, ContractRows(round, a).value, EffectiveLedger(a).value);
      ValueAtCongruent(a.opening.collectability, OrderedTimeline(a), a.asOf, b.asOf);
    }
  }

  /** A calculation that accrued or applied nothing reports no date for it. */
  lemma NoCountNoDate(round: Rounding, input: CalculationInput)
    requires Calculated(round, input).Ok?
    ensures var trace := Calculated(round, input).value.trace;
            && (trace.periodsAccrued == 0 ==> trace.lastDueDateAccrued == ZERO_DATE)
            && (trace.repaymentsApplied == 0 ==> trace.lastPaymentDate == ZERO_DATE)
  {
    if !input.asOf.Equal(input.cutoff) {
      PlayCounts(Start(input.opening), History(input, ContractRows(round, input).value, EffectiveLedger(input).value));
    }
  }

  lemma RestartAtCutoff(round: Rounding, whole: CalculationInput, mid: Date)
    requires !mid.IsZero() && !whole.asOf.IsZero() && whole.cutoff.Equal(mid) && !mid.After(whole.asOf)
    ensures Calculated(round, whole).Ok? <==> BothLegs(round, whole, mid)
    ensures Calculated(round, whole).Ok? ==>
              var first := Calculated(round, FirstLeg(whole, mid)).value;
              AddsUp(Calculated(round, whole).value, first, Calculated(round, SecondLeg(whole, mid, first)).value)
  {
    AcceptsExactly(round, whole);
    AcceptsExactly(round, FirstLeg(whole, mid));
    if Calculated(round, FirstLeg(whole, mid)).Ok? {
      var first := Calculated(round, FirstLeg(whole, mid)).value;
      assert SecondLeg(whole, mid, first) == whole.(cutoff := mid);
      CalculatedCongruent(round, whole, whole.(cutoff := mid));
      if Calculated(round, whole).Ok? {
        NoCountNoDate(round, whole);
      }
    }
  }

  lemma RestartAtEnd(round: Rounding, whole: CalculationInput, mid: Date)
    requires !mid.IsZero() && whole.cutoff.Before(mid) && mid.Equal(whole.asOf) && !whole.asOf.IsZero()
    ensures Calculated(round, whole).Ok? <==> BothLegs(round, whole, mid)
    ensures Calculated(round, whole).Ok? ==>
              var first := Calculated(round, FirstLeg(whole, mid)).value;
              AddsUp(Calculated(round, whole).value, first, Calculated(round, SecondLeg(whole, mid, first)).value)
  {
    FirstLegIsAll(round, whole, mid);
    if Calculated(round, FirstLeg(whole, mid)).Ok? {
      NothingLeft(round, whole, mid);
    }
  }

  /** Stopping on the as-of day itself is the whole calculation. */
  lemma FirstLegIsAll(round: Rounding, whole: CalculationInput, mid: Date)
    requires !mid.IsZero() && whole.cutoff.Before(mid) && mid.Equal(whole.asOf) && !whole.asOf.IsZero()
    ensures var leg := Calculated(round, FirstLeg(whole, mid));
      && Calculated(round, whole).Ok? == leg.Ok?
      && (leg.Ok? ==> Calculated(round, whole).value == leg.value.(asOf := whole.asOf))
  {
    if !whole.cutoff.IsZero() {
      CalculatedCongruent(round, FirstLeg(whole, mid), whole);
    }
  }

  /** Restarting on the as-of day itself does nothing. */
  lemma NothingLeft(round: Rounding, whole: CalculationInput, mid: Date)
    requires !mid.IsZero() && whole.cutoff.Before(mid) && mid.Equal(whole.asOf) && !whole.asOf.IsZero()
    requires Calculated(round, FirstLeg(whole, mid)).Ok?
    ensures var first := Calculated(round, FirstLeg(whole, mid)).value;
      && Calculated(round, SecondLeg(whole, mid, first)).Ok?
      && AddsUp(first.(asOf := whole.asOf), first, Calculated(round, SecondLeg(whole, mid, first)).value)
  {
    ReachedIsValid(round, FirstLeg(whole, mid));
  }

  /**
   Restart is exact: for any day between cutoff and as-of, calculating straight through succeeds exactly when stopping
   there and continuing from the balances, dues and collectability reached both succeed, and the results add up.
   */
  lemma RestartIsExact(round: Rounding, whole: CalculationInput, mid: Date)
    requires !mid.IsZero() && !whole.asOf.IsZero() && !mid.Before(whole.cutoff) && !mid.After(whole.asOf)
    ensures Calculated(round, whole).Ok? <==> BothLegs(round, whole, mid)
    ensures Calculated(round, whole).Ok? ==>
              var first := Calculated(round, FirstLeg(whole, mid)).value;
              AddsUp(Calculated(round, whole).value, first, Calculated(round, SecondLeg(whole, mid, first)).value)
  {
    if whole.cutoff.Equal(mid) {
      RestartAtCutoff(round, whole, mid);
    } else if mid.Equal(whole.asOf) {
      RestartAtEnd(round, whole, mid);
    } else {
      RestartAccepts(round, whole, mid);
      if Calculated(round, whole).Ok? {
        RestartBalances(round, whole, mid);
      }
    }
  }
}
