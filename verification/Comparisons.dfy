/**
 Comparing two calculations of one loan that differ only in their repayments: paying more never leaves more owed, only
 each day's total matters, reversals are invisible, and no money is lost between ledger and balances.
 */
module Comparisons {
  import opened Wrappers
  import opened Loan
  import opened Balances
  import opened Schedule
  import opened Timeline
  import opened Sorting
  import opened Ledger
  import opened Calculator
  import opened Restart

  // ----- the balance part of the fold

  function StepBalance(b: Balance, e: Event): Balance {
    match e
    case Due(row) => Accrued(b, row.principal, row.interest)
    case Pay(p) => if p.amount == 0.0 then b else Allocated(b, p.amount, p.collectability)
  }

  function Settle(b: Balance, events: seq<Event>): Balance
    decreases |events|
  {
    if events == [] then b else Settle(StepBalance(b, events[0]), events[1..])
  }

  lemma {:induction false} PlaySettles(g: Progress, events: seq<Event>)
    ensures Play(g, events).balance == Settle(g.balance, events)
    decreases |events|
  {
    if events != [] {
      PlaySettles(Step(g, events[0]), events[1..]);
    }
  }

  lemma StepBalanceKeeps(b: Balance, e: Event)
    requires WellFormed(b) && SoundEvent(e)
    ensures WellFormed(StepBalance(b, e))
    ensures e.Pay? ==> StepBalance(b, e) == Allocated(b, e.payment.amount, e.payment.collectability)
  {
    match e
    case Due(row) => AccrueKeepsWellFormed(b, row.principal, row.interest);
    case Pay(p) =>
      AllocateKeepsWellFormed(b, p.amount, p.collectability);
      AllocateNothing(b, p.collectability);
  }

  lemma {:induction false} SettleDue(b: Balance, dues: seq<ScheduleRow>, pays: seq<Payment>)
    requires dues != [] && (pays == [] || !dues[0].dueDate.After(pays[0].date))
    ensures Settle(b, Merge(dues, pays)) == Settle(StepBalance(b, Due(dues[0])), Merge(dues[1..], pays))
  {
    assert Merge(dues, pays)[1..] == Merge(dues[1..], pays);
  }

  lemma {:induction false} SettlePay(b: Balance, dues: seq<ScheduleRow>, pays: seq<Payment>)
    requires pays != [] && (dues == [] || dues[0].dueDate.After(pays[0].date))
    ensures Settle(b, Merge(dues, pays)) == Settle(StepBalance(b, Pay(pays[0])), Merge(dues, pays[1..]))
  {
    assert Merge(dues, pays)[1..] == Merge(dues, pays[1..]);
  }

  // ----- paying more

  /** Every payment of `small` has a same-day counterpart in `big` that is at least as large; `big` may hold more. */
  ghost predicate Covers(big: seq<Payment>, small: seq<Payment>) {
    if big == [] then small == []
    else
      || Covers(big[1..], small)
      || (small != [] && Raises(big[0], small[0]) && Covers(big[1..], small[1..]))
  }

  predicate Raises(more: Payment, less: Payment) {
    more.date.Equal(less.date) && more.collectability == less.collectability && more.amount >= less.amount
  }

  lemma {:induction false} CoveredNotEarlier(big: seq<Payment>, small: seq<Payment>)
    requires Covers(big, small) && InDateOrder(big) && small != []
    ensures big != [] && !small[0].date.Before(big[0].date)
  {
    if Covers(big[1..], small) {
      CoveredNotEarlier(big[1..], small);
      assert !big[0].date.After(big[1].date);
    }
  }

  lemma StepMonotone(t: Balance, s: Balance, more: Payment, less: Payment)
    requires WellFormed(t) && WellFormed(s) && NoWorse(t, s) && Raises(more, less) && less.amount >= 0.0
    ensures NoWorse(StepBalance(t, Pay(more)), StepBalance(s, Pay(less)))
  {
    StepBalanceKeeps(t, Pay(more));
    StepBalanceKeeps(s, Pay(less));
    AllocateMonotone(t, s, more.amount, less.amount, more.collectability);
  }

  lemma ExtraMonotone(t: Balance, s: Balance, extra: Payment)
    requires WellFormed(t) && WellFormed(s) && NoWorse(t, s) && extra.amount >= 0.0
    ensures NoWorse(StepBalance(t, Pay(extra)), s)
  {
    StepBalanceKeeps(t, Pay(extra));
    AllocateNothing(s, extra.collectability);
    AllocateMonotone(t, s, extra.amount, 0.0, extra.collectability);
  }

  lemma {:induction false} SettleMonotone(t: Balance, s: Balance, dues: seq<ScheduleRow>, big: seq<Payment>,
                                          small: seq<Payment>)
    requires WellFormed(t) && WellFormed(s) && NoWorse(t, s)
    requires SoundRows(dues) && SoundPays(big) && SoundPays(small) && InDateOrder(big) && Covers(big, small)
    ensures NoWorse(Settle(t, Merge(dues, big)), Settle(s, Merge(dues, small)))
    decreases |dues| + |big| + |small|
  {
    if small != [] {
      CoveredNotEarlier(big, small);
    }
    if dues != [] && (big == [] || !dues[0].dueDate.After(big[0].date)) {
      SettleDue(t, dues, big);
      SettleDue(s, dues, small);
      StepBalanceKeeps(t, Due(dues[0]));
      StepBalanceKeeps(s, Due(dues[0]));
      AccrueMonotone(t, s, dues[0].principal, dues[0].interest);
      SettleMonotone(StepBalance(t, Due(dues[0])), StepBalance(s, Due(dues[0])), dues[1..], big, small);
    } else if big != [] {
      SettlePay(t, dues, big);
      StepBalanceKeeps(t, Pay(big[0]));
      var t' := StepBalance(t, Pay(big[0]));
      if Covers(big[1..], small) {
        ExtraMonotone(t, s, big[0]);
        SettleMonotone(t', s, dues, big[1..], small);
      } else {
        SettlePay(s, dues, small);
        StepBalanceKeeps(s, Pay(small[0]));
        StepMonotone(t, s, big[0], small[0]);
        SettleMonotone(t', StepBalance(s, Pay(small[0])), dues, big[1..], small[1..]);
      }
    }
  }

  ghost predicate CoversRows(big: seq<Repayment>, small: seq<Repayment>) {
    if big == [] then small == []
    else
      || CoversRows(big[1..], small)
      || (small != [] && big[0].date.Equal(small[0].date) && big[0].Amount() >= small[0].Amount() &&
         CoversRows(big[1..], small[1..]))
  }

  lemma {:induction false} CoversPayments(big: seq<Repayment>, small: seq<Repayment>, opening: int,
                                          points: seq<CollectabilityPoint>)
    requires CoversRows(big, small)
    ensures Covers(Payments(big, opening, points), Payments(small, opening, points))
  {
    if big != [] {
      assert Payments(big, opening, points)[1..] == Payments(big[1..], opening, points);
      if CoversRows(big[1..], small) {
        CoversPayments(big[1..], small, opening, points);
      } else {
        assert Payments(small, opening, points)[1..] == Payments(small[1..], opening, points);
        ValueAtCongruent(opening, points, big[0].date, small[0].date);
        CoversPayments(big[1..], small[1..], opening, points);
      }
    }
  }

  /** Ending balances of a successful calculation. */
  function Ending(r: CalculationResult): Balance {
    Balance(r.principal, r.principalDue, r.interestDue, r.unapplied)
  }

  /** The balances of a calculation are its opening settled through its dated events. */
  lemma CalculatedSettles(round: Rounding, input: CalculationInput)
    requires Calculated(round, input).Ok? && !input.asOf.Equal(input.cutoff)
    ensures ContractRows(round, input).Ok? && EffectiveLedger(input).Ok?
    ensures Ending(Calculated(round, input).value) ==
            Settle(Start(input.opening).balance,
                   History(input, ContractRows(round, input).value, EffectiveLedger(input).value))
  {
    PlaySettles(Start(input.opening), History(input, ContractRows(round, input).value, EffectiveLedger(input).value));
  }

  lemma DuesSound(round: Rounding, input: CalculationInput)
    requires ContractRows(round, input).Ok?
    ensures SoundRows(DueRows(ContractRows(round, input).value, input.cutoff, input.asOf))
    ensures Rising(DueRows(ContractRows(round, input).value, input.cutoff, input.asOf))
  {
    ContractSound(round, input);
    DueRowsSound(ContractRows(round, input).value, input.cutoff, input.asOf);
  }

  /**
   Paying more never hurts: when every effective repayment is at least as large on the same day, or further ones are
   added, principal, principal due and interest due end no larger and no less money stays unapplied.
   */
  lemma PayingMoreNeverHurts(round: Rounding, less: CalculationInput, more: CalculationInput)
    requires more == less.(repayments := more.repayments)
    requires Calculated(round, less).Ok? && Calculated(round, more).Ok?
    requires !less.asOf.Equal(less.cutoff) ==> CoversRows(EffectiveLedger(more).value, EffectiveLedger(less).value)
    ensures NoWorse(Ending(Calculated(round, more).value), Ending(Calculated(round, less).value))
  {
    if !less.asOf.Equal(less.cutoff) {
      CalculatedSettles(round, less);
      CalculatedSettles(round, more);
      var opening, points := less.opening.collectability, OrderedTimeline(less);
      var small, big := EffectiveLedger(less).value, EffectiveLedger(more).value;
      CoversPayments(big, small, opening, points);
      LedgerSound(less);
      LedgerSound(more);
      DuesSound(round, less);
      var b := Start(less.opening).balance;
      SettleMonotone(b, b, DueRows(ContractRows(round, less).value, less.cutoff, less.asOf),
                     Payments(big, opening, points), Payments(small, opening, points));
    }
  }

  // ----- only daily totals matter

  function DayTotal(pays: seq<Payment>, day: int): Money {
    if pays == [] then 0.0
    else (if pays[0].date.Packed() == day then pays[0].amount else 0.0) + DayTotal(pays[1..], day)
  }

  /** All payments of a day share that day's collectability. */
  ghost predicate ByDay(pays: seq<Payment>, order: int -> int) {
    forall i :: 0 <= i < |pays| ==> pays[i].collectability == order(pays[i].date.Packed())
  }

  lemma {:induction false} DayTotalSign(pays: seq<Payment>, day: int)
    requires SoundPays(pays)
    ensures DayTotal(pays, day) >= 0.0
    ensures DayTotal(pays, day) > 0.0 ==> exists i :: 0 <= i < |pays| && pays[i].date.Packed() == day
  {
    if pays != [] {
      DayTotalSign(pays[1..], day);
      if pays[0].date.Packed() != day && DayTotal(pays, day) > 0.0 {
        var i :| 0 <= i < |pays[1..]| && pays[1..][i].date.Packed() == day;
        assert pays[i + 1].date.Packed() == day;
      }
    }
  }

  /** A payment that allocates nothing can be dropped wherever it stands. */
  lemma {:induction false} SettleDropZero(b: Balance, dues: seq<ScheduleRow>, pays: seq<Payment>)
    requires pays != [] && pays[0].amount == 0.0 && InDateOrder(pays)
    ensures Settle(b, Merge(dues, pays)) == Settle(b, Merge(dues, pays[1..]))
    decreases |dues|
  {
    if dues != [] && !dues[0].dueDate.After(pays[0].date) {
      SettleDue(b, dues, pays);
      SettleDue(b, dues, pays[1..]);
      SettleDropZero(StepBalance(b, Due(dues[0])), dues[1..], pays);
    } else {
      SettlePay(b, dues, pays);
    }
  }

  /** Paying `x` now and the rest of the first payment afterwards is paying it at once. */
  lemma SettleTakePart(b: Balance, dues: seq<ScheduleRow>, pays: seq<Payment>, x: Money)
    requires WellFormed(b) && pays != [] && 0.0 <= x <= pays[0].amount
    requires dues == [] || dues[0].dueDate.After(pays[0].date)
    ensures var part := Payment(pays[0].date, x, pays[0].collectability);
            var rest := [pays[0].(amount := pays[0].amount - x)] + pays[1..];
            Settle(b, Merge(dues, pays)) == Settle(StepBalance(b, Pay(part)), Merge(dues, rest))
  {
    var part := Payment(pays[0].date, x, pays[0].collectability);
    var left := pays[0].(amount := pays[0].amount - x);
    var rest := [left] + pays[1..];
    StepBalanceKeeps(b, Pay(part));
    StepBalanceKeeps(b, Pay(pays[0]));
    StepBalanceKeeps(StepBalance(b, Pay(part)), Pay(left));
    AllocateTwice(b, x, pays[0].amount - x, pays[0].collectability);
    SettlePay(b, dues, pays);
    SettlePay(StepBalance(b, Pay(part)), dues, rest);
    assert rest[1..] == pays[1..];
  }

  lemma {:induction false} FirstDaysAgree(p: seq<Payment>, q: seq<Payment>)
    requires SoundPays(p) && SoundPays(q) && InDateOrder(p) && InDateOrder(q)
    requires forall day :: DayTotal(p, day) == DayTotal(q, day)
    requires p != [] && p[0].amount > 0.0
    ensures q != [] && !q[0].date.After(p[0].date)
  {
    var day := p[0].date.Packed();
    DayTotalSign(p[1..], day);
    DayTotalSign(q, day);
    assert DayTotal(q, day) > 0.0;
    var i :| 0 <= i < |q| && q[i].date.Packed() == day;
    assert i == 0 || !q[0].date.After(q[i].date);
  }

  lemma {:induction false} SettleByDay(b: Balance, dues: seq<ScheduleRow>, p: seq<Payment>, q: seq<Payment>,
                                       order: int -> int)
    requires WellFormed(b) && SoundRows(dues)
    requires SoundPays(p) && SoundPays(q) && InDateOrder(p) && InDateOrder(q) && ByDay(p, order) && ByDay(q, order)
    requires forall day :: DayTotal(p, day) == DayTotal(q, day)
    ensures Settle(b, Merge(dues, p)) == Settle(b, Merge(dues, q))
    decreases |dues| + |p| + |q|
  {
    if p != [] && p[0].amount == 0.0 {
      SettleDropZero(b, dues, p);
      SettleByDay(b, dues, p[1..], q, order);
    } else if q != [] && q[0].amount == 0.0 {
      SettleDropZero(b, dues, q);
      SettleByDay(b, dues, p, q[1..], order);
    } else {
      if p != [] { FirstDaysAgree(p, q); }
      if q != [] { FirstDaysAgree(q, p); }
      if dues != [] && (p == [] || !dues[0].dueDate.After(p[0].date)) {
        SettleDue(b, dues, p);
        SettleDue(b, dues, q);
        StepBalanceKeeps(b, Due(dues[0]));
        SettleByDay(StepBalance(b, Due(dues[0])), dues[1..], p, q, order);
      } else if p != [] {
        SettleCommonPart(b, dues, p, q, order);
      }
    }
  }

  /** Both lists start on the same day: take the smaller head off both. */
  lemma {:induction false} SettleCommonPart(b: Balance, dues: seq<ScheduleRow>, p: seq<Payment>, q: seq<Payment>,
                                            order: int -> int)
    requires WellFormed(b) && SoundRows(dues)
    requires SoundPays(p) && SoundPays(q) && InDateOrder(p) && InDateOrder(q) && ByDay(p, order) && ByDay(q, order)
    requires forall day :: DayTotal(p, day) == DayTotal(q, day)
    requires p != [] && q != [] && p[0].date.Equal(q[0].date) && (dues == [] || dues[0].dueDate.After(p[0].date))
    ensures Settle(b, Merge(dues, p)) == Settle(b, Merge(dues, q))
    decreases |dues| + |p| + |q|, 0
  {
    var x := if p[0].amount <= q[0].amount then p[0].amount else q[0].amount;
    var p', q' := LessHead(p, x), LessHead(q, x);
    SettleTakePart(b, dues, p, x);
    SettleTakePart(b, dues, q, x);
    var part := Payment(p[0].date, x, p[0].collectability);
    StepBalanceKeeps(b, Pay(part));
    var b' := StepBalance(b, Pay(part));
    LessHeadSound(p, x, order);
    LessHeadSound(q, x, order);
    LessHeadTotals(p, x);
    LessHeadTotals(q, x);
    forall day ensures DayTotal(p', day) == DayTotal(q', day) {
      assert DayTotal(p, day) == DayTotal(q, day);
    }
    if p[0].amount <= q[0].amount {
      SettleDropZero(b', dues, p');
      DropZeroTotals(p');
      SettleByDay(b', dues, p'[1..], q', order);
    } else {
      SettleDropZero(b', dues, q');
      DropZeroTotals(q');
      SettleByDay(b', dues, p', q'[1..], order);
    }
  }

  function LessHead(pays: seq<Payment>, x: Money): seq<Payment>
    requires pays != []
  {
    [pays[0].(amount := pays[0].amount - x)] + pays[1..]
  }

  lemma LessHeadSound(pays: seq<Payment>, x: Money, order: int -> int)
    requires pays != [] && x <= pays[0].amount
    requires SoundPays(pays) && InDateOrder(pays) && ByDay(pays, order)
    ensures SoundPays(LessHead(pays, x)) && InDateOrder(LessHead(pays, x)) && ByDay(LessHead(pays, x), order)
  {
    var less := LessHead(pays, x);
    forall i | 0 <= i < |less|
      ensures less[i].date == pays[i].date && less[i].collectability == pays[i].collectability && less[i].amount >= 0.0
    {
    }
  }

  lemma {:induction false} LessHeadTotals(pays: seq<Payment>, x: Money)
    requires pays != []
    ensures forall day :: DayTotal(LessHead(pays, x), day) ==
                          DayTotal(pays, day) - if day == pays[0].date.Packed() then x else 0.0
  {
    assert LessHead(pays, x)[1..] == pays[1..];
  }

  lemma {:induction false} DropZeroTotals(pays: seq<Payment>)
    requires pays != [] && pays[0].amount == 0.0
    ensures forall day :: DayTotal(pays[1..], day) == DayTotal(pays, day)
  {
  }

  /**
   Only each day's total of effective repayments matters: once reversals are filtered out, same-day rows can be merged,
   split or reordered without changing any balance.
   */
  lemma OnlyDailyTotalsMatter(round: Rounding, a: CalculationInput, b: CalculationInput)
    requires b == a.(repayments := b.repayments) && !a.asOf.Equal(a.cutoff)
    requires Calculated(round, a).Ok? && Calculated(round, b).Ok?
    requires var p := Payments(EffectiveLedger(a).value, a.opening.collectability, OrderedTimeline(a));
             var q := Payments(EffectiveLedger(b).value, b.opening.collectability, OrderedTimeline(b));
             forall day :: DayTotal(p, day) == DayTotal(q, day)
    ensures Ending(Calculated(round, a).value) == Ending(Calculated(round, b).value)
  {
    CalculatedSettles(round, a);
    CalculatedSettles(round, b);
    var opening, points := a.opening.collectability, OrderedTimeline(a);
    var order := (day: int) => ValueAt(opening, points, Date(0, 0, day));
    PaymentsByDay(EffectiveLedger(a).value, opening, points, order);
    PaymentsByDay(EffectiveLedger(b).value, opening, points, order);
    LedgerSound(a);
    LedgerSound(b);
    DuesSound(round, a);
    SettleByDay(Start(a.opening).balance, DueRows(ContractRows(round, a).value, a.cutoff, a.asOf),
                Payments(EffectiveLedger(a).value, opening, points),
                    Payments(EffectiveLedger(b).value, opening, points), order);
  }

  lemma {:induction false} PaymentsByDay(rows: seq<Repayment>, opening: int, points: seq<CollectabilityPoint>,
                                         order: int -> int)
    requires forall day :: order(day) == ValueAt(opening, points, Date(0, 0, day))
    ensures ByDay(Payments(rows, opening, points), order)
  {
    forall i | 0 <= i < |rows|
      ensures ValueAt(opening, points, rows[i].date) == order(rows[i].date.Packed())
    {
      ValueAtCongruent(opening, points, rows[i].date, Date(0, 0, rows[i].date.Packed()));
    }
  }

  // ----- reversals and conservation

  /**
   The rows that come next in the ordered window, once a reversal `n` has been inserted between the rows `x`, `y` and
   the rows `z` of the raw ledger.
   */
  function SortsAfter(x: seq<Repayment>, y: seq<Repayment>, z: seq<Repayment>, n: Repayment, cutoff: Date, asOf: Date)
      : seq<Repayment>
  {
    Ordered(Rear(x, y, z, RepaymentKey, RepaymentKey(n)), cutoff, asOf)
  }

  /**
   A payment and its exact same-day reversal change nothing in the whole result, wherever they are recorded in the raw
   ledger: outside the window always, inside it when no other row sorts between them and the row that follows them is
   not negative.
   */
  lemma {:induction false} ReversalIsInvisible(round: Rounding, without: CalculationInput, with: CalculationInput,
                                               x: seq<Repayment>, p: Repayment, y: seq<Repayment>, n: Repayment,
                                                   z: seq<Repayment>)
    requires without.repayments == x + y + z && with == without.(repayments := x + [p] + y + [n] + z)
    requires Cancels(p, n)
    requires InWindow(p, without.cutoff, without.asOf) ==>
               && NoneBetween(x, y, z, RepaymentKey, RepaymentKey(p), RepaymentKey(n))
               && var next := SortsAfter(x, y, z, n, without.cutoff, without.asOf); next != [] ==> next[0].total >= 0.0
    ensures Calculated(round, with) == Calculated(round, without)
  {
    var c, a := without.cutoff, without.asOf;
    WindowOfFive(x, p, y, n, z, c, a);
    if InWindow(p, c, a) {
      PairInWindow(x, p, y, n, z, c, a);
    }
    SameLedgerSameResult(round, without, with);
  }

  lemma {:induction false} WindowAppend(a: seq<Repayment>, b: seq<Repayment>, cutoff: Date, asOf: Date)
    ensures Window(a + b, cutoff, asOf) == Window(a, cutoff, asOf) + Window(b, cutoff, asOf)
  {
    if a == [] {
      assert a + b == b;
    } else {
      assert (a + b)[1..] == a[1..] + b;
      WindowAppend(a[1..], b, cutoff, asOf);
    }
  }

  lemma {:induction false} WindowOne(p: Repayment, cutoff: Date, asOf: Date)
    ensures Window([p], cutoff, asOf) == if InWindow(p, cutoff, asOf) then [p] else []
  {
    assert [p][1..] == [];
  }

  /** The pair enters the window together or not at all. */
  lemma {:induction false} WindowOfFive(x: seq<Repayment>, p: Repayment, y: seq<Repayment>, n: Repayment,
                                        z: seq<Repayment>, cutoff: Date, asOf: Date)
    requires p.date.Equal(n.date)
    ensures var wx, wy, wz := Window(x, cutoff, asOf), Window(y, cutoff, asOf), Window(z, cutoff, asOf);
      && Window(x + y + z, cutoff, asOf) == wx + wy + wz
      && Window(x + [p] + y + [n] + z, cutoff, asOf) ==
         if InWindow(p, cutoff, asOf) then wx + [p] + wy + [n] + wz else wx + wy + wz
  {
    WindowThree(x, y, z, cutoff, asOf);
    WindowThree(x + [p] + y, [n], z, cutoff, asOf);
    WindowThree(x, [p], y, cutoff, asOf);
    WindowOne(p, cutoff, asOf);
    WindowOne(n, cutoff, asOf);
    NothingBetween(Window(x, cutoff, asOf), Window(y, cutoff, asOf), Window(z, cutoff, asOf));
  }

  lemma {:induction false} WindowThree(a: seq<Repayment>, b: seq<Repayment>, c: seq<Repayment>, cutoff: Date,
                                       asOf: Date)
    ensures Window(a + b + c, cutoff, asOf) ==
            Window(a, cutoff, asOf) + Window(b, cutoff, asOf) + Window(c, cutoff, asOf)
  {
    WindowAppend(a + b, c, cutoff, asOf);
    WindowAppend(a, b, cutoff, asOf);
  }

  lemma NothingBetween(x: seq<Repayment>, y: seq<Repayment>, z: seq<Repayment>)
    ensures x + [] + y + [] + z == x + y + z
  {
  }

  lemma {:induction false} WindowKeep(s: seq<Repayment>, pass: Key -> bool, cutoff: Date, asOf: Date)
    ensures Window(Keep(s, RepaymentKey, pass), cutoff, asOf) == Keep(Window(s, cutoff, asOf), RepaymentKey, pass)
  {
    if s != [] {
      WindowKeep(s[1..], pass, cutoff, asOf);
      WindowHead(s[0], Keep(s[1..], RepaymentKey, pass), cutoff, asOf);
      KeepHead(s[0], Window(s[1..], cutoff, asOf), pass);
    }
  }

  lemma {:induction false} WindowHead(p: Repayment, rest: seq<Repayment>, cutoff: Date, asOf: Date)
    ensures Window([p] + rest, cutoff, asOf) ==
            (if InWindow(p, cutoff, asOf) then [p] else []) + Window(rest, cutoff, asOf)
    ensures [] + rest == rest
  {
    assert ([p] + rest)[1..] == rest;
  }

  lemma {:induction false} KeepHead(p: Repayment, rest: seq<Repayment>, pass: Key -> bool)
    ensures Keep([p] + rest, RepaymentKey, pass) ==
            (if pass(RepaymentKey(p)) then [p] else []) + Keep(rest, RepaymentKey, pass)
    ensures [] + rest == rest
  {
    assert ([p] + rest)[1..] == rest;
  }

  lemma {:induction false} WindowRear(x: seq<Repayment>, y: seq<Repayment>, z: seq<Repayment>, high: Key, cutoff: Date,
                                      asOf: Date)
    ensures Window(Rear(x, y, z, RepaymentKey, high), cutoff, asOf) ==
            Rear(Window(x, cutoff, asOf), Window(y, cutoff, asOf), Window(z, cutoff, asOf), RepaymentKey, high)
  {
    var above, from := (k: Key) => KeyLt(high, k), (k: Key) => KeyLe(high, k);
    var a, b, c := Keep(x, RepaymentKey, above), Keep(y, RepaymentKey, above), Keep(z, RepaymentKey, from);
    WindowThree(a, b, c, cutoff, asOf);
    WindowKeep(x, above, cutoff, asOf);
    WindowKeep(y, above, cutoff, asOf);
    WindowKeep(z, from, cutoff, asOf);
  }

  lemma {:induction false} PairInWindow(x: seq<Repayment>, p: Repayment, y: seq<Repayment>, n: Repayment,
                                        z: seq<Repayment>, cutoff: Date, asOf: Date)
    requires Cancels(p, n) && NoneBetween(x, y, z, RepaymentKey, RepaymentKey(p), RepaymentKey(n))
    requires var next := SortsAfter(x, y, z, n, cutoff, asOf); next != [] ==> next[0].total >= 0.0
    ensures var wx, wy, wz := Window(x, cutoff, asOf), Window(y, cutoff, asOf), Window(z, cutoff, asOf);
      Effective(StableSort(wx + [p] + wy + [n] + wz, RepaymentKey)) == Effective(StableSort(wx + wy + wz, RepaymentKey))
  {
    var wx, wy, wz := Window(x, cutoff, asOf), Window(y, cutoff, asOf), Window(z, cutoff, asOf);
    WindowsStayApart(x, y, z, RepaymentKey(p), RepaymentKey(n), cutoff, asOf);
    PairSortsTogether(wx, p, wy, n, wz, RepaymentKey);
    RestSortsAround(wx, p, wy, n, wz, RepaymentKey);
    WindowRear(x, y, z, RepaymentKey(n), cutoff, asOf);
    ReversalLeavesNoTrace(StableSort(Front(wx, wy, wz, RepaymentKey, RepaymentKey(p)), RepaymentKey), p, n,
                          StableSort(Rear(wx, wy, wz, RepaymentKey, RepaymentKey(n)), RepaymentKey));
  }

  lemma {:induction false} WindowsStayApart(x: seq<Repayment>, y: seq<Repayment>, z: seq<Repayment>, low: Key,
                                            high: Key, cutoff: Date, asOf: Date)
    requires NoneBetween(x, y, z, RepaymentKey, low, high)
    ensures NoneBetween(Window(x, cutoff, asOf), Window(y, cutoff, asOf), Window(z, cutoff, asOf), RepaymentKey, low,
            high)
  {
    WindowMembers(x, cutoff, asOf);
    WindowMembers(y, cutoff, asOf);
    WindowMembers(z, cutoff, asOf);
  }

  lemma {:induction false} WindowMembers(s: seq<Repayment>, cutoff: Date, asOf: Date)
    ensures forall i :: 0 <= i < |Window(s, cutoff, asOf)| ==>
              exists j :: 0 <= j < |s| && Window(s, cutoff, asOf)[i] == s[j]
  {
    var w := Window(s, cutoff, asOf);
    if s != [] {
      WindowMembers(s[1..], cutoff, asOf);
      var rest := Window(s[1..], cutoff, asOf);
      forall i | 0 <= i < |w| ensures exists j :: 0 <= j < |s| && w[i] == s[j] {
        if InWindow(s[0], cutoff, asOf) && i == 0 {
          assert w[i] == s[0];
        } else {
          var k := if InWindow(s[0], cutoff, asOf) then i - 1 else i;
          assert w[i] == rest[k];
          var j :| 0 <= j < |s[1..]| && rest[k] == s[1..][j];
          assert w[i] == s[j + 1];
        }
      }
    }
  }

  /** Repayments reach the result only through the effective ledger. */
  lemma SameLedgerSameResult(round: Rounding, a: CalculationInput, b: CalculationInput)
    requires b == a.(repayments := b.repayments) && EffectiveLedger(a) == EffectiveLedger(b)
    ensures Calculated(round, a) == Calculated(round, b)
  {
    assert ContractRows(round, a) == ContractRows(round, b);
    ConcludedIgnoresRawRows(a, b, ContractRows(round, a), EffectiveLedger(a));
  }

  lemma ConcludedIgnoresRawRows(a: CalculationInput, b: CalculationInput, contract: Outcome<seq<ScheduleRow>, Error>,
                                effective: Outcome<seq<Repayment>, Error>)
    requires b == a.(repayments := b.repayments)
    ensures Concluded(a, contract, effective) == Concluded(b, contract, effective)
  {
    assert OrderedTimeline(a) == OrderedTimeline(b);
    if contract.Ok? && effective.Ok? {
      assert History(a, contract.value, effective.value) == History(b, contract.value, effective.value);
    }
  }

  /** Interest that falls due while principal is outstanding; none accrues on a repaid loan. */
  function InterestAccrued(b: Balance, events: seq<Event>): Money
    decreases |events|
  {
    if events == [] then 0.0
    else (if events[0].Due? && b.principal > 0.0 then events[0].row.interest else 0.0) +
         InterestAccrued(StepBalance(b, events[0]), events[1..])
  }

  function PaidIn(pays: seq<Payment>): Money {
    if pays == [] then 0.0 else pays[0].amount + PaidIn(pays[1..])
  }

  lemma {:induction false} SettleConserves(b: Balance, events: seq<Event>)
    ensures var e := Settle(b, events);
            PaidIn(PaysOf(events)) ==
            (b.principal - e.principal) + (b.interestDue + InterestAccrued(b, events) - e.interestDue) +
                (e.unapplied - b.unapplied)
    decreases |events|
  {
    if events != [] {
      SettleConserves(StepBalance(b, events[0]), events[1..]);
      match events[0]
      case Due(row) =>
        assert PaysOf(events) == PaysOf(events[1..]);
      case Pay(p) =>
        AllocateConserves(b, p.amount, p.collectability);
        assert PaysOf(events)[1..] == PaysOf(events[1..]);
    }
  }

  lemma {:induction false} PaymentsAmount(rows: seq<Repayment>, opening: int, points: seq<CollectabilityPoint>)
    ensures PaidIn(Payments(rows, opening, points)) == AmountSum(rows)
  {
    if rows != [] {
      PaymentsAmount(rows[1..], opening, points);
      assert Payments(rows, opening, points)[1..] == Payments(rows[1..], opening, points);
    }
  }

  /** Principal and interest of the raw rows dated after cutoff and not after as-of. */
  function Received(rows: seq<Repayment>, cutoff: Date, asOf: Date): Money {
    if rows == [] then 0.0
    else
      (if cutoff.Packed() < rows[0].date.Packed() <= asOf.Packed() then rows[0].principal + rows[0].interest else 0.0) +
      Received(rows[1..], cutoff, asOf)
  }

  lemma {:induction false} WindowReceives(rows: seq<Repayment>, cutoff: Date, asOf: Date)
    ensures AmountSum(Window(rows, cutoff, asOf)) == Received(rows, cutoff, asOf)
  {
    if rows != [] {
      WindowReceives(rows[1..], cutoff, asOf);
      assert [] + Window(rows[1..], cutoff, asOf) == Window(rows[1..], cutoff, asOf);
      assert ([rows[0]] + Window(rows[1..], cutoff, asOf))[1..] == Window(rows[1..], cutoff, asOf);
    }
  }

  /**
   Conservation against the raw ledger: the net principal plus interest of every raw row in (cutoff, as-of], reversals
   and zero rows included, is principal reduction plus interest settled plus money left unapplied.
   */
  lemma RawLedgerIsConserved(round: Rounding, input: CalculationInput)
    requires Calculated(round, input).Ok? && !input.asOf.Equal(input.cutoff)
    ensures ContractRows(round, input).Ok? && EffectiveLedger(input).Ok?
    ensures var r := Calculated(round, input).value;
            var events := History(input, ContractRows(round, input).value, EffectiveLedger(input).value);
            Received(input.repayments, input.cutoff, input.asOf) ==
            (input.opening.principal - r.principal) +
            (input.opening.interestDue + InterestAccrued(Start(input.opening).balance, events) - r.interestDue) +
            r.unapplied
  {
    CalculatedSettles(round, input);
    var effective := EffectiveLedger(input).value;
    var pays := Payments(effective, input.opening.collectability, OrderedTimeline(input));
    var dues := DueRows(ContractRows(round, input).value, input.cutoff, input.asOf);
    SettleConserves(Start(input.opening).balance, Merge(dues, pays));
    LedgerSound(input);
    DuesSound(round, input);
    MergeIsTheTimeline(dues, pays);
    PaymentsAmount(effective, input.opening.collectability, OrderedTimeline(input));
    EffectiveKeepsMoney(Ordered(input.repayments, input.cutoff, input.asOf));
    SortKeepsMoney(Window(input.repayments, input.cutoff, input.asOf));
    WindowReceives(input.repayments, input.cutoff, input.asOf);
  }
}
