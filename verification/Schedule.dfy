/** The flat amortisation schedule: numbering and date checks, equal principal, remainder in the last row. */
module Schedule {
  import opened Wrappers
  import opened Loan
  import opened Sorting

  /** `Calculator.Round`: nil keeps exact values, otherwise any hook. */
  type Rounding = Option<Money -> Money>

  function Rounded(round: Rounding, value: Money): Money {
    match round
    case None => value
    case Some(hook) => hook(value)
  }

  function NumberKey(i: Installment): Key {
    (i.number, 0)
  }

  ghost predicate Numbered(rows: seq<Installment>) {
    forall i :: 0 <= i < |rows| ==> rows[i].number == i + 1
  }

  ghost predicate Dated(rows: seq<Installment>) {
    forall i :: 0 <= i < |rows| ==> !rows[i].dueDate.IsZero()
  }

  ghost predicate Chronological(rows: seq<Installment>) {
    forall i, j :: 0 <= i < j < |rows| ==> rows[i].dueDate.Before(rows[j].dueDate)
  }

  /** Numbered 1..n in order on non-zero, strictly rising dates. */
  ghost predicate WellNumbered(rows: seq<Installment>) {
    Numbered(rows) && Dated(rows) && Chronological(rows)
  }

  predicate ValidContract(principal: Money, tenor: int, flatRate: Money) {
    principal > 0.0 && tenor > 0 && flatRate >= 0.0
  }

  function PrincipalPerPeriod(round: Rounding, principal: Money, tenor: int): Money
    requires tenor > 0
  {
    Rounded(round, principal / tenor as real)
  }

  function MonthlyInterest(principal: Money, flatRate: Money): Money {
    principal * flatRate / 1200.0
  }

  function InterestPerPeriod(round: Rounding, principal: Money, flatRate: Money): Money {
    Rounded(round, MonthlyInterest(principal, flatRate))
  }

  /** `n` equal amounts, added up. */
  function Times(n: nat, x: Money): Money {
    if n == 0 then 0.0 else Times(n - 1, x) + x
  }

  /** Row `i` of `n` in closed form. */
  function RowAt(inst: Installment, principal: Money, perPeriod: Money, interest: Money, i: nat, n: nat): ScheduleRow {
    var before := principal - Times(i, perPeriod);
    var paid := if i == n - 1 then before else perPeriod;
    ScheduleRow(inst.number, inst.dueDate, paid, interest, paid + interest, before - paid)
  }

  function Rows(ordered: seq<Installment>, principal: Money, perPeriod: Money, interest: Money): seq<ScheduleRow> {
    seq(|ordered|, i requires 0 <= i < |ordered| => RowAt(ordered[i], principal, perPeriod, interest, i, |ordered|))
  }

  /** Rounding must leave the last row a non-negative amount. */
  function Amortised(ordered: seq<Installment>, principal: Money, perPeriod: Money, interest: Money)
      : Outcome<seq<ScheduleRow>, Error>
    requires ordered != []
  {
    if perPeriod < 0.0 || interest < 0.0 || Times(|ordered| - 1, perPeriod) > principal then Err(Invariant)
    else Ok(Rows(ordered, principal, perPeriod, interest))
  }

  /** When and what `BuildSchedule` returns. */
  ghost function Built(round: Rounding, principal: Money, tenor: int, flatRate: Money, source: seq<Installment>)
      : Outcome<seq<ScheduleRow>, Error>
  {
    if !ValidContract(principal, tenor, flatRate) then Err(Invariant)
    else
      var ordered := StableSort(source, NumberKey);
      if |ordered| != tenor || !WellNumbered(ordered) then Err(UnsupportedCalculation)
      else
        Amortised(ordered, principal, PrincipalPerPeriod(round, principal, tenor),
            InterestPerPeriod(round, principal, flatRate))
  }

  method CheckNumbering(rows: seq<Installment>) returns (valid: bool)
    ensures valid <==> WellNumbered(rows)
  {
    for index := 0 to |rows|
      invariant WellNumbered(rows[..index])
    {
      if rows[index].number != index + 1 || rows[index].dueDate.IsZero() {
        return false;
      }
      if index > 0 && !rows[index].dueDate.After(rows[index - 1].dueDate) {
        return false;
      }
      forall i | 0 <= i < index ensures rows[i].dueDate.Before(rows[index].dueDate) {
        assert rows[..index][i] == rows[i] && rows[..index][index - 1] == rows[index - 1];
      }
    }
    assert rows[..|rows|] == rows;
    return true;
  }

  method FillRows(ordered: seq<Installment>, principal: Money, perPeriod: Money, interest: Money)
      returns (r: Outcome<seq<ScheduleRow>, Error>)
    requires ordered != [] && principal > 0.0
    ensures r == Amortised(ordered, principal, perPeriod, interest)
  {
    if perPeriod < 0.0 || interest < 0.0 {
      return Err(Invariant);
    }
    var tenor := |ordered|;
    var rows: seq<ScheduleRow> := [];
    var balance := principal;
    for index := 0 to tenor
      invariant |rows| == index
      invariant forall i :: 0 <= i < index ==> rows[i] == RowAt(ordered[i], principal, perPeriod, interest, i, tenor)
      invariant index < tenor ==> balance == principal - Times(index, perPeriod) && balance >= 0.0
      invariant index == tenor ==> Times(tenor - 1, perPeriod) <= principal
    {
      var periodPrincipal := perPeriod;
      if index == tenor - 1 {
        periodPrincipal := balance;
      } else if periodPrincipal > balance {
        MoreIsMore(index + 1, tenor - 1, perPeriod);
        return Err(Invariant);
      }
      balance := balance - periodPrincipal;
      rows := rows + [ScheduleRow(ordered[index].number, ordered[index].dueDate, periodPrincipal,
                                  interest, periodPrincipal + interest, balance)];
    }
    assert rows == Rows(ordered, principal, perPeriod, interest);
    return Ok(rows);
  }

  method BuildSchedule(round: Rounding, principal: Money, tenor: int, flatRate: Money, source: seq<Installment>)
      returns (r: Outcome<seq<ScheduleRow>, Error>)
    ensures r == Built(round, principal, tenor, flatRate, source)
    ensures round.None? && r.Ok? ==> ExactRows(r.value, principal, tenor, flatRate)
  {
    if principal <= 0.0 || tenor <= 0 || flatRate < 0.0 {
      return Err(Invariant);
    }
    var installments := StableSort(source, NumberKey);
    if |installments| != tenor {
      return Err(UnsupportedCalculation);
    }
    var numbered := CheckNumbering(installments);
    if !numbered {
      return Err(UnsupportedCalculation);
    }
    r := FillRows(installments, principal, PrincipalPerPeriod(round, principal, tenor),
                  InterestPerPeriod(round, principal, flatRate));
    if round.None? && r.Ok? {
      BuiltExactly(principal, tenor, flatRate, source);
    }
  }

  // ----- sums of equal amounts

  lemma {:induction false} MoreIsMore(a: nat, b: nat, x: Money)
    requires a <= b && x >= 0.0
    ensures 0.0 <= Times(a, x) <= Times(b, x)
    decreases b
  {
    if a < b {
      MoreIsMore(a, b - 1, x);
    } else if b > 0 {
      MoreIsMore(b - 1, b - 1, x);
    }
  }

  lemma {:induction false} TimesIsProduct(n: nat, x: Money)
    ensures Times(n, x) == n as real * x
  {
    if n > 0 {
      TimesIsProduct(n - 1, x);
      assert n as real * x == (n - 1) as real * x + x;
    }
  }

  lemma {:induction false} TimesWithin(n: nat, x: Money, y: Money, e: Money)
    requires y - e <= x <= y + e
    ensures Times(n, y) - Times(n, e) <= Times(n, x) <= Times(n, y) + Times(n, e)
  {
    if n > 0 {
      TimesWithin(n - 1, x, y, e);
    }
  }

  lemma {:induction false} TimesRises(n: nat, x: Money, y: Money)
    requires x < y
    ensures Times(n, x) <= Times(n, y)
    ensures n > 0 ==> Times(n, x) < Times(n, y)
  {
    if n > 0 {
      TimesRises(n - 1, x, y);
    }
  }

  lemma TenorShares(principal: Money, tenor: int)
    requires tenor > 0
    ensures Times(tenor, principal / tenor as real) == principal
  {
    TimesIsProduct(tenor, principal / tenor as real);
  }

  // ----- what a schedule promises

  function PrincipalSum(rows: seq<ScheduleRow>): Money {
    if rows == [] then 0.0 else PrincipalSum(rows[..|rows| - 1]) + rows[|rows| - 1].principal
  }

  ghost predicate SoundRow(row: ScheduleRow, principal: Money) {
    row.principal >= 0.0 && row.interest >= 0.0 && 0.0 <= row.balance <= principal &&
    row.installment == row.principal + row.interest
  }

  /** Up to any row, the principal paid plus the balance left is the contract principal. */
  lemma {:induction false} PrincipalSumPrefix(ordered: seq<Installment>, principal: Money, perPeriod: Money,
                                              interest: Money, k: nat)
    requires k <= |ordered|
    ensures var rows := Rows(ordered, principal, perPeriod, interest);
            PrincipalSum(rows[..k]) == if k == 0 then 0.0 else principal - rows[k - 1].balance
  {
    var rows := Rows(ordered, principal, perPeriod, interest);
    if k > 0 {
      PrincipalSumPrefix(ordered, principal, perPeriod, interest, k - 1);
      assert rows[..k][..k - 1] == rows[..k - 1];
      if k > 1 {
        assert rows[k - 2].balance == principal - Times(k - 1, perPeriod);
      }
    }
  }

  lemma RowBalances(ordered: seq<Installment>, principal: Money, perPeriod: Money, interest: Money, i: nat, j: nat)
    requires i <= j < |ordered|
    requires Amortised(ordered, principal, perPeriod, interest).Ok?
    ensures var rows := Rows(ordered, principal, perPeriod, interest);
            rows[i].principal >= 0.0 && 0.0 <= rows[j].balance <= rows[i].balance <= principal
  {
    var n := |ordered|;
    MoreIsMore(i, n - 1, perPeriod);
    MoreIsMore(j, n - 1, perPeriod);
    if i < n - 1 { MoreIsMore(i + 1, n - 1, perPeriod); }
    if j < n - 1 { MoreIsMore(i + 1, j + 1, perPeriod); MoreIsMore(j + 1, n - 1, perPeriod); }
  }

  /**
   A built schedule repays exactly the contract principal over non-negative, non-increasing balances that end at zero.
   */
  lemma BuiltAmortises(round: Rounding, principal: Money, tenor: int, flatRate: Money, source: seq<Installment>)
    requires Built(round, principal, tenor, flatRate, source).Ok?
    ensures var rows := Built(round, principal, tenor, flatRate, source).value;
            && |rows| == tenor > 0
            && PrincipalSum(rows) == principal
            && rows[tenor - 1].balance == 0.0
            && (forall i :: 0 <= i < tenor ==> SoundRow(rows[i], principal))
            && (forall i, j :: 0 <= i < j < tenor ==> rows[i].balance >= rows[j].balance)
            && (forall i, j :: 0 <= i < j < tenor ==> rows[i].dueDate.Before(rows[j].dueDate))
  {
    AmortisedRows(StableSort(source, NumberKey), principal,
                  PrincipalPerPeriod(round, principal, tenor), InterestPerPeriod(round, principal, flatRate));
  }

  lemma AmortisedRows(ordered: seq<Installment>, principal: Money, perPeriod: Money, interest: Money)
    requires ordered != [] && WellNumbered(ordered)
    requires Amortised(ordered, principal, perPeriod, interest).Ok?
    ensures var rows := Rows(ordered, principal, perPeriod, interest);
            && PrincipalSum(rows) == principal
            && rows[|rows| - 1].balance == 0.0
            && (forall i :: 0 <= i < |rows| ==> SoundRow(rows[i], principal))
            && (forall i, j :: 0 <= i < j < |rows| ==> rows[i].balance >= rows[j].balance)
            && (forall i, j :: 0 <= i < j < |rows| ==> rows[i].dueDate.Before(rows[j].dueDate))
  {
    var rows := Rows(ordered, principal, perPeriod, interest);
    PrincipalSumPrefix(ordered, principal, perPeriod, interest, |rows|);
    assert rows[..|rows|] == rows;
    forall i, j | 0 <= i <= j < |rows|
      ensures rows[i].principal >= 0.0 && 0.0 <= rows[j].balance <= rows[i].balance <= principal
    {
      RowBalances(ordered, principal, perPeriod, interest, i, j);
    }
  }

  function InterestSum(rows: seq<ScheduleRow>): Money {
    if rows == [] then 0.0 else InterestSum(rows[..|rows| - 1]) + rows[|rows| - 1].interest
  }

  lemma {:induction false} EqualInterests(rows: seq<ScheduleRow>, interest: Money)
    requires forall i :: 0 <= i < |rows| ==> rows[i].interest == interest
    ensures InterestSum(rows) == Times(|rows|, interest)
  {
    if rows != [] {
      EqualInterests(rows[..|rows| - 1], interest);
    }
  }

  /** Row `i` is the installment of that number in the source. */
  lemma BuiltNumbers(round: Rounding, principal: Money, tenor: int, flatRate: Money, source: seq<Installment>)
    requires Built(round, principal, tenor, flatRate, source).Ok?
    ensures var rows := Built(round, principal, tenor, flatRate, source).value;
            |rows| == tenor && forall i :: 0 <= i < tenor ==>
              rows[i].number == i + 1 && Installment(i + 1, rows[i].dueDate) in source
  {
    var ordered := StableSort(source, NumberKey);
    var rows := Built(round, principal, tenor, flatRate, source).value;
    StableSortCorrect(source, NumberKey);
    forall i | 0 <= i < tenor ensures rows[i].number == i + 1 && Installment(i + 1, rows[i].dueDate) in source {
      assert ordered[i] in multiset(ordered) && ordered[i] in multiset(source);
      assert ordered[i] == Installment(i + 1, rows[i].dueDate);
    }
  }

  lemma ShareTimesTenor(principal: Money, tenor: int, share: Money)
    requires tenor > 0 && share == principal / tenor as real
    ensures share * tenor as real == principal
  {
  }

  lemma RateShare(principal: Money, flatRate: Money, share: Money)
    requires share == principal * flatRate / 1200.0
    ensures share * 1200.0 == principal * flatRate
  {
  }

  lemma Regroup(n: real, x: Money, y: Money)
    requires x * 1200.0 == y
    ensures n * x * 1200.0 == n * y
  {
    assert n * x * 1200.0 == n * (x * 1200.0);
  }

  /**
   Every row takes an equal share of the principal and a month's interest at the yearly rate in percent, and the
   interest of all rows is the flat rate over the whole tenor.
   */
  ghost predicate ExactRows(rows: seq<ScheduleRow>, principal: Money, tenor: int, flatRate: Money) {
    && |rows| == tenor > 0
    && (forall i :: 0 <= i < tenor ==>
          && rows[i].principal * tenor as real == principal
          && rows[i].interest * 1200.0 == principal * flatRate
          && rows[i].installment == rows[i].principal + rows[i].interest)
    && InterestSum(rows) * 1200.0 == tenor as real * (principal * flatRate)
  }

  lemma BuiltExactly(principal: Money, tenor: int, flatRate: Money, source: seq<Installment>)
    requires Built(None, principal, tenor, flatRate, source).Ok?
    ensures ExactRows(Built(None, principal, tenor, flatRate, source).value, principal, tenor, flatRate)
  {
    var share, interest := principal / tenor as real, principal * flatRate / 1200.0;
    BuiltShares(principal, tenor, flatRate, source, share, interest);
    SharesAreExact(Built(None, principal, tenor, flatRate, source).value, principal, tenor, flatRate, share, interest);
  }

  lemma SharesAreExact(rows: seq<ScheduleRow>, principal: Money, tenor: int, flatRate: Money, share: Money,
                       interest: Money)
    requires |rows| == tenor > 0 && share == principal / tenor as real && interest == principal * flatRate / 1200.0
    requires forall i :: 0 <= i < tenor ==>
               rows[i].principal == share && rows[i].interest == interest && rows[i].installment == share + interest
    ensures ExactRows(rows, principal, tenor, flatRate)
  {
    ShareTimesTenor(principal, tenor, share);
    RateShare(principal, flatRate, interest);
    EqualInterests(rows, interest);
    TimesIsProduct(tenor, interest);
    Regroup(tenor as real, interest, principal * flatRate);
  }

  lemma {:induction false} BuiltShares(principal: Money, tenor: int, flatRate: Money, source: seq<Installment>,
                                       share: Money, interest: Money)
    requires Built(None, principal, tenor, flatRate, source).Ok?
    requires tenor > 0 && share == principal / tenor as real && interest == principal * flatRate / 1200.0
    ensures var rows := Built(None, principal, tenor, flatRate, source).value;
            |rows| == tenor && forall i :: 0 <= i < tenor ==>
              rows[i].principal == share && rows[i].interest == interest && rows[i].installment == share + interest
  {
    LastPrincipal(None, principal, tenor, flatRate, source);
    LastShare(principal, tenor, share);
  }

  /** What equal shares leave for the last row is one more. */
  lemma LastShare(principal: Money, tenor: int, share: Money)
    requires tenor > 0 && share == principal / tenor as real
    ensures principal - Times(tenor - 1, share) == share
  {
    TenorShares(principal, tenor);
  }

  /** With a hook off by at most `e` all rows carry one interest, and all but the last one principal, within `e`. */
  lemma {:induction false} BuiltWithin(round: Rounding, e: Money, principal: Money, tenor: int, flatRate: Money,
                                       source: seq<Installment>)
    requires Built(round, principal, tenor, flatRate, source).Ok? && RoundsWithin(round, e)
    ensures var rows := Built(round, principal, tenor, flatRate, source).value;
            var share, interest := principal / tenor as real, principal * flatRate / 1200.0;
            && |rows| == tenor > 0
            && (forall i :: 0 <= i < tenor ==>
                  rows[i].interest == rows[0].interest && -e <= rows[i].interest - interest <= e)
            && (forall i :: 0 <= i < tenor - 1 ==>
                  rows[i].principal == rows[0].principal && -e <= rows[i].principal - share <= e)
  {
    var share, interest := principal / tenor as real, principal * flatRate / 1200.0;
    RoundedWithin(round, e, share);
    RoundedWithin(round, e, interest);
  }

  /** An ordering of the source that numbers it 1 to n on strictly rising, non-zero dates. */
  ghost predicate NumberedBy(source: seq<Installment>, ordered: seq<Installment>) {
    && multiset(source) == multiset(ordered)
    && (forall i :: 0 <= i < |ordered| ==> ordered[i].number == i + 1 && ordered[i].dueDate.year != 0)
    && (forall i :: 0 < i < |ordered| ==> ordered[i - 1].dueDate.Before(ordered[i].dueDate))
  }

  ghost predicate WellOrdered(source: seq<Installment>) {
    exists ordered :: NumberedBy(source, ordered)
  }

  lemma {:induction false} WellOrderedSorts(source: seq<Installment>)
    ensures WellOrdered(source) <==> WellNumbered(StableSort(source, NumberKey))
  {
    var sorted := StableSort(source, NumberKey);
    StableSortCorrect(source, NumberKey);
    if ordered :| NumberedBy(source, ordered) {
      NumberedIsSorted(source, ordered);
    }
    if WellNumbered(sorted) {
      assert NumberedBy(source, sorted);
    }
  }

  /**
   A schedule is built exactly for a positive principal and tenor, no negative rate, a source that some ordering
   numbers, rounded amounts that are not negative, and shares that leave something for the last row; otherwise the
   first of these that fails gives the error.
   */
  lemma {:induction false} BuiltWhen(round: Rounding, principal: Money, tenor: int, flatRate: Money,
                                     source: seq<Installment>, share: Money, interest: Money)
    requires tenor > 0 ==> share == Hooked(round, principal / tenor as real)
    requires interest == Hooked(round, MonthlyInterest(principal, flatRate))
    ensures var r := Built(round, principal, tenor, flatRate, source);
            if principal <= 0.0 || tenor <= 0 || flatRate < 0.0 then r == Err(Invariant)
            else if |source| != tenor || !WellOrdered(source) then r == Err(UnsupportedCalculation)
            else if share < 0.0 || interest < 0.0 || !Leaves(principal, tenor, share) then r == Err(Invariant)
            else r.Ok?
  {
    if ValidContract(principal, tenor, flatRate) {
      SharesHooked(round, principal, tenor, flatRate);
      WellOrderedSorts(source);
      SortedLength(source);
      BuiltFrom(round, principal, tenor, flatRate, source, StableSort(source, NumberKey), share, interest);
    }
  }

  /** All rows but the last leave something, or nothing, of the principal. */
  predicate Leaves(principal: Money, tenor: int, share: Money) {
    (tenor - 1) as real * share <= principal
  }

  /** A value as the hook returns it, or itself without a hook. */
  function Hooked(round: Rounding, value: Money): Money {
    if round.None? then value else round.value(value)
  }

  lemma RoundedIsHooked(round: Rounding, value: Money)
    ensures Rounded(round, value) == Hooked(round, value)
  {
  }

  /** A month's interest at the yearly rate in percent. */
  lemma MonthlyOfYearly(principal: Money, flatRate: Money)
    ensures MonthlyInterest(principal, flatRate) * 12.0 * 100.0 == principal * flatRate
  {
  }

  lemma SharesHooked(round: Rounding, principal: Money, tenor: int, flatRate: Money)
    requires tenor > 0
    ensures PrincipalPerPeriod(round, principal, tenor) == Hooked(round, principal / tenor as real)
    ensures InterestPerPeriod(round, principal, flatRate) == Hooked(round, MonthlyInterest(principal, flatRate))
  {
    RoundedIsHooked(round, principal / tenor as real);
    RoundedIsHooked(round, MonthlyInterest(principal, flatRate));
  }

  /** The hook's amounts are what every row but the last carries, and its interest also the last one. */
  lemma BuiltHooked(round: Rounding, principal: Money, tenor: int, flatRate: Money, source: seq<Installment>)
    requires Built(round, principal, tenor, flatRate, source).Ok?
    ensures var rows := Built(round, principal, tenor, flatRate, source).value;
            |rows| == tenor > 0 && forall i :: 0 <= i < tenor ==>
              && rows[i].interest == Hooked(round, MonthlyInterest(principal, flatRate))
              && (i < tenor - 1 ==> rows[i].principal == Hooked(round, principal / tenor as real))
              && rows[i].installment == rows[i].principal + rows[i].interest
  {
    SharesHooked(round, principal, tenor, flatRate);
  }

  lemma {:induction false} SortedLength(source: seq<Installment>)
    ensures |StableSort(source, NumberKey)| == |source|
  {
    StableSortCorrect(source, NumberKey);
    assert |multiset(source)| == |source|;
    assert |multiset(StableSort(source, NumberKey))| == |StableSort(source, NumberKey)|;
  }

  lemma {:induction false} BuiltFrom(round: Rounding, principal: Money, tenor: int, flatRate: Money,
                                     source: seq<Installment>, ordered: seq<Installment>, share: Money, interest: Money)
    requires ValidContract(principal, tenor, flatRate) && ordered == StableSort(source, NumberKey)
    requires share == PrincipalPerPeriod(round, principal, tenor) &&
             interest == InterestPerPeriod(round, principal, flatRate)
    ensures var r := Built(round, principal, tenor, flatRate, source);
            if |ordered| != tenor || !WellNumbered(ordered) then r == Err(UnsupportedCalculation)
            else if share < 0.0 || interest < 0.0 || !Leaves(principal, |ordered|, share) then r == Err(Invariant)
            else r.Ok?
  {
    if |ordered| == tenor {
      AmortisedWhen(ordered, principal, share, interest);
    }
  }

  lemma AmortisedWhen(ordered: seq<Installment>, principal: Money, perPeriod: Money, interest: Money)
    requires ordered != []
    ensures var r := Amortised(ordered, principal, perPeriod, interest);
            if perPeriod < 0.0 || interest < 0.0 || !Leaves(principal, |ordered|, perPeriod)
            then r == Err(Invariant) else r.Ok?
  {
    TimesIsProduct(|ordered| - 1, perPeriod);
  }

  /** Without a hook the amounts never fail. */
  lemma {:induction false} BuiltWithoutHook(principal: Money, tenor: int, flatRate: Money, source: seq<Installment>)
    ensures Built(None, principal, tenor, flatRate, source).Ok? <==>
            principal > 0.0 && tenor > 0 && flatRate >= 0.0 && |source| == tenor && WellOrdered(source)
  {
    WellOrderedSorts(source);
    if principal > 0.0 && tenor > 0 && flatRate >= 0.0 {
      ExactNeverExhausts(principal, tenor, flatRate, source);
    }
  }

  lemma {:induction false} NumberedIsSorted(source: seq<Installment>, ordered: seq<Installment>)
    requires NumberedBy(source, ordered)
    ensures WellNumbered(StableSort(source, NumberKey))
  {
    StableSortCorrect(source, NumberKey);
    RisingPairs(ordered);
    SortedNumberingAgrees(ordered, StableSort(source, NumberKey));
  }

  lemma {:induction false} RisingPairs(rows: seq<Installment>)
    requires forall i :: 0 < i < |rows| ==> rows[i - 1].dueDate.Before(rows[i].dueDate)
    ensures Chronological(rows)
  {
    if rows != [] {
      var init := rows[..|rows| - 1];
      RisingPairs(init);
      forall i | 0 <= i < |init| ensures rows[i].dueDate.Before(rows[|rows| - 1].dueDate) {
        assert init[i] == rows[i] && init[|init| - 1] == rows[|rows| - 2];
      }
      assert forall i :: 0 <= i < |init| ==> init[i] == rows[i];
    }
  }

  /** The source order of the installments does not matter, whatever sort the library uses for equal numbers. */
  lemma BuiltIgnoresOrder(round: Rounding, principal: Money, tenor: int, flatRate: Money,
                          source: seq<Installment>, shuffled: seq<Installment>)
    requires multiset(source) == multiset(shuffled)
    ensures Built(round, principal, tenor, flatRate, source) == Built(round, principal, tenor, flatRate, shuffled)
  {
    assert |multiset(source)| == |source| && |multiset(shuffled)| == |shuffled|;
    StableSortCorrect(source, NumberKey);
    StableSortCorrect(shuffled, NumberKey);
    SortedNumberingAgrees(StableSort(source, NumberKey), StableSort(shuffled, NumberKey));
    SortedNumberingAgrees(StableSort(shuffled, NumberKey), StableSort(source, NumberKey));
  }

  /** Any number-ordered permutation of a well-numbered list is that list. */
  lemma SortedNumberingAgrees(u: seq<Installment>, v: seq<Installment>)
    requires multiset(u) == multiset(v) && Sorted(u, NumberKey) && Sorted(v, NumberKey)
    ensures WellNumbered(u) ==> u == v
  {
    if WellNumbered(u) {
      DistinctOrderUnique(u, v, NumberKey);
    }
  }

  /** The hook is off by at most `e`; without one nothing is off. */
  ghost predicate RoundsWithin(round: Rounding, e: Money) {
    match round
    case None => e >= 0.0
    case Some(hook) => forall x: Money :: -e <= hook(x) - x <= e
  }

  ghost predicate KeepsNonNegative(round: Rounding) {
    round.Some? ==> forall x: Money :: x >= 0.0 ==> round.value(x) >= 0.0
  }

  lemma RoundedWithin(round: Rounding, e: Money, x: Money)
    requires RoundsWithin(round, e)
    ensures -e <= Rounded(round, x) - x <= e
  {
  }

  /** A rounding hook that is off by at most `e` moves the last principal at most (n-1)e away from an equal share. */
  lemma {:induction false} LastRowWithinRounding(round: Rounding, e: Money, principal: Money, tenor: int,
                                                 flatRate: Money, source: seq<Installment>)
    requires Built(round, principal, tenor, flatRate, source).Ok?
    requires RoundsWithin(round, e)
    ensures var rows := Built(round, principal, tenor, flatRate, source).value;
            var slack := Times(tenor - 1, e);
            |rows| == tenor && -slack <= rows[tenor - 1].principal - principal / tenor as real <= slack
  {
    SharesWithin(round, e, principal, tenor);
    LastPrincipal(round, principal, tenor, flatRate, source);
  }

  lemma {:induction false} LastPrincipal(round: Rounding, principal: Money, tenor: int, flatRate: Money,
                                         source: seq<Installment>)
    requires Built(round, principal, tenor, flatRate, source).Ok?
    ensures var rows := Built(round, principal, tenor, flatRate, source).value;
            |rows| == tenor > 0 && rows[tenor - 1].principal ==
                principal - Times(tenor - 1, PrincipalPerPeriod(round, principal, tenor))
  {
  }

  /** What n - 1 rounded shares leave for the last row. */
  lemma {:induction false} SharesWithin(round: Rounding, e: Money, principal: Money, tenor: int)
    requires tenor > 0 && RoundsWithin(round, e)
    ensures var left := principal - Times(tenor - 1, PrincipalPerPeriod(round, principal, tenor));
            -Times(tenor - 1, e) <= left - principal / tenor as real <= Times(tenor - 1, e)
  {
    var share := principal / tenor as real;
    RoundedWithin(round, e, share);
    TimesWithin(tenor - 1, Rounded(round, share), share, e);
    TenorShares(principal, tenor);
  }

  /** With n(n-1)e <= principal the "exhausts principal" error cannot happen; the nil hook is the case e = 0. */
  lemma {:induction false} SmallRoundingNeverExhausts(round: Rounding, e: Money, principal: Money, tenor: int,
                                                      flatRate: Money, source: seq<Installment>)
    requires ValidContract(principal, tenor, flatRate)
    requires RoundsWithin(round, e) && KeepsNonNegative(round)
    requires Times(tenor, Times(tenor - 1, e)) <= principal
    ensures Built(round, principal, tenor, flatRate, source).Ok? <==>
            |source| == tenor && WellNumbered(StableSort(source, NumberKey))
    ensures Built(round, principal, tenor, flatRate, source) != Err(Invariant)
  {
    SharesWithin(round, e, principal, tenor);
    SlackIsSmall(principal, tenor, e);
    NonNegativeShares(principal, tenor, flatRate);
    AmountsDecide(round, principal, tenor, flatRate, source);
  }

  lemma SlackIsSmall(principal: Money, tenor: int, e: Money)
    requires tenor > 0 && Times(tenor, Times(tenor - 1, e)) <= principal
    ensures Times(tenor - 1, e) <= principal / tenor as real
  {
    TenorShares(principal, tenor);
    if Times(tenor - 1, e) > principal / tenor as real {
      TimesRises(tenor, principal / tenor as real, Times(tenor - 1, e));
    }
  }

  lemma {:induction false} AmountsDecide(round: Rounding, principal: Money, tenor: int, flatRate: Money,
                                         source: seq<Installment>)
    requires ValidContract(principal, tenor, flatRate)
    requires PrincipalPerPeriod(round, principal, tenor) >= 0.0 && InterestPerPeriod(round, principal, flatRate) >= 0.0
    requires Times(tenor - 1, PrincipalPerPeriod(round, principal, tenor)) <= principal
    ensures Built(round, principal, tenor, flatRate, source).Ok? <==>
            |source| == tenor && WellNumbered(StableSort(source, NumberKey))
    ensures Built(round, principal, tenor, flatRate, source) != Err(Invariant)
  {
  }

  lemma NonNegativeShares(principal: Money, tenor: int, flatRate: Money)
    requires ValidContract(principal, tenor, flatRate)
    ensures principal / tenor as real >= 0.0 && principal * flatRate / 1200.0 >= 0.0
  {
    assert principal * flatRate >= 0.0;
  }

  lemma {:induction false} ExactNeverExhausts(principal: Money, tenor: int, flatRate: Money, source: seq<Installment>)
    requires ValidContract(principal, tenor, flatRate)
    ensures Built(None, principal, tenor, flatRate, source).Ok? <==>
            |source| == tenor && WellNumbered(StableSort(source, NumberKey))
    ensures Built(None, principal, tenor, flatRate, source) != Err(Invariant)
  {
    TimesIsProduct(tenor - 1, 0.0);
    TimesIsProduct(tenor, 0.0);
    SmallRoundingNeverExhausts(None, 0.0, principal, tenor, flatRate, source);
  }
}
