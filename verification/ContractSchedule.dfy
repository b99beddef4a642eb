/**
 Normalising the raw installment evidence of a contract. Each evidence row carries its number and the outcome of parsing
 its due date (the text handling and the calendar of `time.ParseInLocation` are not modelled).
 */
module ContractSchedule {
  import opened Wrappers
  import Collections
  import opened Loan
  import opened Sorting
  import opened Schedule

  datatype Evidence = Evidence(number: int, due: Option<Date>)

  /** The non-zero rows, as installments. */
  function Listed(source: seq<Evidence>): seq<Installment> {
    if source == [] then []
    else
      (if source[0].number != 0 && source[0].due.Some? then [Installment(source[0].number, source[0].due.value)]
       else []) +
      Listed(source[1..])
  }

  predicate UsableRow(e: Evidence, tenor: int) {
    0 <= e.number <= tenor && (e.number != 0 ==> e.due.Some?)
  }

  ghost predicate Distinct(rows: seq<Installment>) {
    forall i, j :: 0 <= i < j < |rows| ==> rows[i].number != rows[j].number
  }

  ghost predicate Usable(source: seq<Evidence>, tenor: int) {
    (forall e :: e in source ==> UsableRow(e, tenor)) && Distinct(Listed(source))
  }

  function Ordered(source: seq<Evidence>): seq<Installment> {
    StableSort(Listed(source), NumberKey)
  }

  ghost function Normalized(source: seq<Evidence>, tenor: int): Outcome<seq<Installment>, Error> {
    var ordered := Ordered(source);
    if Usable(source, tenor) && |ordered| == tenor && Numbered(ordered) && Chronological(ordered) then Ok(ordered)
    else Err(UnsupportedCalculation)
  }

  // ----- the code

  lemma {:induction false} ListedAppend(a: seq<Evidence>, b: seq<Evidence>)
    ensures Listed(a + b) == Listed(a) + Listed(b)
  {
    if a == [] {
      assert a + b == b;
    } else {
      assert (a + b)[1..] == a[1..] + b;
      ListedAppend(a[1..], b);
    }
  }

  lemma ListedNext(source: seq<Evidence>, k: nat)
    requires k < |source|
    ensures Listed(source[..k + 1]) == Listed(source[..k]) + Listed([source[k]])
  {
    assert source[..k + 1] == source[..k] + [source[k]];
    ListedAppend(source[..k], [source[k]]);
  }

  lemma {:induction false} ListedPrefix(source: seq<Evidence>, k: nat)
    requires k <= |source|
    ensures Listed(source[..k]) <= Listed(source)
  {
    assert source == source[..k] + source[k..];
    ListedAppend(source[..k], source[k..]);
  }

  function NumbersOf(rows: seq<Installment>): set<int> {
    set row | row in rows :: row.number
  }

  lemma NumbersOfPlace(rows: seq<Installment>, n: int)
    ensures n in NumbersOf(rows) <==> exists i :: 0 <= i < |rows| && rows[i].number == n
  {
  }

  lemma NumbersOfNext(rows: seq<Installment>, next: Installment)
    ensures NumbersOf(rows + [next]) == NumbersOf(rows) + {next.number}
    ensures Distinct(rows) && next.number !in NumbersOf(rows) ==> Distinct(rows + [next])
  {
    forall n ensures n in NumbersOf(rows + [next]) <==> n in NumbersOf(rows) + {next.number} {
      if n in NumbersOf(rows) {
        var row :| row in rows && row.number == n;
        assert row in rows + [next];
      }
      assert next in rows + [next];
    }
  }

  lemma {:induction false} Repeated(source: seq<Evidence>, index: nat, schedule: seq<Installment>)
    requires index < |source| && schedule == Listed(source[..index])
    requires source[index].number != 0 && source[index].due.Some? && source[index].number in NumbersOf(schedule)
    ensures !Distinct(Listed(source))
  {
    var row, all := source[index], Listed(source);
    ListedNext(source, index);
    ListedPrefix(source, index + 1);
    NumbersOfPlace(schedule, row.number);
    var i :| 0 <= i < |schedule| && schedule[i].number == row.number;
    assert all[i] == schedule[i] && all[|schedule|] == Installment(row.number, row.due.value);
  }

  /** Collects the non-zero rows; a row out of range, repeated or undated makes the evidence unusable. */
  method Collect(source: seq<Evidence>, tenor: int) returns (r: Option<seq<Installment>>)
    ensures r == if Usable(source, tenor) then Some(Listed(source)) else None
  {
    var schedule: seq<Installment> := [];
    var seen: set<int> := {};
    for index := 0 to |source|
      invariant schedule == Listed(source[..index])
      invariant Distinct(schedule)
      invariant seen == NumbersOf(schedule)
      invariant forall i :: 0 <= i < index ==> UsableRow(source[i], tenor)
    {
      var row := source[index];
      ListedNext(source, index);
      assert row in source;
      if row.number < 0 || row.number > tenor {
        return None;
      }
      if row.number == 0 {
        continue;
      }
      if row.due.None? {
        return None;
      }
      if row.number in seen {
        Repeated(source, index, schedule);
        return None;
      }
      NumbersOfNext(schedule, Installment(row.number, row.due.value));
      seen := seen + {row.number};
      schedule := schedule + [Installment(row.number, row.due.value)];
    }
    assert source[..|source|] == source;
    return Some(schedule);
  }

  method CheckOrder(schedule: seq<Installment>) returns (valid: bool)
    ensures valid <==> Numbered(schedule) && Chronological(schedule)
  {
    for index := 0 to |schedule|
      invariant Numbered(schedule[..index]) && Chronological(schedule[..index])
    {
      if schedule[index].number != index + 1 {
        return false;
      }
      if index > 0 && !schedule[index].dueDate.After(schedule[index - 1].dueDate) {
        return false;
      }
      forall i | 0 <= i < index ensures schedule[i].dueDate.Before(schedule[index].dueDate) {
        assert schedule[..index][i] == schedule[i] && schedule[..index][index - 1] == schedule[index - 1];
      }
    }
    assert schedule[..|schedule|] == schedule;
    return true;
  }

  method NormalizeContractSchedule(source: seq<Evidence>, tenor: int) returns (r: Outcome<seq<Installment>, Error>)
    ensures r == Normalized(source, tenor)
  {
    var collected := Collect(source, tenor);
    if collected.None? {
      return Err(UnsupportedCalculation);
    }
    var schedule := StableSort(collected.value, NumberKey);
    if |schedule| != tenor {
      return Err(UnsupportedCalculation);
    }
    var valid := CheckOrder(schedule);
    if !valid {
      return Err(UnsupportedCalculation);
    }
    return Ok(schedule);
  }

  /** `validSchedule`. */
  ghost predicate ValidSchedule(rows: seq<Installment>, tenor: int) {
    tenor > 0 && |rows| == tenor && WellNumbered(rows)
  }

  // ----- what a normalised schedule is

  lemma {:induction false} ListedMember(source: seq<Evidence>, row: Installment)
    ensures row in Listed(source) <==> row.number != 0 && Evidence(row.number, Some(row.dueDate)) in source
  {
    if source != [] {
      ListedMember(source[1..], row);
    }
  }

  lemma {:induction false} CountTwice<T>(s: seq<T>, i: nat, j: nat)
    requires i < j < |s| && s[i] == s[j]
    ensures multiset(s)[s[i]] >= 2
  {
    assert s == s[..j] + [s[j]] + s[j + 1..];
    assert s[i] in s[..j];
  }

  lemma {:induction false} TwoPlaces<T>(s: seq<T>, x: T) returns (i: nat, j: nat)
    requires multiset(s)[x] >= 2
    ensures i < j < |s| && s[i] == s[j] == x
  {
    assert s == [s[0]] + s[1..];
    if s[0] == x {
      assert x in multiset(s[1..]);
      assert x in s[1..];
      var k :| 0 <= k < |s[1..]| && s[1..][k] == x;
      return 0, k + 1;
    } else {
      var i', j' := TwoPlaces(s[1..], x);
      return i' + 1, j' + 1;
    }
  }

  lemma DistinctPermutation(u: seq<Installment>, v: seq<Installment>)
    requires Distinct(u) && multiset(u) == multiset(v)
    ensures Distinct(v)
  {
    forall i, j | 0 <= i < j < |v| ensures v[i].number != v[j].number {
      assert v[i] in multiset(v) && v[j] in multiset(v);
      assert v[i] in multiset(u) && v[j] in multiset(u);
      if v[i] == v[j] {
        CountTwice(v, i, j);
        var i', j' := TwoPlaces(u, v[i]);
        assert false;
      }
      var i' :| 0 <= i' < |u| && u[i'] == v[i];
      var j' :| 0 <= j' < |u| && u[j'] == v[j];
    }
  }

  lemma {:induction false} PigeonholeLow(rows: seq<Installment>, i: nat)
    requires Sorted(rows, NumberKey) && Distinct(rows) && i < |rows|
    requires forall k :: 0 <= k < |rows| ==> rows[k].number >= 1
    ensures rows[i].number >= i + 1
  {
    if i > 0 {
      PigeonholeLow(rows, i - 1);
      assert KeyLe(NumberKey(rows[i - 1]), NumberKey(rows[i]));
    }
  }

  lemma {:induction false} PigeonholeHigh(rows: seq<Installment>, i: nat)
    requires Sorted(rows, NumberKey) && Distinct(rows) && i < |rows|
    requires forall k :: 0 <= k < |rows| ==> rows[k].number <= |rows|
    ensures rows[i].number <= i + 1
    decreases |rows| - i
  {
    if i < |rows| - 1 {
      PigeonholeHigh(rows, i + 1);
      assert KeyLe(NumberKey(rows[i]), NumberKey(rows[i + 1]));
    }
  }

  /** Pigeonhole: `tenor` distinct numbers in 1..tenor leave none missing, so that error branch is unreachable. */
  lemma {:induction false} MissingInstallmentUnreachable(source: seq<Evidence>, tenor: int)
    requires Usable(source, tenor) && |Listed(source)| == tenor
    ensures Numbered(StableSort(Listed(source), NumberKey))
  {
    var listed := Listed(source);
    var ordered := StableSort(listed, NumberKey);
    StableSortCorrect(listed, NumberKey);
    DistinctPermutation(listed, ordered);
    forall k | 0 <= k < |ordered| ensures 1 <= ordered[k].number <= tenor {
      assert ordered[k] in multiset(ordered);
      assert ordered[k] in multiset(listed);
      ListedMember(source, ordered[k]);
      assert UsableRow(Evidence(ordered[k].number, Some(ordered[k].dueDate)), tenor);
    }
    forall i | 0 <= i < |ordered| ensures ordered[i].number == i + 1 {
      PigeonholeLow(ordered, i);
      PigeonholeHigh(ordered, i);
    }
  }

  /**
   Success is exactly: rows in range and dated, as many distinct non-zero numbers as the tenor, dates rising by number.
   */
  lemma {:induction false} NormalizedExactly(source: seq<Evidence>, tenor: int)
    ensures Normalized(source, tenor).Ok? <==>
            && Usable(source, tenor) && |Listed(source)| == tenor
            && Chronological(StableSort(Listed(source), NumberKey))
  {
    if Usable(source, tenor) && |Listed(source)| == tenor {
      MissingInstallmentUnreachable(source, tenor);
    }
  }

  function CountNumber(source: seq<Evidence>, n: int): nat {
    if source == [] then 0 else (if source[0].number == n then 1 else 0) + CountNumber(source[1..], n)
  }

  function CountListed(rows: seq<Installment>, n: int): nat {
    if rows == [] then 0 else (if rows[0].number == n then 1 else 0) + CountListed(rows[1..], n)
  }

  /** Rows that carry a number carry a date, and every number is in range. */
  ghost predicate Readable(source: seq<Evidence>, tenor: int) {
    forall e :: e in source ==> 0 <= e.number <= tenor && (e.number > 0 ==> e.due.Some?)
  }

  lemma {:induction false} CountsAgree(source: seq<Evidence>, n: int)
    requires n != 0 && forall e :: e in source ==> e.number == 0 || e.due.Some?
    ensures CountListed(Listed(source), n) == CountNumber(source, n)
  {
    if source != [] {
      assert source[0] in source && forall e :: e in source[1..] ==> e in source;
      CountsAgree(source[1..], n);
      var rest := Listed(source[1..]);
      if source[0].number != 0 && source[0].due.Some? {
        var row := Installment(source[0].number, source[0].due.value);
        assert Listed(source) == [row] + rest && ([row] + rest)[1..] == rest;
      } else {
        assert Listed(source) == rest;
      }
    }
  }

  lemma {:induction false} CountMeans(rows: seq<Installment>, n: int)
    ensures CountListed(rows, n) > 0 <==> exists i :: 0 <= i < |rows| && rows[i].number == n
    ensures forall i :: 0 <= i < |rows| && rows[i].number == n ==> CountListed(rows, n) > 0
  {
    if rows != [] {
      CountMeans(rows[1..], n);
      if i :| 0 <= i < |rows| && rows[i].number == n {
        assert i == 0 || rows[1..][i - 1].number == n;
      }
      if j :| 0 <= j < |rows[1..]| && rows[1..][j].number == n {
        assert rows[j + 1].number == n;
      }
    }
  }

  ghost predicate AtMostOnce(rows: seq<Installment>) {
    forall n: int :: CountListed(rows, n) <= 1
  }

  lemma {:induction false} DistinctOnce(rows: seq<Installment>, n: int)
    requires Distinct(rows)
    ensures CountListed(rows, n) <= 1
  {
    if rows != [] {
      var rest := rows[1..];
      assert forall i :: 0 <= i < |rest| ==> rest[i] == rows[i + 1];
      DistinctOnce(rest, n);
      CountMeans(rest, rows[0].number);
    }
  }

  lemma {:induction false} OnceDistinct(rows: seq<Installment>)
    requires AtMostOnce(rows)
    ensures Distinct(rows)
  {
    if rows != [] {
      forall n: int ensures CountListed(rows[1..], n) <= 1 {
        assert CountListed(rows, n) <= 1;
      }
      OnceDistinct(rows[1..]);
      DistinctFirst(rows);
    }
  }

  lemma DistinctCounts(rows: seq<Installment>)
    ensures Distinct(rows) <==> AtMostOnce(rows)
  {
    if Distinct(rows) {
      forall n: int ensures CountListed(rows, n) <= 1 {
        DistinctOnce(rows, n);
      }
    } else if AtMostOnce(rows) {
      OnceDistinct(rows);
    }
  }

  lemma {:induction false} DistinctFirst(rows: seq<Installment>)
    requires rows != [] && Distinct(rows[1..]) && CountListed(rows, rows[0].number) <= 1
    ensures Distinct(rows)
  {
    CountMeans(rows[1..], rows[0].number);
    forall i, j | 0 <= i < j < |rows| ensures rows[i].number != rows[j].number {
      assert rows[1..][j - 1] == rows[j];
      assert i == 0 || rows[1..][i - 1] == rows[i];
    }
  }

  function UpTo(n: nat): set<int> {
    if n == 0 then {} else UpTo(n - 1) + {n}
  }

  /** The numbers 1 to n, n of them. */
  lemma {:induction false} UpToSize(n: nat)
    ensures |UpTo(n)| == n && forall k :: k in UpTo(n) <==> 1 <= k <= n
  {
    if n > 0 {
      UpToSize(n - 1);
    }
  }

  lemma {:induction false} NumbersSize(rows: seq<Installment>)
    requires Distinct(rows)
    ensures |NumbersOf(rows)| == |rows|
  {
    if rows != [] {
      var init, last := rows[..|rows| - 1], rows[|rows| - 1];
      assert rows == init + [last];
      NumbersSize(init);
      NumbersOfNext(init, last);
      NumbersOfPlace(init, last.number);
      assert forall i :: 0 <= i < |init| ==> init[i] == rows[i] && rows[i].number != rows[|rows| - 1].number;
    } else {
      assert NumbersOf(rows) == {};
    }
  }

  /** One row for every number from 1 to the tenor. */
  ghost predicate OneEach(source: seq<Evidence>, tenor: int) {
    tenor >= 0 && forall n :: 1 <= n <= tenor ==> CountNumber(source, n) == 1
  }

  lemma {:induction false} ListedNumbers(source: seq<Evidence>, tenor: int, n: int)
    requires Readable(source, tenor)
    ensures n in NumbersOf(Listed(source)) <==> n != 0 && CountNumber(source, n) > 0
    ensures n in NumbersOf(Listed(source)) ==> 1 <= n <= tenor
  {
    var rows := Listed(source);
    NumbersOfPlace(rows, n);
    if i :| 0 <= i < |rows| && rows[i].number == n {
      assert rows[i] in rows;
      ListedMember(source, rows[i]);
    }
    if n != 0 {
      CountsAgree(source, n);
      CountMeans(rows, n);
    }
  }

  lemma {:induction false} NoZeroListed(source: seq<Evidence>)
    ensures CountListed(Listed(source), 0) == 0
  {
    var rows := Listed(source);
    CountMeans(rows, 0);
    if i :| 0 <= i < |rows| && rows[i].number == 0 {
      assert rows[i] in rows;
      ListedMember(source, rows[i]);
    }
  }

  lemma {:induction false} CompleteNumbers(source: seq<Evidence>, tenor: int)
    requires Readable(source, tenor)
    ensures Distinct(Listed(source)) && |Listed(source)| == tenor <==> OneEach(source, tenor)
  {
    var rows := Listed(source);
    DistinctCounts(rows);
    NoZeroListed(source);
    forall n ensures n in NumbersOf(rows) <==> n != 0 && CountNumber(source, n) > 0
             ensures n in NumbersOf(rows) ==> 1 <= n <= tenor
             ensures n != 0 ==> CountListed(rows, n) == CountNumber(source, n)
    {
      ListedNumbers(source, tenor, n);
      if n != 0 { CountsAgree(source, n); }
    }
    if Distinct(rows) {
      NumbersSize(rows);
    }
    if tenor >= 0 {
      UpToSize(tenor);
      OneEachWhen(source, tenor, rows);
    }
  }

  lemma {:induction false} OneEachWhen(source: seq<Evidence>, tenor: nat, rows: seq<Installment>)
    requires forall n :: n in NumbersOf(rows) <==> n != 0 && CountNumber(source, n) > 0
    requires forall n :: n in NumbersOf(rows) ==> 1 <= n <= tenor
    requires forall n :: n != 0 ==> CountListed(rows, n) == CountNumber(source, n)
    requires CountListed(rows, 0) == 0
    requires Distinct(rows) <==> AtMostOnce(rows)
    requires Distinct(rows) ==> |NumbersOf(rows)| == |rows|
    requires |UpTo(tenor)| == tenor && forall k :: k in UpTo(tenor) <==> 1 <= k <= tenor
    ensures Distinct(rows) && |rows| == tenor <==> OneEach(source, tenor)
  {
    var numbers := NumbersOf(rows);
    assert numbers <= UpTo(tenor);
    if Distinct(rows) && |rows| == tenor {
      SameSize(numbers, UpTo(tenor));
      forall n | 1 <= n <= tenor ensures CountNumber(source, n) == 1 {
        assert n in UpTo(tenor) && n in numbers;
        assert CountListed(rows, n) <= 1;
      }
    }
    if OneEach(source, tenor) {
      forall n: int ensures CountListed(rows, n) <= 1 {
        if n != 0 && !(1 <= n <= tenor) {
          assert n !in numbers;
        }
      }
      assert numbers == UpTo(tenor) by {
        forall n | n in UpTo(tenor) ensures n in numbers {
        }
      }
    }
  }

  lemma SameSize(a: set<int>, b: set<int>)
    requires a <= b && |a| == |b|
    ensures a == b
  {
    forall x | x in b ensures x in a {
      if x !in a {
        Collections.SubsetSize(a, b - {x});
      }
    }
  }

  /** Dates rise with the numbers. */
  ghost predicate RisingDates(source: seq<Evidence>) {
    forall e, f :: e in source && f in source && 0 < e.number < f.number && e.due.Some? && f.due.Some? ==>
                   e.due.value.Before(f.due.value)
  }

  /** The rows are those of the evidence. */
  ghost predicate AreOf(rows: seq<Installment>, source: seq<Evidence>) {
    forall row :: row in rows <==> row.number != 0 && Evidence(row.number, Some(row.dueDate)) in source
  }

  lemma RisingFrom(source: seq<Evidence>, rows: seq<Installment>)
    requires Numbered(rows) && AreOf(rows, source) && Chronological(rows)
    ensures RisingDates(source)
  {
    forall e, f | e in source && f in source && 0 < e.number < f.number && e.due.Some? && f.due.Some?
      ensures e.due.value.Before(f.due.value)
    {
      var x, y := Installment(e.number, e.due.value), Installment(f.number, f.due.value);
      assert x in rows && y in rows;
      assert rows[e.number - 1] == x && rows[f.number - 1] == y;
    }
  }

  lemma ChronologicalFrom(source: seq<Evidence>, rows: seq<Installment>)
    requires Numbered(rows) && AreOf(rows, source) && RisingDates(source)
    ensures Chronological(rows)
  {
    forall i, j | 0 <= i < j < |rows| ensures rows[i].dueDate.Before(rows[j].dueDate) {
      var e, f := Evidence(rows[i].number, Some(rows[i].dueDate)), Evidence(rows[j].number, Some(rows[j].dueDate));
      assert rows[i] in rows && rows[j] in rows;
      assert e in source && f in source;
    }
  }

  lemma {:induction false} RisingWhen(source: seq<Evidence>)
    requires Numbered(StableSort(Listed(source), NumberKey))
    ensures Chronological(StableSort(Listed(source), NumberKey)) <==> RisingDates(source)
  {
    var rows := StableSort(Listed(source), NumberKey);
    forall row ensures row in rows <==> row.number != 0 && Evidence(row.number, Some(row.dueDate)) in source {
      OrderedIsListed(source, row);
    }
    if Chronological(rows) {
      RisingFrom(source, rows);
    } else if RisingDates(source) {
      ChronologicalFrom(source, rows);
    }
  }

  /**
   Evidence is normalised exactly when its numbers lie between 0 and the tenor, every row that carries one carries a
   date, each number from 1 to the tenor stands in exactly one row, and the dates rise with the numbers.
   */
  lemma {:induction false} NormalizedWhen(source: seq<Evidence>, tenor: int)
    ensures Normalized(source, tenor).Ok? <==> Readable(source, tenor) && OneEach(source, tenor) && RisingDates(source)
  {
    NormalizedExactly(source, tenor);
    if Readable(source, tenor) {
      CompleteNumbers(source, tenor);
      assert Usable(source, tenor) <==> Distinct(Listed(source));
      if Usable(source, tenor) && |Listed(source)| == tenor {
        MissingInstallmentUnreachable(source, tenor);
        RisingWhen(source);
      }
    } else {
      assert !Usable(source, tenor);
    }
  }

  lemma {:induction false} OrderedIsListed(source: seq<Evidence>, row: Installment)
    ensures row in StableSort(Listed(source), NumberKey) <==>
            row.number != 0 && Evidence(row.number, Some(row.dueDate)) in source
  {
    ListedMember(source, row);
    assert row in multiset(StableSort(Listed(source), NumberKey)) <==> row in multiset(Listed(source));
  }

  /** On success every installment 1..tenor has its evidence row. */
  lemma EveryInstallmentPresent(source: seq<Evidence>, tenor: int, n: int)
    requires Normalized(source, tenor).Ok? && 1 <= n <= tenor
    ensures exists e :: e in source && e.number == n && e.due == Some(Normalized(source, tenor).value[n - 1].dueDate)
  {
    var row := NumberedRow(source, tenor, n);
    OrderedIsListed(source, row);
    assert Evidence(n, Some(row.dueDate)) in source;
  }

  lemma NumberedRow(source: seq<Evidence>, tenor: int, n: int) returns (row: Installment)
    requires Normalized(source, tenor).Ok? && 1 <= n <= tenor
    ensures |Normalized(source, tenor).value| == tenor && row == Normalized(source, tenor).value[n - 1]
    ensures row.number == n && row in StableSort(Listed(source), NumberKey)
  {
    row := Normalized(source, tenor).value[n - 1];
  }

  lemma RemoveOne<T>(a: seq<T>, b: seq<T>, k: nat)
    requires a != [] && k < |b| && b[k] == a[0] && multiset(a) == multiset(b)
    ensures multiset(a[1..]) == multiset(b[..k] + b[k + 1..])
  {
    assert a == [a[0]] + a[1..];
    assert b == b[..k] + ([b[k]] + b[k + 1..]);
    assert multiset(b) == multiset(b[..k]) + multiset{b[k]} + multiset(b[k + 1..]);
    assert multiset(a[1..]) == multiset(a) - multiset{a[0]};
  }

  lemma {:induction false} ListedAround(b: seq<Evidence>, k: nat)
    requires k < |b|
    ensures multiset(Listed(b)) == multiset(Listed([b[k]])) + multiset(Listed(b[..k] + b[k + 1..]))
  {
    Around(b, k);
    ListedMiddle(b[..k], [b[k]], b[k + 1..]);
  }

  lemma Around<T>(b: seq<T>, k: nat)
    requires k < |b|
    ensures b == b[..k] + ([b[k]] + b[k + 1..])
  {
  }

  lemma {:induction false} ListedMiddle(x: seq<Evidence>, y: seq<Evidence>, z: seq<Evidence>)
    ensures multiset(Listed(x + (y + z))) == multiset(Listed(y)) + multiset(Listed(x + z))
  {
    ListedAppend(x, y + z);
    ListedAppend(y, z);
    ListedAppend(x, z);
    CountMiddle(Listed(x), Listed(y), Listed(z));
  }

  lemma CountMiddle(x: seq<Installment>, y: seq<Installment>, z: seq<Installment>)
    ensures multiset(x + (y + z)) == multiset(y) + multiset(x + z)
  {
    assert multiset(x + (y + z)) == multiset(x) + (multiset(y) + multiset(z));
    assert multiset(x + z) == multiset(x) + multiset(z);
  }

  lemma {:induction false} ListedPermutation(a: seq<Evidence>, b: seq<Evidence>)
    requires multiset(a) == multiset(b)
    ensures multiset(Listed(a)) == multiset(Listed(b))
  {
    if a == [] {
      assert |multiset(b)| == |b|;
    } else {
      assert a[0] in multiset(a);
      assert a[0] in multiset(b);
      var k :| 0 <= k < |b| && b[k] == a[0];
      RemoveOne(a, b, k);
      ListedPermutation(a[1..], b[..k] + b[k + 1..]);
      ListedAround(b, k);
      ListedAround(a, 0);
      assert a[..0] + a[0 + 1..] == a[1..];
    }
  }

  lemma UsablePermutation(a: seq<Evidence>, b: seq<Evidence>, tenor: int)
    requires multiset(a) == multiset(b) && Usable(a, tenor)
    ensures Usable(b, tenor)
  {
    forall e | e in b ensures UsableRow(e, tenor) {
      assert e in multiset(b);
      assert e in multiset(a);
    }
    ListedPermutation(a, b);
    DistinctPermutation(Listed(a), Listed(b));
  }

  /** The order in which evidence rows arrive does not matter. */
  lemma NormalizedIgnoresOrder(a: seq<Evidence>, b: seq<Evidence>, tenor: int)
    requires multiset(a) == multiset(b)
    ensures Normalized(a, tenor) == Normalized(b, tenor)
  {
    if Usable(a, tenor) || Usable(b, tenor) {
      if Usable(a, tenor) { UsablePermutation(a, b, tenor); } else { UsablePermutation(b, a, tenor); }
      ListedPermutation(a, b);
      var u, v := StableSort(Listed(a), NumberKey), StableSort(Listed(b), NumberKey);
      StableSortCorrect(Listed(a), NumberKey);
      StableSortCorrect(Listed(b), NumberKey);
      DistinctPermutation(Listed(a), u);
      DistinctOrderUnique(u, v, NumberKey);
    }
  }

  /**
   A normalised schedule passes `validSchedule` exactly when the tenor is positive and no due date lies in year 0: the
   normaliser never asks `IsZero`, and Go parses "0000-01-01". With such dates excluded it always meets the numbering
   and date checks of the calculator too.
   */
  lemma NormalizedIsValid(source: seq<Evidence>, tenor: int)
    requires Normalized(source, tenor).Ok?
    ensures ValidSchedule(Normalized(source, tenor).value, tenor) <==> tenor > 0 && NoYearZero(source)
    ensures NoYearZero(source) ==> WellNumbered(StableSort(Normalized(source, tenor).value, NumberKey))
  {
    DatesAreEvidence(source, tenor);
    SortedAgain(Listed(source));
    OrderedNumbers(source, tenor);
  }

  lemma OrderedNumbers(source: seq<Evidence>, tenor: int)
    requires Normalized(source, tenor).Ok?
    ensures Normalized(source, tenor).value == Ordered(source) && |Ordered(source)| == tenor
    ensures WellNumbered(Ordered(source)) <==> Dated(Ordered(source))
  {
  }

  /** No installment of the evidence is due in year 0. */
  ghost predicate NoYearZero(source: seq<Evidence>) {
    forall e :: e in source && e.number != 0 && e.due.Some? ==> !e.due.value.IsZero()
  }

  lemma DatesAreEvidence(source: seq<Evidence>, tenor: int)
    requires Usable(source, tenor)
    ensures NoYearZero(source) <==> Dated(Ordered(source))
  {
    var ordered := Ordered(source);
    forall e | e in source && e.number != 0 && e.due.Some? ensures Installment(e.number, e.due.value) in ordered {
      var row := Installment(e.number, e.due.value);
      assert e == Evidence(row.number, Some(row.dueDate));
      OrderedIsListed(source, row);
    }
    forall i | 0 <= i < |ordered| ensures Evidence(ordered[i].number, Some(ordered[i].dueDate)) in source &&
        ordered[i].number != 0 {
      OrderedIsListed(source, ordered[i]);
    }
  }

  lemma {:induction false} SortedAgain(rows: seq<Installment>)
    ensures StableSort(StableSort(rows, NumberKey), NumberKey) == StableSort(rows, NumberKey)
  {
    StableSortCorrect(rows, NumberKey);
    StableSortCorrect(StableSort(rows, NumberKey), NumberKey);
    StableOrderUnique(StableSort(StableSort(rows, NumberKey), NumberKey), StableSort(rows, NumberKey), NumberKey);
  }

  /** The two ways the normaliser accepts what `validSchedule` refuses. */
  lemma NormalizedButNotValid()
    ensures Normalized([Evidence(1, Some(Date(0, 1, 1)))], 1).Ok?
    ensures !ValidSchedule(Normalized([Evidence(1, Some(Date(0, 1, 1)))], 1).value, 1)
    ensures Normalized([], 0) == Ok([]) && !ValidSchedule([], 0)
  {
    var source := [Evidence(1, Some(Date(0, 1, 1)))];
    assert source[1..] == [];
    assert Listed(source) == [Installment(1, Date(0, 1, 1))];
    assert Listed(source)[1..] == [];
    assert StableSort(Listed(source), NumberKey) == Listed(source);
  }
}
