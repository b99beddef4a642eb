/** The repayment ledger: window, order, cancelled reversals, and the in-place compaction that keeps effective rows. */
module Ledger {
  import opened Wrappers
  import Collections
  import opened Loan
  import opened Sorting

  function RepaymentKey(p: Repayment): Key {
    (p.date.Packed(), p.sourceOrder)
  }

  predicate InWindow(p: Repayment, cutoff: Date, asOf: Date) {
    p.date.After(cutoff) && !p.date.After(asOf)
  }

  /** The rows of (cutoff, as-of], in source order. */
  function Window(source: seq<Repayment>, cutoff: Date, asOf: Date): (r: seq<Repayment>)
    ensures forall i :: 0 <= i < |r| ==> InWindow(r[i], cutoff, asOf)
  {
    if source == [] then []
    else (if InWindow(source[0], cutoff, asOf) then [source[0]] else []) + Window(source[1..], cutoff, asOf)
  }

  function Ordered(source: seq<Repayment>, cutoff: Date, asOf: Date): seq<Repayment> {
    StableSort(Window(source, cutoff, asOf), RepaymentKey)
  }

  // ----- one row

  predicate ZeroComponents(p: Repayment) {
    p.principal == 0.0 && p.interest == 0.0 && p.penalty == 0.0 && p.earlyPenalty == 0.0 && p.dwp == 0.0
  }

  predicate ComponentsEqualTotal(p: Repayment) {
    p.principal + p.interest + p.penalty + p.earlyPenalty + p.dwp == p.total
  }

  predicate ExactInverse(positive: Repayment, negative: Repayment) {
    && positive.principal + negative.principal == 0.0
    && positive.interest + negative.interest == 0.0
    && positive.penalty + negative.penalty == 0.0
    && positive.earlyPenalty + negative.earlyPenalty == 0.0
    && positive.dwp + negative.dwp == 0.0
    && positive.total + negative.total == 0.0
  }

  /** Row `p` and its successor `n` form a reversal that leaves no trace. */
  predicate Cancels(p: Repayment, n: Repayment) {
    p.total > 0.0 && n.total < 0.0 && p.date.Equal(n.date) && ExactInverse(p, n) && ComponentsEqualTotal(p)
  }

  /** A row that stands on its own and is kept. */
  predicate Kept(p: Repayment) {
    p.total > 0.0 && ComponentsEqualTotal(p) && p.Amount() >= 0.0
  }

  /** The error of the first row of an ordered ledger that is neither zero, cancelled nor kept. */
  function FirstError(rows: seq<Repayment>): Error
    requires rows != []
  {
    if rows[0].total < 0.0 then UnsupportedReversal
    else if rows[0].total == 0.0 then UnsupportedAdjustment
    else if |rows| > 1 && rows[1].total < 0.0 && !(rows[0].date.Equal(rows[1].date) && ExactInverse(rows[0], rows[1]))
      then UnsupportedReversal
    else if !ComponentsEqualTotal(rows[0]) then HistoricalEvidence
    else UnsupportedCalculation
  }

  predicate NegativeNext(rows: seq<Repayment>) {
    |rows| > 1 && rows[1].total < 0.0
  }

  /** The effective rows of an ordered ledger: zero rows and cancelled pairs vanish, sound positive rows stay. */
  function Effective(rows: seq<Repayment>): Outcome<seq<Repayment>, Error> {
    if rows == [] then Ok([])
    else if rows[0].total == 0.0 && ZeroComponents(rows[0]) then Effective(rows[1..])
    else if NegativeNext(rows) && Cancels(rows[0], rows[1]) then Effective(rows[2..])
    else if !NegativeNext(rows) && Kept(rows[0]) then Prepend(rows[0], Effective(rows[1..]))
    else Err(FirstError(rows))
  }

  function Prepend(p: Repayment, rest: Outcome<seq<Repayment>, Error>): Outcome<seq<Repayment>, Error> {
    match rest
    case Ok(rows) => Ok([p] + rows)
    case Err(e) => Err(e)
  }

  // ----- the in-place compaction

  /** What the rows already scanned contribute to the answer for the rows not yet scanned. */
  function Following(done: seq<Repayment>, rest: Outcome<seq<Repayment>, Error>): Outcome<seq<Repayment>, Error> {
    match rest
    case Ok(rows) => Ok(done + rows)
    case Err(e) => Err(e)
  }

  lemma FollowingNothing(rest: Outcome<seq<Repayment>, Error>)
    ensures Following([], rest) == rest
  {
    assert rest.Ok? ==> [] + rest.value == rest.value;
  }

  lemma FollowingOne(done: seq<Repayment>, p: Repayment, rest: Outcome<seq<Repayment>, Error>)
    ensures Following(done, Prepend(p, rest)) == Following(done + [p], rest)
  {
    assert rest.Ok? ==> done + ([p] + rest.value) == (done + [p]) + rest.value;
  }

  /**
   Compacts the sorted rows inside their own backing array. The write position never passes the read position, so
   no row is overwritten before it has been read, and the kept prefix is exactly the pure filter of the old contents.
   */
  method Compact(repayments: array<Repayment>) returns (r: Outcome<nat, Error>)
    modifies repayments
    ensures r.Ok? ==> r.value <= repayments.Length && Effective(old(repayments[..])) == Ok(repayments[..r.value])
    ensures r.Err? ==> Effective(old(repayments[..])) == Err(r.error)
  {
    ghost var source := repayments[..];
    var kept := 0;
    var index := 0;
    assert source[0..] == source;
    FollowingNothing(Effective(source));
    while index < repayments.Length
      invariant 0 <= kept <= index <= repayments.Length
      invariant repayments[index..] == source[index..]
      invariant Effective(source) == Following(repayments[..kept], Effective(source[index..]))
    {
      var payment := repayments[index];
      ghost var rest := source[index..];
      assert rest[0] == source[index] == repayments[index..][0];
      assert rest[1..] == source[index + 1..];
      if payment.total < 0.0 {
        return Err(UnsupportedReversal);
      }
      if payment.total == 0.0 {
        if !ZeroComponents(payment) {
          return Err(UnsupportedAdjustment);
        }
        index := index + 1;
        continue;
      }
      var reversalCandidate := index + 1 < repayments.Length && repayments[index + 1].total < 0.0;
      if reversalCandidate {
        var next := repayments[index + 1];
        assert rest[1] == source[index + 1] == repayments[index..][1];
        assert rest[2..] == source[index + 2..];
        if !payment.date.Equal(next.date) || !ExactInverse(payment, next) {
          return Err(UnsupportedReversal);
        }
      } else if |rest| > 1 {
        assert rest[1] == source[index + 1] == repayments[index..][1];
      }
      if !ComponentsEqualTotal(payment) {
        return Err(HistoricalEvidence);
      }
      if reversalCandidate {
        index := index + 2;
        continue;
      }
      if payment.Amount() < 0.0 {
        return Err(UnsupportedCalculation);
      }
      ghost var before := repayments[..kept];
      repayments[kept] := payment;
      kept := kept + 1;
      index := index + 1;
      assert repayments[..kept] == before + [payment];
      FollowingOne(before, payment, Effective(source[index..]));
    }
    assert source[index..] == [];
    assert repayments[..kept] + [] == repayments[..kept];
    return Ok(kept);
  }

  lemma {:induction false} WindowStep(source: seq<Repayment>, index: nat, cutoff: Date, asOf: Date)
    requires index < |source|
    ensures Window(source[index..], cutoff, asOf) ==
            if InWindow(source[index], cutoff, asOf) then [source[index]] + Window(source[index + 1..], cutoff, asOf)
            else Window(source[index + 1..], cutoff, asOf)
  {
    assert source[index..][1..] == source[index + 1..];
  }

  method CollectWindow(source: seq<Repayment>, cutoff: Date, asOf: Date) returns (repayments: seq<Repayment>)
    ensures repayments == Window(source, cutoff, asOf)
  {
    repayments := [];
    for index := 0 to |source|
      invariant repayments + Window(source[index..], cutoff, asOf) == Window(source, cutoff, asOf)
    {
      ghost var rest := Window(source[index + 1..], cutoff, asOf);
      WindowStep(source, index, cutoff, asOf);
      if source[index].date.After(cutoff) && !source[index].date.After(asOf) {
        Collections.Assoc(repayments, [source[index]], rest);
        repayments := repayments + [source[index]];
      }
    }
    assert source[|source|..] == [];
  }

  method Backing(sorted: seq<Repayment>) returns (rows: array<Repayment>)
    ensures fresh(rows) && rows[..] == sorted
  {
    rows := new Repayment[|sorted|](i requires 0 <= i < |sorted| => sorted[i]);
  }

  method EffectiveRepayments(source: seq<Repayment>, cutoff: Date, asOf: Date)
      returns (r: Outcome<seq<Repayment>, Error>)
    ensures r == Effective(Ordered(source, cutoff, asOf))
  {
    var collected := CollectWindow(source, cutoff, asOf);
    var sorted := StableSort(collected, RepaymentKey);
    var rows := Backing(sorted);
    var kept := Compact(rows);
    if kept.Err? {
      return Err(kept.error);
    }
    return Ok(rows[..kept.value]);
  }

  // ----- laws of the filter

  /** Every kept row comes from the ledger, allocates a non-negative amount, and keeps its place. */
  lemma {:induction false} EffectiveRows(rows: seq<Repayment>)
    requires Effective(rows).Ok?
    ensures forall i :: 0 <= i < |Effective(rows).value| ==>
            Kept(Effective(rows).value[i]) && Effective(rows).value[i] in rows
    ensures Sorted(rows, RepaymentKey) ==> Sorted(Effective(rows).value, RepaymentKey)
  {
    if rows != [] {
      if rows[0].total == 0.0 && ZeroComponents(rows[0]) {
        EffectiveRows(rows[1..]);
      } else if NegativeNext(rows) && Cancels(rows[0], rows[1]) {
        EffectiveRows(rows[2..]);
      } else {
        EffectiveRows(rows[1..]);
        var rest := Effective(rows[1..]).value;
        assert Effective(rows).value == [rows[0]] + rest;
        if Sorted(rows, RepaymentKey) {
          forall i | 0 <= i < |rest| ensures KeyLe(RepaymentKey(rows[0]), RepaymentKey(rest[i])) {
            var j :| 0 <= j < |rows[1..]| && rows[1..][j] == rest[i];
            assert rows[j + 1] == rest[i];
          }
        }
      }
    }
  }

  /** A reversal recorded inside the ledger leaves no trace, wherever it stands before a row that is not negative. */
  lemma {:induction false} ReversalLeavesNoTrace(pre: seq<Repayment>, p: Repayment, n: Repayment, post: seq<Repayment>)
    requires Cancels(p, n)
    requires post != [] ==> post[0].total >= 0.0
    ensures Effective(pre + [p, n] + post) == Effective(pre + post)
  {
    var rows, without := pre + [p, n] + post, pre + post;
    if pre == [] {
      assert rows == [p, n] + post && without == post;
      assert rows[2..] == post;
    } else {
      assert rows[1..] == pre[1..] + [p, n] + post && without[1..] == pre[1..] + post;
      ReversalLeavesNoTrace(pre[1..], p, n, post);
      if |pre| > 1 {
        assert rows[2..] == pre[2..] + [p, n] + post && without[2..] == pre[2..] + post;
        ReversalLeavesNoTrace(pre[2..], p, n, post);
        SameHead(rows, without);
      } else {
        SoundNext(rows, without);
      }
    }
  }

  /** A first row that no negative row follows is judged alone. */
  lemma {:induction false} SoundNext(a: seq<Repayment>, b: seq<Repayment>)
    requires a != [] && b != [] && a[0] == b[0] && !NegativeNext(a) && !NegativeNext(b)
    requires Effective(a[1..]) == Effective(b[1..])
    ensures Effective(a) == Effective(b)
  {
  }

  /** Ledgers that begin alike and are filtered alike behind their first rows are filtered alike. */
  lemma {:induction false} SameHead(a: seq<Repayment>, b: seq<Repayment>)
    requires |a| > 1 && |b| > 1 && a[0] == b[0] && a[1] == b[1]
    requires Effective(a[1..]) == Effective(b[1..]) && Effective(a[2..]) == Effective(b[2..])
    ensures Effective(a) == Effective(b)
  {
  }

  function AmountSum(rows: seq<Repayment>): Money {
    if rows == [] then 0.0 else rows[0].Amount() + AmountSum(rows[1..])
  }

  /** Dropping zero rows and cancelled pairs drops no money. */
  lemma {:induction false} EffectiveKeepsMoney(rows: seq<Repayment>)
    requires Effective(rows).Ok?
    ensures AmountSum(Effective(rows).value) == AmountSum(rows)
  {
    if rows != [] {
      if rows[0].total == 0.0 && ZeroComponents(rows[0]) {
        EffectiveKeepsMoney(rows[1..]);
      } else if NegativeNext(rows) && Cancels(rows[0], rows[1]) {
        EffectiveKeepsMoney(rows[2..]);
        assert rows[1..][1..] == rows[2..];
      } else {
        EffectiveKeepsMoney(rows[1..]);
        assert Effective(rows).value[1..] == Effective(rows[1..]).value;
      }
    }
  }

  lemma {:induction false} InsertKeepsMoney(p: Repayment, rows: seq<Repayment>)
    ensures AmountSum(Insert(p, rows, RepaymentKey)) == p.Amount() + AmountSum(rows)
  {
    var r := Insert(p, rows, RepaymentKey);
    if rows == [] {
      assert r[1..] == [];
    } else if KeyLe(RepaymentKey(p), RepaymentKey(rows[0])) {
      assert r[1..] == rows;
    } else {
      assert r[1..] == Insert(p, rows[1..], RepaymentKey);
      InsertKeepsMoney(p, rows[1..]);
    }
  }

  lemma {:induction false} SortKeepsMoney(rows: seq<Repayment>)
    ensures AmountSum(StableSort(rows, RepaymentKey)) == AmountSum(rows)
  {
    if rows != [] {
      SortKeepsMoney(rows[1..]);
      InsertKeepsMoney(rows[0], StableSort(rows[1..], RepaymentKey));
    }
  }

  /**
   Splitting an ordered ledger at a change of day: the halves are accepted apart exactly when the whole is accepted.
   */
  lemma {:induction false} EffectiveSplit(a: seq<Repayment>, b: seq<Repayment>)
    requires forall i, j :: 0 <= i < |a| && 0 <= j < |b| ==> a[i].date.Before(b[j].date)
    ensures Effective(a + b).Ok? <==> Effective(a).Ok? && Effective(b).Ok?
    ensures Effective(a + b).Ok? ==> Effective(a + b).value == Effective(a).value + Effective(b).value
  {
    var all := a + b;
    if a == [] {
      assert all == b;
    } else {
      assert all[1..] == a[1..] + b;
      EffectiveSplit(a[1..], b);
      if |a| > 1 {
        assert all[2..] == a[2..] + b;
        EffectiveSplit(a[2..], b);
        if Effective(all).Ok? && NegativeNext(a) && Cancels(a[0], a[1]) {
          assert Effective(all) == Effective(all[2..]);
        }
      } else if b != [] {
        // The last row of `a` meets the first row of `b`, which lies on a later day.
        assert all[1] == b[0];
        if b[0].total < 0.0 {
          NegativeFirst(b);
        }
      }
    }
  }

  lemma {:induction false} NegativeFirst(rows: seq<Repayment>)
    requires rows != [] && rows[0].total < 0.0
    ensures Effective(rows) == Err(UnsupportedReversal)
  {
  }
}
