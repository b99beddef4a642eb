/**
 What an accepted ledger looks like: a sequence of zero rows, sound rows and same-day reversal pairs. The filter accepts
 exactly these ledgers and keeps exactly their sound rows; any other ledger fails at the first row that begins none of
 them.
 */
module AcceptedLedger {
  import opened Wrappers
  import Collections
  import opened Loan
  import opened Sorting
  import opened Ledger

  // ----- the ordered window

  /** The window holds every raw row dated after cutoff and not after as-of, as often as the ledger does. */
  lemma {:induction false} WindowHolds(source: seq<Repayment>, cutoff: Date, asOf: Date, p: Repayment)
    ensures multiset(Window(source, cutoff, asOf))[p] ==
            if cutoff.Packed() < p.date.Packed() <= asOf.Packed() then multiset(source)[p] else 0
  {
    if source != [] {
      WindowHolds(source[1..], cutoff, asOf, p);
      var rest := Window(source[1..], cutoff, asOf);
      assert source == [source[0]] + source[1..];
      assert multiset([source[0]] + rest) == multiset{source[0]} + multiset(rest);
    }
  }

  /** The rows are put in order of their day, and on one day in their recorded order. */
  lemma OrderedByDay(source: seq<Repayment>, cutoff: Date, asOf: Date)
    ensures var rows := Ordered(source, cutoff, asOf);
            && (forall p :: multiset(rows)[p] ==
                            if cutoff.Packed() < p.date.Packed() <= asOf.Packed() then multiset(source)[p] else 0)
            && (forall i, j :: 0 <= i < j < |rows| ==>
                  rows[i].date.Packed() < rows[j].date.Packed() ||
                  (rows[i].date.Packed() == rows[j].date.Packed() && rows[i].sourceOrder <= rows[j].sourceOrder))
  {
    var rows, window := Ordered(source, cutoff, asOf), Window(source, cutoff, asOf);
    StableSortCorrect(window, RepaymentKey);
    forall p: Repayment ensures multiset(rows)[p] ==
                     if cutoff.Packed() < p.date.Packed() <= asOf.Packed() then multiset(source)[p] else 0
    {
      WindowHolds(source, cutoff, asOf, p);
    }
    forall i, j | 0 <= i < j < |rows|
      ensures rows[i].date.Packed() < rows[j].date.Packed() ||
              (rows[i].date.Packed() == rows[j].date.Packed() && rows[i].sourceOrder <= rows[j].sourceOrder)
    {
      assert KeyLe(RepaymentKey(rows[i]), RepaymentKey(rows[j]));
    }
  }

  // ----- blocks

  datatype Block = Zero(row: Repayment) | Sound(row: Repayment) | Reversed(row: Repayment, inverse: Repayment)

  predicate AddsToTotal(p: Repayment) {
    p.total == p.principal + p.interest + p.penalty + p.earlyPenalty + p.dwp
  }

  predicate IsBlock(b: Block) {
    match b
    case Zero(p) =>
      p.total == 0.0 && p.principal == 0.0 && p.interest == 0.0 && p.penalty == 0.0 && p.earlyPenalty == 0.0 &&
      p.dwp == 0.0
    case Sound(p) => p.total > 0.0 && AddsToTotal(p) && p.principal + p.interest >= 0.0
    case Reversed(p, n) => p.total > 0.0 && AddsToTotal(p) && Inverse(p, n)
  }

  /** Recorded on the same day with every amount negated. */
  predicate Inverse(p: Repayment, n: Repayment) {
    && n.date.Packed() == p.date.Packed() && n.total == -p.total
    && n.principal == -p.principal && n.interest == -p.interest && n.penalty == -p.penalty
    && n.earlyPenalty == -p.earlyPenalty && n.dwp == -p.dwp
  }

  ghost predicate AreBlocks(blocks: seq<Block>) {
    forall i :: 0 <= i < |blocks| ==> IsBlock(blocks[i])
  }

  function RowsOf(b: Block): seq<Repayment> {
    match b
    case Zero(p) => [p]
    case Sound(p) => [p]
    case Reversed(p, n) => [p, n]
  }

  function Flattened(blocks: seq<Block>): seq<Repayment> {
    if blocks == [] then [] else RowsOf(blocks[0]) + Flattened(blocks[1..])
  }

  function SoundOnes(blocks: seq<Block>): seq<Repayment> {
    if blocks == [] then [] else (if blocks[0].Sound? then [blocks[0].row] else []) + SoundOnes(blocks[1..])
  }

  ghost predicate Describes(blocks: seq<Block>, rows: seq<Repayment>, kept: seq<Repayment>) {
    AreBlocks(blocks) && Flattened(blocks) == rows && SoundOnes(blocks) == kept
  }

  // ----- the filter reads blocks

  /** What the filter makes of a block depends on the rest only in that the rest follows. */
  lemma {:induction false} BlockRead(b: Block, rest: seq<Repayment>)
    requires IsBlock(b) && (b.Sound? && rest != [] ==> rest[0].total >= 0.0)
    ensures Effective(RowsOf(b) + rest) == if b.Sound? then Prepend(b.row, Effective(rest)) else Effective(rest)
  {
    var rows := RowsOf(b) + rest;
    match b {
      case Zero(p) => assert rows[1..] == rest;
      case Sound(p) => assert rows[1..] == rest;
      case Reversed(p, n) => assert rows[2..] == rest;
    }
  }

  lemma {:induction false} BlockBegins(blocks: seq<Block>, rest: seq<Repayment>)
    requires AreBlocks(blocks) && (rest != [] ==> rest[0].total >= 0.0)
    ensures var rows := Flattened(blocks) + rest; rows != [] ==> rows[0].total >= 0.0
  {
    if blocks != [] {
      assert (Flattened(blocks) + rest)[0] == blocks[0].row;
    }
  }

  lemma {:induction false} BlocksRead(blocks: seq<Block>, rest: seq<Repayment>)
    requires AreBlocks(blocks) && (rest != [] ==> rest[0].total >= 0.0)
    ensures Effective(Flattened(blocks) + rest) == Following(SoundOnes(blocks), Effective(rest))
  {
    if blocks == [] {
      FollowingNothing(Effective(rest));
      assert [] + rest == rest;
    } else {
      var behind := Flattened(blocks[1..]) + rest;
      Collections.Assoc(RowsOf(blocks[0]), Flattened(blocks[1..]), rest);
      BlockBegins(blocks[1..], rest);
      BlockRead(blocks[0], behind);
      BlocksRead(blocks[1..], rest);
      PrependFollowing(blocks[0].row, SoundOnes(blocks[1..]), Effective(rest));
      assert [] + SoundOnes(blocks[1..]) == SoundOnes(blocks[1..]);
    }
  }

  lemma PrependFollowing(p: Repayment, kept: seq<Repayment>, rest: Outcome<seq<Repayment>, Error>)
    ensures Prepend(p, Following(kept, rest)) == Following([p] + kept, rest)
  {
    if rest.Ok? {
      Collections.Assoc([p], kept, rest.value);
    }
  }

  /** The block a ledger begins with, if any. */
  lemma {:induction false} FirstBlock(rows: seq<Repayment>) returns (b: Option<Block>)
    requires rows != []
    ensures match b
      case Some(block) => IsBlock(block) && RowsOf(block) <= rows &&
                          (block.Sound? && |rows| > 1 ==> rows[1].total >= 0.0)
      case None => Effective(rows) == Err(FirstError(rows)) && NoBlock(rows)
  {
    if rows[0].total == 0.0 && ZeroComponents(rows[0]) {
      b := Some(Zero(rows[0]));
    } else if NegativeNext(rows) && Cancels(rows[0], rows[1]) {
      b := Some(Reversed(rows[0], rows[1]));
      assert RowsOf(b.value) == rows[..2];
    } else if !NegativeNext(rows) && Kept(rows[0]) {
      b := Some(Sound(rows[0]));
    } else {
      b := None;
    }
  }

  /** No zero row, no sound row that a row without negative total follows, and no reversal pair stands at the front. */
  ghost predicate NoBlock(rows: seq<Repayment>)
    requires rows != []
  {
    && !IsBlock(Zero(rows[0]))
    && (|rows| == 1 || rows[1].total >= 0.0 ==> !IsBlock(Sound(rows[0])))
    && (|rows| > 1 ==> !IsBlock(Reversed(rows[0], rows[1])))
  }

  lemma {:induction false} AcceptedBlocks(rows: seq<Repayment>) returns (blocks: seq<Block>)
    requires Effective(rows).Ok?
    ensures Describes(blocks, rows, Effective(rows).value)
  {
    if rows == [] {
      blocks := [];
    } else {
      var first := FirstBlock(rows);
      var b := first.value;
      var rest := rows[|RowsOf(b)|..];
      assert rows == RowsOf(b) + rest;
      BlockRead(b, rest);
      var others := AcceptedBlocks(rest);
      blocks := [b] + others;
      assert blocks[1..] == others;
      assert [] + Effective(rest).value == Effective(rest).value;
    }
  }

  /** A ledger is accepted exactly when it is made of such blocks, and what is kept are its sound rows. */
  lemma {:induction false} AcceptedExactly(rows: seq<Repayment>, kept: seq<Repayment>)
    ensures Effective(rows) == Ok(kept) <==> exists blocks :: Describes(blocks, rows, kept)
  {
    if blocks :| Describes(blocks, rows, kept) {
      BlocksRead(blocks, []);
      assert Flattened(blocks) + [] == rows && kept + [] == kept;
    }
    if Effective(rows) == Ok(kept) {
      var blocks := AcceptedBlocks(rows);
      assert Describes(blocks, rows, kept);
    }
  }

  // ----- the first row that fails

  /** Which error the row at the front of `rest` is refused with. */
  ghost predicate RefusedWith(rest: seq<Repayment>, e: Error)
    requires rest != []
  {
    var p := rest[0];
    var beforeNegative := |rest| > 1 && rest[1].total < 0.0;
    if p.total < 0.0 || (p.total > 0.0 && beforeNegative && !Inverse(p, rest[1])) then e == UnsupportedReversal
    else if p.total == 0.0 then e == UnsupportedAdjustment
    else if !AddsToTotal(p) then e == HistoricalEvidence
    else e == UnsupportedCalculation && p.principal + p.interest < 0.0
  }

  /** Behind the blocks `rest` begins with none, and is refused for its first row. */
  ghost predicate FailsAt(blocks: seq<Block>, rest: seq<Repayment>, rows: seq<Repayment>, e: Error) {
    AreBlocks(blocks) && Flattened(blocks) + rest == rows && rest != [] && NoBlock(rest) && RefusedWith(rest, e)
  }

  lemma {:induction false} RefusedHere(rows: seq<Repayment>)
    requires rows != [] && NoBlock(rows) && Effective(rows) == Err(FirstError(rows))
    ensures RefusedWith(rows, Effective(rows).error)
  {
  }

  lemma FailsFurther(b: Block, others: seq<Block>, rest: seq<Repayment>, behind: seq<Repayment>, e: Error)
    requires IsBlock(b) && FailsAt(others, rest, behind, e)
    ensures FailsAt([b] + others, rest, RowsOf(b) + behind, e)
  {
    assert ([b] + others)[1..] == others;
    Collections.Assoc(RowsOf(b), Flattened(others), rest);
  }

  lemma {:induction false} RefusedBlocks(rows: seq<Repayment>) returns (blocks: seq<Block>, rest: seq<Repayment>)
    requires Effective(rows).Err?
    ensures FailsAt(blocks, rest, rows, Effective(rows).error)
  {
    var first := FirstBlock(rows);
    match first {
      case None =>
        blocks, rest := [], rows;
        RefusedHere(rows);
        assert [] + rows == rows;
      case Some(b) =>
        var behind := rows[|RowsOf(b)|..];
        assert rows == RowsOf(b) + behind;
        BlockRead(b, behind);
        blocks, rest := RefusedBlocks(behind);
        FailsFurther(b, blocks, rest, behind, Effective(behind).error);
        blocks := [b] + blocks;
    }
  }

  /** Every other ledger fails at the first row that begins no block, with the error that row calls for. */
  lemma {:induction false} RefusedAtFirst(rows: seq<Repayment>)
    requires Effective(rows).Err?
    ensures exists blocks, rest :: FailsAt(blocks, rest, rows, Effective(rows).error)
  {
    var blocks, rest := RefusedBlocks(rows);
  }
}
