/** The dated collectability evidence: which allocation order applies on a given day. */
module Timeline {
  import opened Wrappers
  import opened Loan
  import opened Sorting

  function PointKey(p: CollectabilityPoint): Key {
    (p.date.Packed(), 0)
  }

  predicate ValidCollectability(value: int) {
    1 <= value <= 5
  }

  /** Every point is dated and in range, and points of one day agree. */
  ghost predicate ValidTimeline(points: seq<CollectabilityPoint>) {
    && (forall i :: 0 <= i < |points| ==> !points[i].date.IsZero() && ValidCollectability(points[i].value))
    && (forall i, j :: 0 <= i < j < |points| && points[i].date.Equal(points[j].date) ==>
       points[i].value == points[j].value)
  }

  /** The value recorded last on or before `date`, or the opening value when the evidence starts later. */
  function ValueAt(opening: int, points: seq<CollectabilityPoint>, date: Date): int {
    if points == [] then opening
    else if points[|points| - 1].date.After(date) then ValueAt(opening, points[..|points| - 1], date)
    else points[|points| - 1].value
  }

  /** The code compares neighbours only; on a date-ordered timeline that settles every pair of points. */
  method ValidateTimeline(points: seq<CollectabilityPoint>) returns (valid: bool)
    requires Sorted(points, PointKey)
    ensures valid <==> ValidTimeline(points)
  {
    for index := 0 to |points|
      invariant ValidTimeline(points[..index])
    {
      var point := points[index];
      if point.date.IsZero() || point.value < 1 || point.value > 5 {
        return false;
      }
      if index > 0 && point.date.Equal(points[index - 1].date) && point.value != points[index - 1].value {
        return false;
      }
      forall i | 0 <= i < index && points[i].date.Equal(point.date)
        ensures points[i].value == point.value
      {
        assert KeyLe(PointKey(points[index - 1]), PointKey(point));
        assert i == index - 1 || KeyLe(PointKey(points[i]), PointKey(points[index - 1]));
        assert points[..index][i] == points[i] && points[..index][index - 1] == points[index - 1];
      }
    }
    assert points[..|points|] == points;
    return true;
  }

  lemma {:induction false} ValueAtPrefix(opening: int, points: seq<CollectabilityPoint>, date: Date, k: nat)
    requires k <= |points|
    requires forall i :: k <= i < |points| ==> points[i].date.After(date)
    ensures ValueAt(opening, points, date) == ValueAt(opening, points[..k], date)
    decreases |points| - k
  {
    if k == |points| {
      assert points[..k] == points;
    } else {
      ValueAtPrefix(opening, points, date, k + 1);
      assert points[..k + 1][..k] == points[..k];
    }
  }

  /** The point that answers: the last one that is not after the date. */
  ghost predicate Answers(points: seq<CollectabilityPoint>, date: Date, k: nat) {
    k < |points| && !points[k].date.After(date) && forall i :: k < i < |points| ==> points[i].date.After(date)
  }

  lemma {:induction false} ValueAtIsLast(opening: int, points: seq<CollectabilityPoint>, date: Date, k: nat)
    requires Answers(points, date, k)
    ensures ValueAt(opening, points, date) == points[k].value
  {
    ValueAtPrefix(opening, points, date, k + 1);
  }

  /** Before the first point the opening value holds. */
  lemma {:induction false} ValueAtIsOpening(opening: int, points: seq<CollectabilityPoint>, date: Date)
    requires forall i :: 0 <= i < |points| ==> points[i].date.After(date)
    ensures ValueAt(opening, points, date) == opening
  {
    ValueAtPrefix(opening, points, date, 0);
  }

  lemma {:induction false} SomeAnswers(points: seq<CollectabilityPoint>, date: Date, k: nat) returns (last: nat)
    requires k < |points| && !points[k].date.After(date)
    ensures k <= last && Answers(points, date, last)
    decreases |points| - k
  {
    if j :| k < j < |points| && !points[j].date.After(date) {
      last := SomeAnswers(points, date, j);
    } else {
      last := k;
    }
  }

  /** The value of the last point that is not after the date, or the opening value if every point is. */
  ghost predicate Recorded(opening: int, points: seq<CollectabilityPoint>, date: Date, value: int) {
    && (forall k: nat :: Answers(points, date, k) ==> value == points[k].value)
    && ((forall i :: 0 <= i < |points| ==> points[i].date.After(date)) ==> value == opening)
  }

  lemma {:induction false} ValueAtRecorded(opening: int, points: seq<CollectabilityPoint>, date: Date)
    ensures Recorded(opening, points, date, ValueAt(opening, points, date))
  {
    forall k: nat | Answers(points, date, k) ensures ValueAt(opening, points, date) == points[k].value {
      ValueAtIsLast(opening, points, date, k);
    }
    if forall i :: 0 <= i < |points| ==> points[i].date.After(date) {
      ValueAtIsOpening(opening, points, date);
    }
  }

  /** It is the only such value. */
  lemma RecordedOnce(opening: int, points: seq<CollectabilityPoint>, date: Date, v: int, w: int)
    requires Recorded(opening, points, date, v) && Recorded(opening, points, date, w)
    ensures v == w
  {
    if i :| 0 <= i < |points| && !points[i].date.After(date) {
      var k := SomeAnswers(points, date, i);
    }
  }

  /** `p` is a latest point of the raw timeline that is not after the date. */
  ghost predicate LatestOf(timeline: seq<CollectabilityPoint>, date: Date, p: CollectabilityPoint) {
    && p in timeline && !p.date.After(date)
    && forall q :: q in timeline && p.date.Before(q.date) ==> q.date.After(date)
  }

  lemma {:induction false} SortedMembers(timeline: seq<CollectabilityPoint>)
    ensures var points := StableSort(timeline, PointKey);
            && (forall q :: q in timeline <==> q in points)
            && Sorted(points, PointKey)
  {
    StableSortCorrect(timeline, PointKey);
    var points := StableSort(timeline, PointKey);
    forall q ensures q in timeline <==> q in points {
      assert q in multiset(timeline) <==> q in multiset(points);
    }
  }

  /** Whatever order the evidence comes in, the latest point on or before the date gives the value. */
  lemma {:induction false} LatestGivesValue(opening: int, timeline: seq<CollectabilityPoint>, date: Date,
                                            p: CollectabilityPoint)
    requires ValidTimeline(StableSort(timeline, PointKey)) && LatestOf(timeline, date, p)
    ensures ValueAt(opening, StableSort(timeline, PointKey), date) == p.value
  {
    var points := StableSort(timeline, PointKey);
    SortedMembers(timeline);
    var i :| 0 <= i < |points| && points[i] == p;
    var k := SomeAnswers(points, date, i);
    ValueAtIsLast(opening, points, date, k);
    assert points[k] in points && points[k] in timeline;
    assert k == i || KeyLe(PointKey(points[i]), PointKey(points[k]));
    assert points[i].date.Equal(points[k].date);
  }

  lemma {:induction false} NoneGivesOpening(opening: int, timeline: seq<CollectabilityPoint>, date: Date)
    requires forall q :: q in timeline ==> q.date.After(date)
    ensures ValueAt(opening, StableSort(timeline, PointKey), date) == opening
  {
    SortedMembers(timeline);
    ValueAtIsOpening(opening, StableSort(timeline, PointKey), date);
  }

  /** Every point is dated and in range, and points of one day agree, in whatever order they come. */
  ghost predicate UsableEvidence(timeline: seq<CollectabilityPoint>) {
    && (forall q :: q in timeline ==> q.date.year != 0 && 1 <= q.value <= 5)
    && (forall q, r :: q in timeline && r in timeline && q.date.Equal(r.date) ==> q.value == r.value)
  }

  lemma ValidIsUsable(points: seq<CollectabilityPoint>)
    ensures ValidTimeline(points) <==> UsableEvidence(points)
  {
    if ValidTimeline(points) {
      forall q, r | q in points && r in points && q.date.Equal(r.date) ensures q.value == r.value {
        var i :| 0 <= i < |points| && points[i] == q;
        var j :| 0 <= j < |points| && points[j] == r;
        assert i == j || i < j || j < i;
      }
    } else if UsableEvidence(points) {
      assert forall i :: 0 <= i < |points| ==> points[i] in points;
    }
  }

  /** Whether evidence is valid does not depend on its order. */
  lemma {:induction false} ValidInAnyOrder(timeline: seq<CollectabilityPoint>)
    ensures ValidTimeline(StableSort(timeline, PointKey)) <==> UsableEvidence(timeline)
  {
    var points := StableSort(timeline, PointKey);
    SortedMembers(timeline);
    ValidIsUsable(points);
    assert UsableEvidence(points) <==> UsableEvidence(timeline);
  }

  /** The forward scan that stops at the first later point finds the latest point on or before the date. */
  method CollectabilityAt(opening: int, points: seq<CollectabilityPoint>, date: Date)
      returns (r: Outcome<int, Error>)
    requires Sorted(points, PointKey)
    ensures r == if ValidCollectability(opening) && ValidCollectability(ValueAt(opening, points, date))
                 then Ok(ValueAt(opening, points, date)) else Err(HistoricalEvidence)
    ensures r.Ok? ==> Recorded(opening, points, date, r.value) && 1 <= opening <= 5 && 1 <= r.value <= 5
  {
    if opening < 1 || opening > 5 {
      return Err(HistoricalEvidence);
    }
    var value := opening;
    var index := 0;
    while index < |points|
      invariant 0 <= index <= |points|
      invariant value == ValueAt(opening, points[..index], date)
    {
      if points[index].date.After(date) {
        forall i | index <= i < |points| ensures points[i].date.After(date) {
          assert i == index || KeyLe(PointKey(points[index]), PointKey(points[i]));
        }
        break;
      }
      value := points[index].value;
      assert points[..index + 1][..index] == points[..index];
      index := index + 1;
    }
    ValueAtPrefix(opening, points, date, index);
    if value < 1 || value > 5 {
      return Err(HistoricalEvidence);
    }
    ValueAtRecorded(opening, points, date);
    return Ok(value);
  }

  /** A validated opening and timeline never produce an unusable collectability. */
  lemma {:induction false} ValueAtValid(opening: int, points: seq<CollectabilityPoint>, date: Date)
    requires ValidCollectability(opening) && ValidTimeline(points)
    ensures ValidCollectability(ValueAt(opening, points, date))
  {
    if points != [] {
      var init := points[..|points| - 1];
      assert forall i :: 0 <= i < |init| ==> init[i] == points[i];
      ValueAtValid(opening, init, date);
    }
  }

  /**
   Looking up a later day from the value reached at an earlier day gives the same answer as looking it up from the
   start.
   */
  lemma {:induction false} ValueAtRestart(opening: int, points: seq<CollectabilityPoint>, earlier: Date, later: Date)
    requires !earlier.After(later)
    ensures ValueAt(ValueAt(opening, points, earlier), points, later) == ValueAt(opening, points, later)
  {
    ValueAtRestartPrefix(opening, points, points, earlier, later);
  }

  lemma {:induction false} ValueAtRestartPrefix(
      opening: int, points: seq<CollectabilityPoint>, all: seq<CollectabilityPoint>, earlier: Date, later: Date)
    requires !earlier.After(later)
    requires points <= all
    requires forall i :: |points| <= i < |all| ==> all[i].date.After(later)
    ensures ValueAt(ValueAt(opening, all, earlier), points, later) == ValueAt(opening, points, later)
  {
    if points == [] {
      ValueAtPrefix(opening, all, earlier, 0);
    } else if points[|points| - 1].date.After(later) {
      ValueAtRestartPrefix(opening, points[..|points| - 1], all, earlier, later);
    }
  }
}
