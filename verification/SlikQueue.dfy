/**
 Any number of application instances over one set of tables. The advisory lock can be lost while its holder still runs,
 so no event below asks for it: live and stale workers interleave freely, each SQL statement being one event.
 */
module SlikQueue {
  import opened Wrappers
  import Collections
  import opened SlikStore

  /** Where a worker stands in `run`; every stage after `Idle` belongs to one claimed job. */
  datatype Stage =
    | Idle
    | Working(job: JobId)
    | Checked(job: JobId)
    | Reading(job: JobId, after: AccountId, results: map<AccountId, Values>)
    | Patched(job: JobId, results: map<AccountId, Values>)

  type Worker = nat

  datatype System = System(tables: Tables, workers: map<Worker, Stage>)

  datatype Event =
    | Submit(id: JobId, job: Job, accounts: seq<AccountId>)
    | Recover
    | Claim(worker: Worker, id: JobId)
    | Save(worker: Worker, account: AccountId, primary: string, values: Values)
    | CheckComplete(worker: Worker)
    | ReadPage(worker: Worker, page: seq<AccountId>)
    | Complete(worker: Worker, output: string, now: int)
    | Fail(worker: Worker, failed: Option<AccountId>, reason: string, now: int)
    | Abandon(worker: Worker)
    | Cancel(id: JobId, owner: nat, viewAll: bool, now: int)
    | Expire(id: JobId, now: int)

  const PAGE := 256

  function StageOf(s: System, w: Worker): Stage {
    if w in s.workers then s.workers[w] else Idle
  }

  function Move(s: System, w: Worker, stage: Stage): System {
    s.(workers := s.workers[w := stage])
  }

  /** The values checkpointed for a page of accounts. */
  function Collected(rows: Rows, page: seq<AccountId>): map<AccountId, Values> {
    map a | a in page && a in rows && rows[a].Done? :: rows[a].values
  }

  /** Every checkpointed value of a job. */
  function Stored(rows: Rows): map<AccountId, Values> {
    map a | a in rows && rows[a].Done? :: rows[a].values
  }

  /** One event; an event that is not enabled changes nothing. */
  ghost function Apply(s: System, e: Event): System {
    match e
    case Submit(id, job, accounts) => s.(tables := Created(s.tables, id, job, accounts))
    case Recover => s.(tables := Recovered(s.tables))
    case Claim(w, id) =>
      if StageOf(s, w).Idle? && Claimable(s.tables, id) then
        Move(s.(tables := Claimed(s.tables, id)), w, Working(id))
      else s
    case Save(w, a, primary, values) =>
      if StageOf(s, w).Working? then s.(tables := Saved(s.tables, StageOf(s, w).job, a, primary, values)) else s
    case CheckComplete(w) =>
      if StageOf(s, w).Working? && PendingIn(RowsOf(s.tables, StageOf(s, w).job)) == {} &&
          StageOf(s, w).job in s.tables.jobs
      then Move(s, w, Checked(StageOf(s, w).job)) else s
    case ReadPage(w, page) =>
      (match StageOf(s, w)
       case Checked(id) => Move(s, w, Reading(id, 0, map[]))
       case Reading(id, after, results) =>
         var rows := RowsOf(s.tables, id);
         if !IsPage(page, DoneIn(rows), after, PAGE) then s
         else if page == [] then Move(s, w, Patched(id, results))
         else Move(s, w, Reading(id, page[|page| - 1], results + Collected(rows, page)))
       case _ => s)
    case Complete(w, output, now) =>
      if StageOf(s, w).Patched?
      then Move(s.(tables := Ended(s.tables, StageOf(s, w).job, Completed, None, "", output, now)), w, Idle) else s
    case Fail(w, account, reason, now) =>
      if StageOf(s, w).Idle? then s
      else Move(s.(tables := Ended(s.tables, StageOf(s, w).job, Failed, account, reason, "", now)), w, Idle)
    case Abandon(w) => Move(s, w, Idle)
    case Cancel(id, owner, viewAll, now) => s.(tables := CanceledBy(s.tables, id, owner, viewAll, now))
    case Expire(id, now) => s.(tables := FilesCleared(s.tables, id, now))
  }

  ghost function Run(s: System, events: seq<Event>): System
    decreases |events|
  {
    if events == [] then s else Run(Apply(s, events[0]), events[1..])
  }

  const START := System(Tables(map[], map[]), map[])

  // ----- the invariant

  ghost predicate AllDone(t: Tables, id: JobId) {
    id in t.rows && DoneIn(t.rows[id]) == t.rows[id].Keys
  }

  /** The results read so far are exactly the stored values up to the cursor. */
  ghost predicate ReadUpTo(rows: Rows, after: AccountId, results: map<AccountId, Values>) {
    && (forall a :: a in results ==> a in Stored(rows) && results[a] == Stored(rows)[a])
    && (forall a :: a in Stored(rows) && a <= after ==> a in results)
  }

  ghost predicate SoundStage(t: Tables, stage: Stage) {
    match stage
    case Idle => true
    case Working(id) => id in t.jobs
    case Checked(id) => AllDone(t, id)
    case Reading(id, after, results) => AllDone(t, id) && ReadUpTo(t.rows[id], after, results)
    case Patched(id, results) => AllDone(t, id) && results == Stored(t.rows[id])
  }

  /** Account 0 stands for the empty identifier, which no submission contains. */
  ghost predicate NoEmptyAccount(t: Tables) {
    forall id :: id in t.rows ==> 0 !in t.rows[id]
  }

  ghost predicate Inv(s: System) {
    && Consistent(s.tables)
    && NoEmptyAccount(s.tables)
    && (forall w :: w in s.workers ==> SoundStage(s.tables, s.workers[w]))
    && (forall id :: id in s.tables.jobs && s.tables.jobs[id].status.Completed? ==> AllDone(s.tables, id))
  }

  // ----- every event keeps it

  ghost predicate LegalEvent(e: Event) {
    e.Submit? ==> 0 !in e.accounts
  }

  lemma StoredKept(before: Rows, after: Rows)
    requires RowsKept(before, after) && DoneIn(before) == before.Keys
    ensures DoneIn(after) == after.Keys && after == before
  {
    forall a | a in after.Keys ensures a in DoneIn(after) {
      assert a in DoneIn(before);
    }
  }

  /** What a worker has established about its job stays true whatever else happens to the tables. */
  lemma StageStays(t: Tables, u: Tables, stage: Stage)
    requires Consistent(t) && Consistent(u) && Later(t, u) && SoundStage(t, stage)
    ensures SoundStage(u, stage)
  {
    if !stage.Idle? && !stage.Working? {
      StoredKept(t.rows[stage.job], u.rows[stage.job]);
    }
  }

  lemma CompletedStays(t: Tables, u: Tables, id: JobId)
    requires Consistent(t) && Later(t, u) && AllDone(t, id)
    ensures AllDone(u, id)
  {
    StoredKept(t.rows[id], u.rows[id]);
  }

  /** The tables only move forward. */
  lemma TablesMoveOn(s: System, e: Event)
    requires Consistent(s.tables)
    ensures Consistent(Apply(s, e).tables) && Later(s.tables, Apply(s, e).tables)
  {
    var t, u := s.tables, Apply(s, e).tables;
    match e {
      case Submit(id, job, accounts) => CreateKeeps(t, id, job, accounts);
      case Recover => RecoverIsStatusStep(t); StatusStepKeeps(t, u);
      case Claim(w, id) => ClaimIsStatusStep(t, id); StatusStepKeeps(t, Claimed(t, id)); StatusStepKeeps(t, t);
      case Save(w, a, primary, values) =>
        if StageOf(s, w).Working? {
          SaveKeeps(t, StageOf(s, w).job, a, primary, values);
        } else {
          StatusStepKeeps(t, t);
        }
      case Complete(w, output, now) =>
        if StageOf(s, w).Patched? { EndIsStatusStep(t, StageOf(s, w).job, Completed, None, "", output, now); }
        StatusStepKeeps(t, u);
      case Fail(w, account, reason, now) =>
        if !StageOf(s, w).Idle? { EndIsStatusStep(t, StageOf(s, w).job, Failed, account, reason, "", now); }
        StatusStepKeeps(t, u);
      case Cancel(id, owner, viewAll, now) => CancelIsStatusStep(t, id, owner, viewAll, now); StatusStepKeeps(t, u);
      case Expire(id, now) => ClearIsStatusStep(t, id, now); StatusStepKeeps(t, u);
      case _ => StatusStepKeeps(t, t);
    }
  }

  lemma PageAdvances(rows: Rows, page: seq<AccountId>, after: AccountId, results: map<AccountId, Values>)
    requires IsPage(page, DoneIn(rows), after, PAGE) && page != [] && ReadUpTo(rows, after, results)
    ensures ReadUpTo(rows, page[|page| - 1], results + Collected(rows, page))
  {
    var last := page[|page| - 1];
    forall a | a in Stored(rows) && a <= last ensures a in results + Collected(rows, page) {
      assert a in DoneIn(rows);
      if a > after {
        assert a in page;
      }
    }
  }

  /** Keyset paging ends with exactly the stored values. */
  lemma PagesExhaust(rows: Rows, after: AccountId, results: map<AccountId, Values>)
    requires IsPage([], DoneIn(rows), after, PAGE) && ReadUpTo(rows, after, results)
    ensures results == Stored(rows)
  {
    EmptyPage(DoneIn(rows), after, PAGE);
    forall a | a in Stored(rows) ensures a in results {
      assert a in DoneIn(rows);
    }
  }

  lemma NothingBelowZero(rows: Rows)
    requires 0 !in rows
    ensures ReadUpTo(rows, 0, map[])
  {
  }

  /** The one worker an event moves reaches a sound stage. */
  lemma MovedStage(s: System, e: Event, w: Worker)
    requires Inv(s) && w in Apply(s, e).workers
    ensures SoundStage(s.tables, Apply(s, e).workers[w]) ||
            (e.Claim? && Apply(s, e).workers[w] == Working(e.id) && e.id in s.tables.jobs)
  {
    if e.ReadPage? && e.worker == w {
      match StageOf(s, w) {
        case Checked(id) => NothingBelowZero(s.tables.rows[id]);
        case Reading(id, after, results) =>
          if IsPage(e.page, DoneIn(s.tables.rows[id]), after, PAGE) {
            if e.page == [] { PagesExhaust(s.tables.rows[id], after, results); }
            else { PageAdvances(s.tables.rows[id], e.page, after, results); }
          }
        case _ =>
      }
    }
    if e.CheckComplete? && e.worker == w && StageOf(s, w).Working? && Apply(s, e).workers[w].Checked? {
      var rows := s.tables.rows[StageOf(s, w).job];
      forall a | a in rows.Keys ensures a in DoneIn(rows) {
        assert a !in PendingIn(rows);
      }
    }
  }

  ghost predicate IsCompleted(t: Tables, id: JobId) {
    id in t.jobs && t.jobs[id].status.Completed?
  }

  /** Only the last event of a worker that has patched its output makes a job COMPLETED. */
  lemma OnlyCompleteCompletes(s: System, e: Event, id: JobId)
    requires !IsCompleted(s.tables, id)
    ensures IsCompleted(Apply(s, e).tables, id) ==>
            e.Complete? && StageOf(s, e.worker).Patched? && StageOf(s, e.worker).job == id
  {
    var t := s.tables;
    match e {
      case Submit(i, job, accounts) => assert !IsCompleted(Created(t, i, job, accounts), id);
      case Recover => assert !IsCompleted(Recovered(t), id);
      case Claim(w, i) => assert !IsCompleted(Claimed(t, i), id);
      case Save(w, a, primary, values) =>
        if StageOf(s, w).Working? { assert !IsCompleted(Saved(t, StageOf(s, w).job, a, primary, values), id); }
      case Complete(w, output, now) =>
      case Fail(w, account, reason, now) =>
        if !StageOf(s, w).Idle? {
          assert !IsCompleted(Ended(t, StageOf(s, w).job, Failed, account, reason, "", now), id);
        }
      case Cancel(i, owner, viewAll, now) => assert !IsCompleted(CanceledBy(t, i, owner, viewAll, now), id);
      case Expire(i, now) => assert !IsCompleted(FilesCleared(t, i, now), id);
      case _ =>
    }
  }

  lemma CompletedMeansDone(s: System, e: Event, id: JobId)
    requires Inv(s) && IsCompleted(Apply(s, e).tables, id)
    ensures AllDone(Apply(s, e).tables, id)
  {
    TablesMoveOn(s, e);
    if !IsCompleted(s.tables, id) {
      OnlyCompleteCompletes(s, e, id);
      assert SoundStage(s.tables, StageOf(s, e.worker));
    }
    CompletedStays(s.tables, Apply(s, e).tables, id);
  }

  lemma InvStep(s: System, e: Event)
    requires Inv(s) && LegalEvent(e)
    ensures Inv(Apply(s, e))
  {
    var u := Apply(s, e);
    TablesMoveOn(s, e);
    forall w | w in u.workers ensures SoundStage(u.tables, u.workers[w]) {
      MovedStage(s, e, w);
      if SoundStage(s.tables, u.workers[w]) {
        StageStays(s.tables, u.tables, u.workers[w]);
      }
    }
    forall id | id in u.tables.jobs && u.tables.jobs[id].status.Completed? ensures AllDone(u.tables, id) {
      CompletedMeansDone(s, e, id);
    }
    EmptyStaysOut(s, e);
  }

  lemma EmptyStaysOut(s: System, e: Event)
    requires Consistent(s.tables) && NoEmptyAccount(s.tables) && LegalEvent(e)
    ensures NoEmptyAccount(Apply(s, e).tables)
  {
    TablesMoveOn(s, e);
    var t, u := s.tables, Apply(s, e).tables;
    forall id | id in u.rows ensures 0 !in u.rows[id] {
      if id in t.rows {
        assert RowsKept(t.rows[id], u.rows[id]);
      } else {
        OnlySubmitAdds(s, e, id);
      }
    }
  }

  lemma OnlySubmitAdds(s: System, e: Event, id: JobId)
    requires LegalEvent(e) && id in Apply(s, e).tables.rows && id !in s.tables.rows
    ensures 0 !in Apply(s, e).tables.rows[id]
  {
  }

  // ----- whole runs

  lemma {:induction false} InvRun(s: System, events: seq<Event>)
    requires Inv(s) && forall i :: 0 <= i < |events| ==> LegalEvent(events[i])
    ensures Inv(Run(s, events))
    decreases |events|
  {
    if events != [] {
      InvStep(s, events[0]);
      InvRun(Apply(s, events[0]), events[1..]);
    }
  }

  lemma {:induction false} LaterRun(s: System, events: seq<Event>)
    requires Consistent(s.tables)
    ensures Consistent(Run(s, events).tables) && Later(s.tables, Run(s, events).tables)
    decreases |events|
  {
    if events == [] {
      StatusStepKeeps(s.tables, s.tables);
    } else {
      TablesMoveOn(s, events[0]);
      LaterRun(Apply(s, events[0]), events[1..]);
      LaterTransitive(s.tables, Apply(s, events[0]).tables, Run(s, events).tables);
    }
  }

  /**
   In every reachable state, whatever the interleaving: the progress counter is the number of completed accounts, and a
   COMPLETED job has every account completed.
   */
  lemma {:induction false} ReachableIsSound(events: seq<Event>, id: JobId)
    requires forall i :: 0 <= i < |events| ==> LegalEvent(events[i])
    requires id in Run(START, events).tables.jobs
    ensures var t := Run(START, events).tables;
            && id in t.rows
            && t.jobs[id].processed == |DoneIn(t.rows[id])|
            && t.jobs[id].totalAccounts == |t.rows[id]|
            && (t.jobs[id].status.Completed? ==>
               DoneIn(t.rows[id]) == t.rows[id].Keys && t.jobs[id].processed == t.jobs[id].totalAccounts)
  {
    InvRun(START, events);
    var t := Run(START, events).tables;
    assert TrueCounts(t.jobs[id], t.rows[id]);
  }

  /** From any reachable state on, completed values are frozen and a terminal status is final. */
  lemma {:induction false} FinishedIsFinal(before: seq<Event>, after: seq<Event>, id: JobId, a: AccountId)
    requires forall i :: 0 <= i < |before| ==> LegalEvent(before[i])
    requires id in Run(START, before).tables.jobs
    ensures var t, u := Run(START, before).tables, Run(Run(START, before), after).tables;
            && id in t.rows && id in u.jobs && id in u.rows
            && (t.jobs[id].status.Terminal() ==> u.jobs[id].status == t.jobs[id].status)
            && (a in t.rows[id] && t.rows[id][a].Done? ==> a in u.rows[id] && u.rows[id][a] == t.rows[id][a])
            && t.rows[id].Keys == u.rows[id].Keys
  {
    InvRun(START, before);
    LaterRun(Run(START, before), after);
    var t, u := Run(START, before).tables, Run(Run(START, before), after).tables;
    assert RowsKept(t.rows[id], u.rows[id]);
  }

  /**
   What a worker has patched into its output is, then and whatever happens afterwards, the stored value of every account
   of its job, even if it had lost the lock meanwhile.
   */
  lemma {:induction false} OutputHoldsEveryValue(before: seq<Event>, w: Worker, after: seq<Event>)
    requires forall i :: 0 <= i < |before| ==> LegalEvent(before[i])
    requires StageOf(Run(START, before), w).Patched?
    ensures var s := Run(START, before);
            var stage, u := StageOf(s, w), Run(s, after).tables;
            && stage.job in u.rows
            && stage.results.Keys == u.rows[stage.job].Keys
            && stage.results == Stored(u.rows[stage.job])
  {
    InvRun(START, before);
    var s := Run(START, before);
    PatchedHolds(s, w);
    LaterRun(s, after);
    var id := StageOf(s, w).job;
    StoredKept(s.tables.rows[id], Run(s, after).tables.rows[id]);
  }

  // ----- where stored values come from

  lemma {:induction false} RunOneMore(s: System, events: seq<Event>, e: Event)
    ensures Run(s, events + [e]) == Apply(Run(s, events), e)
    decreases |events|
  {
    if events == [] {
      assert [] + [e] == [e] && [e][1..] == [];
      assert Run(s, [e]) == Run(Apply(s, e), [e][1..]);
    } else {
      assert (events + [e])[1..] == events[1..] + [e];
      RunOneMore(Apply(s, events[0]), events[1..], e);
    }
  }

  /** Event `i` of the run is a worker of this job saving these values for this account. */
  ghost predicate SavedAt(events: seq<Event>, i: nat, id: JobId, a: AccountId, primary: string, values: Values) {
    && i < |events| && events[i].Save? && events[i].account == a
    && events[i].primary == primary && events[i].values == values
    && StageOf(Run(START, events[..i]), events[i].worker) == Working(id)
  }

  ghost predicate HasDone(t: Tables, id: JobId, a: AccountId, primary: string, values: Values) {
    id in t.rows && a in t.rows[id] && t.rows[id][a] == Done(primary, values)
  }

  lemma CreateCompletesNone(t: Tables, id: JobId, job: Job, accounts: seq<AccountId>, j: JobId, a: AccountId,
                            primary: string, values: Values)
    requires HasDone(Created(t, id, job, accounts), j, a, primary, values)
    ensures HasDone(t, j, a, primary, values)
  {
  }

  lemma SaveCompletesOne(t: Tables, id: JobId, b: AccountId, q: string, v: Values, j: JobId, a: AccountId,
                         primary: string, values: Values)
    requires HasDone(Saved(t, id, b, q, v), j, a, primary, values)
    ensures HasDone(t, j, a, primary, values) || (j == id && a == b && primary == q && values == v)
  {
    SavedCompletes(t, id, b, q, v);
  }

  /** Only saving these values completes an account with them. */
  lemma OnlySaveStores(s: System, e: Event, id: JobId, a: AccountId, primary: string, values: Values)
    requires HasDone(Apply(s, e).tables, id, a, primary, values)
    ensures HasDone(s.tables, id, a, primary, values) ||
            (e.Save? && e.account == a && e.primary == primary && e.values == values &&
             StageOf(s, e.worker) == Working(id))
  {
    match e {
      case Submit(j, job, accounts) => CreateCompletesNone(s.tables, j, job, accounts, id, a, primary, values);
      case Save(w, b, q, v) =>
        if StageOf(s, w).Working? {
          SaveCompletesOne(s.tables, StageOf(s, w).job, b, q, v, id, a, primary, values);
        }
      case _ => assert Apply(s, e).tables.rows == s.tables.rows;
    }
  }

  /** Every stored value was saved, as it stands, by a worker of its job. */
  lemma {:induction false} StoredWasSaved(events: seq<Event>, id: JobId, a: AccountId, primary: string, values: Values)
    requires HasDone(Run(START, events).tables, id, a, primary, values)
    ensures exists i: nat :: SavedAt(events, i, id, a, primary, values)
    decreases |events|
  {
    if events != [] {
      var init, last := events[..|events| - 1], events[|events| - 1];
      assert events == init + [last];
      RunOneMore(START, init, last);
      OnlySaveStores(Run(START, init), last, id, a, primary, values);
      if HasDone(Run(START, init).tables, id, a, primary, values) {
        StoredWasSaved(init, id, a, primary, values);
        var i: nat :| SavedAt(init, i, id, a, primary, values);
        assert events[..i] == init[..i];
        assert SavedAt(events, i, id, a, primary, values);
      } else {
        assert SavedAt(events, |init|, id, a, primary, values);
      }
    }
  }

  /** What a worker patches into its output was saved for that account by a worker of its job. */
  lemma {:induction false} OutputWasSaved(events: seq<Event>, w: Worker, a: AccountId)
    requires forall i :: 0 <= i < |events| ==> LegalEvent(events[i])
    requires var stage := StageOf(Run(START, events), w); stage.Patched? && a in stage.results
    ensures var stage := StageOf(Run(START, events), w);
            exists i: nat, primary :: SavedAt(events, i, stage.job, a, primary, stage.results[a])
  {
    InvRun(START, events);
    var s := Run(START, events);
    PatchedHolds(s, w);
    var stage := StageOf(s, w);
    var row := s.tables.rows[stage.job][a];
    StoredWasSaved(events, stage.job, a, row.primary, stage.results[a]);
    var i: nat :| SavedAt(events, i, stage.job, a, row.primary, stage.results[a]);
  }

  lemma PatchedHolds(s: System, w: Worker)
    requires Inv(s) && StageOf(s, w).Patched?
    ensures var stage := StageOf(s, w);
            && stage.job in s.tables.rows
            && stage.results.Keys == s.tables.rows[stage.job].Keys == DoneIn(s.tables.rows[stage.job])
            && stage.results == Stored(s.tables.rows[stage.job])
  {
    assert SoundStage(s.tables, s.workers[w]);
  }

  // ----- a job can be completed

  lemma {:induction false} LeastKey(keys: set<AccountId>) returns (least: AccountId)
    requires keys != {}
    ensures least in keys && forall k :: k in keys ==> least <= k
  {
    var x :| x in keys;
    if keys == {x} {
      least := x;
    } else {
      var rest := LeastKey(keys - {x});
      least := if x < rest then x else rest;
      assert forall k :: k in keys ==> k == x || k in keys - {x};
    }
  }

  /** The keys that come next, as many as fit. */
  lemma {:induction false} PageExists(keys: set<AccountId>, after: AccountId, limit: nat) returns (page: seq<AccountId>)
    ensures IsPage(page, keys, after, limit)
    decreases limit
  {
    var above := set k | k in keys && k > after;
    if limit == 0 || above == {} {
      page := [];
      assert forall k :: k in keys && k > after ==> k in above;
    } else {
      var least := LeastKey(above);
      var rest := PageExists(keys, least, limit - 1);
      page := [least] + rest;
      forall k: AccountId | k in keys && k > after
        ensures k in page || (|page| == limit && (page != [] ==> page[|page| - 1] < k))
      {
        assert k in above;
      }
    }
  }

  function Unread(rows: Rows, after: AccountId): set<AccountId> {
    set a | a in DoneIn(rows) && a > after
  }

  lemma FewerUnread(rows: Rows, after: AccountId, page: seq<AccountId>)
    requires IsPage(page, DoneIn(rows), after, PAGE) && page != []
    ensures |Unread(rows, page[|page| - 1])| < |Unread(rows, after)|
  {
    var last := page[|page| - 1];
    assert last in Unread(rows, after) && last !in Unread(rows, last);
    assert Unread(rows, last) <= Unread(rows, after) - {last};
    Collections.SubsetSize(Unread(rows, last), Unread(rows, after) - {last});
  }

  lemma {:induction false} RunFirst(s: System, e: Event, events: seq<Event>)
    ensures Run(s, [e] + events) == Run(Apply(s, e), events)
  {
    assert ([e] + events)[1..] == events;
  }

  lemma {:induction false} RunBoth(s: System, a: seq<Event>, b: seq<Event>)
    ensures Run(s, a + b) == Run(Run(s, a), b)
    decreases |a|
  {
    if a == [] {
      assert a + b == b;
    } else {
      assert (a + b)[1..] == a[1..] + b;
      RunBoth(Apply(s, a[0]), a[1..], b);
    }
  }

  lemma {:induction false} CanReadAll(s: System, w: Worker, id: JobId, after: AccountId, results: map<AccountId,
                                      Values>)
    returns (events: seq<Event>)
    requires StageOf(s, w) == Reading(id, after, results) && id in s.tables.rows
    requires ReadUpTo(s.tables.rows[id], after, results)
    ensures Run(s, events) == Move(s, w, Patched(id, Stored(s.tables.rows[id])))
    decreases |Unread(s.tables.rows[id], after)|
  {
    var rows := s.tables.rows[id];
    var page := PageExists(DoneIn(rows), after, PAGE);
    var next := Apply(s, ReadPage(w, page));
    if page == [] {
      PagesExhaust(rows, after, results);
      RunFirst(s, ReadPage(w, page), []);
      events := [ReadPage(w, page)];
      assert [ReadPage(w, page)] + [] == events && Run(next, []) == next;
    } else {
      PageAdvances(rows, page, after, results);
      FewerUnread(rows, after, page);
      var rest := CanReadAll(next, w, id, page[|page| - 1], results + Collected(rows, page));
      RunFirst(s, ReadPage(w, page), rest);
      events := [ReadPage(w, page)] + rest;
      assert Move(next, w, Patched(id, Stored(rows))) == Move(s, w, Patched(id, Stored(rows)));
    }
  }

  /** The rows with every pending account completed. */
  function Filled(rows: Rows, primary: string, fetched: AccountId -> Values): Rows {
    map a | a in rows :: if rows[a].Pending? then Done(primary, fetched(a)) else rows[a]
  }

  /** The job after its pending accounts have been saved. */
  ghost predicate AllSaved(s: System, u: System, w: Worker, id: JobId, primary: string, fetched: AccountId -> Values) {
    && Running(u.tables, id) && id in s.tables.rows && id in u.tables.rows && StageOf(u, w) == Working(id)
    && u.tables.rows[id] == Filled(s.tables.rows[id], primary, fetched)
  }

  lemma {:induction false} CanSaveAll(s: System, w: Worker, id: JobId, primary: string, fetched: AccountId -> Values)
    returns (events: seq<Event>)
    requires StageOf(s, w) == Working(id) && Running(s.tables, id) && id in s.tables.rows
    ensures AllSaved(s, Run(s, events), w, id, primary, fetched)
    decreases |PendingIn(s.tables.rows[id])|
  {
    var rows := s.tables.rows[id];
    if PendingIn(rows) == {} {
      events := [];
      assert forall a :: a in rows ==> a !in PendingIn(rows);
      assert Filled(rows, primary, fetched) == rows;
    } else {
      var a :| a in PendingIn(rows);
      var e := Save(w, a, primary, fetched(a));
      var next := Apply(s, e);
      OnePending(s, w, id, a, primary, fetched);
      var rest := CanSaveAll(next, w, id, primary, fetched);
      RunFirst(s, e, rest);
      events := [e] + rest;
    }
  }

  lemma OnePending(s: System, w: Worker, id: JobId, a: AccountId, primary: string, fetched: AccountId -> Values)
    requires StageOf(s, w) == Working(id) && Running(s.tables, id) && id in s.tables.rows
    requires a in PendingIn(s.tables.rows[id])
    ensures var next := Apply(s, Save(w, a, primary, fetched(a)));
            && StageOf(next, w) == Working(id) && Running(next.tables, id) && id in next.tables.rows
            && |PendingIn(next.tables.rows[id])| < |PendingIn(s.tables.rows[id])|
            && Filled(next.tables.rows[id], primary, fetched) == Filled(s.tables.rows[id], primary, fetched)
  {
    var next := Apply(s, Save(w, a, primary, fetched(a)));
    SavedCompletes(s.tables, id, a, primary, fetched(a));
    assert PendingIn(next.tables.rows[id]) == PendingIn(s.tables.rows[id]) - {a};
  }

  /** Once every account is completed, the worker that holds the job can complete it with what is stored. */
  lemma {:induction false} CanFinish(s: System, w: Worker, id: JobId, output: string, now: int)
    returns (events: seq<Event>)
    requires StageOf(s, w) == Working(id) && Running(s.tables, id) && id in s.tables.rows
    requires PendingIn(s.tables.rows[id]) == {} && 0 !in s.tables.rows[id]
    ensures var u := Run(s, events).tables;
            && u.rows == s.tables.rows && id in u.jobs
            && u.jobs[id] == s.tables.jobs[id].(status := Completed, failedAccount := None, failureReason := "",
                                                outputFile := output, expiresAt := now + 7)
  {
    var checked := Move(s, w, Checked(id));
    assert Apply(s, CheckComplete(w)) == checked;
    var reading := Move(checked, w, Reading(id, 0, map[]));
    assert Apply(checked, ReadPage(w, [])) == reading;
    NothingBelowZero(s.tables.rows[id]);
    var pages := CanReadAll(reading, w, id, 0, map[]);
    var patched := Run(reading, pages);
    events := [CheckComplete(w)] + ([ReadPage(w, [])] + (pages + [Complete(w, output, now)]));
    RunFirst(s, CheckComplete(w), [ReadPage(w, [])] + (pages + [Complete(w, output, now)]));
    RunFirst(checked, ReadPage(w, []), pages + [Complete(w, output, now)]);
    RunOneMore(reading, pages, Complete(w, output, now));
  }

  /**
   From every reachable state an idle worker can take a queued job to COMPLETED: it saves what was fetched for every
   pending account, keeps what was completed before, and records its output.
   */
  lemma {:induction false} QueuedJobCanComplete(before: seq<Event>, w: Worker, id: JobId, primary: string,
                                                fetched: AccountId -> Values, output: string, now: int)
    returns (events: seq<Event>)
    requires forall i :: 0 <= i < |before| ==> LegalEvent(before[i])
    requires var s := Run(START, before);
             id in s.tables.jobs && s.tables.jobs[id].status == Queued && StageOf(s, w) == Idle
    ensures var s, u := Run(START, before).tables, Run(START, before + events).tables;
            && id in s.rows && id in u.rows && id in u.jobs
            && u.jobs[id].status == Completed && u.jobs[id].outputFile == output
            && u.jobs[id].failedAccount == None && u.jobs[id].failureReason == ""
            && u.rows[id].Keys == s.rows[id].Keys
            && forall a :: a in s.rows[id] ==>
                 u.rows[id][a] == if s.rows[id][a] == Pending then Done(primary, fetched(a)) else s.rows[id][a]
  {
    InvRun(START, before);
    var s := Run(START, before);
    var claimed := Apply(s, Claim(w, id));
    var saves := CanSaveAll(claimed, w, id, primary, fetched);
    var saved := Run(claimed, saves);
    assert PendingIn(saved.tables.rows[id]) == {};
    var ends := CanFinish(saved, w, id, output, now);
    events := [Claim(w, id)] + (saves + ends);
    RunBoth(START, before, events);
    RunFirst(s, Claim(w, id), saves + ends);
    RunBoth(claimed, saves, ends);
  }

  /** A worker that fails ends its job with the account and the reason; one that lost the job changes nothing. */
  lemma FailureIsRecorded(s: System, w: Worker, account: Option<AccountId>, reason: string, now: int)
    requires !StageOf(s, w).Idle?
    ensures var id, u := StageOf(s, w).job, Apply(s, Fail(w, account, reason, now));
            && StageOf(u, w) == Idle && u.tables.rows == s.tables.rows
            && (Running(s.tables, id) ==>
                  id in u.tables.jobs && u.tables.jobs[id] ==
                    s.tables.jobs[id].(status := Failed, failedAccount := account, failureReason := reason,
                                       outputFile := "", expiresAt := now + 7))
            && (!Running(s.tables, id) ==> u.tables == s.tables)
  {
  }
}
