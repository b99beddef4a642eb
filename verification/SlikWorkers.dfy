/**
 The worker pool of one SLIK run, held by the one lock holder: a producer pages pending accounts into an unbuffered
 channel, workers save one account at a time, and the first failure cancels the shared context.
 */
module SlikWorkers {
  import opened Wrappers
  import Collections
  import opened SlikStore

  /**
   A worker waiting on the channel, processing an account, inside `fail` before and after its context check, or gone.
   */
  datatype WorkerState =
    | Ready
    | Busy(account: AccountId)
    | Failing(account: AccountId)
    | Recording(account: AccountId)
    | Exited

  predicate Active(w: WorkerState) {
    w.Busy? || w.Failing? || w.Recording?
  }

  /** The producer asks for a page, offers the accounts of a page one by one, or has closed the channel. */
  datatype Producer = Fetching | Sending(page: seq<AccountId>) | Closed

  datatype Pool = Pool(
    rows: Rows,
    running: bool,                 // the job row is still PROCESSING
    after: AccountId,
    producer: Producer,
    workers: seq<WorkerState>,
    cancelled: bool,               // the run's context
    failure: Option<AccountId>)    // first reported failure; 0 stands for the producer's own ''

  const PAGE := 128

  datatype Event =
    | Fetch(page: seq<AccountId>)
    | FetchFails
    | StopProducing
    | Hand(worker: nat)
    | Skip(worker: nat)
    | SaveOk(worker: nat, primary: string, values: Values)
    | AccountFails(worker: nat)
    | EnterFail(worker: nat)
    | RecordFailure(worker: nat)
    | Drain(worker: nat)
    | CancelContext
    | StopJob

  function WorkerAt(p: Pool, w: nat): WorkerState {
    if w < |p.workers| then p.workers[w] else Exited
  }

  ghost predicate Enabled(p: Pool, e: Event) {
    match e
    case Fetch(page) => p.producer.Fetching? && !p.cancelled && IsPage(page, PendingIn(p.rows), p.after, PAGE)
    case FetchFails => p.producer.Fetching? && !p.cancelled
    case StopProducing => !p.producer.Closed? && p.cancelled
    case Hand(w) => p.producer.Sending? && p.producer.page != [] && WorkerAt(p, w).Ready?
    case Skip(w) => WorkerAt(p, w).Busy? && p.cancelled
    case SaveOk(w, primary, values) => WorkerAt(p, w).Busy? && p.running && WorkerAt(p, w).account in PendingIn(p.rows)
    case AccountFails(w) => WorkerAt(p, w).Busy?
    case EnterFail(w) => WorkerAt(p, w).Failing?
    case RecordFailure(w) => WorkerAt(p, w).Recording?
    case Drain(w) => WorkerAt(p, w).Ready? && p.producer.Closed?
    case CancelContext => true
    case StopJob => true
  }

  function Set(p: Pool, w: nat, state: WorkerState): Pool {
    if w < |p.workers| then p.(workers := p.workers[w := state]) else p
  }

  /** `first.Do`: only the first failure is recorded; every failure cancels. */
  function Failed(p: Pool, a: AccountId): Pool {
    p.(failure := if p.failure.None? then Some(a) else p.failure, cancelled := true)
  }

  function Sent(page: seq<AccountId>): Producer
    requires page != []
  {
    if |page| == 1 then Fetching else Sending(page[1..])
  }

  ghost function Apply(p: Pool, e: Event): Pool
    requires Enabled(p, e)
  {
    match e
    case Fetch(page) => p.(producer := if page == [] then Closed else Sending(page))
    case FetchFails => Failed(p, 0).(producer := Closed)
    case StopProducing => p.(producer := Closed)
    case Hand(w) => Set(p, w, Busy(p.producer.page[0])).(after := p.producer.page[0], producer := Sent(p.producer.page))
    case Skip(w) => Set(p, w, Exited)
    case SaveOk(w, primary, values) =>
      Set(p, w, Ready).(rows := Checkpointed(p.rows, p.workers[w].account, primary, values))
    case AccountFails(w) => Set(p, w, Failing(p.workers[w].account))
    case EnterFail(w) => if p.cancelled then Set(p, w, Exited) else Set(p, w, Recording(p.workers[w].account))
    case RecordFailure(w) => Failed(Set(p, w, Exited), p.workers[w].account)
    case Drain(w) => Set(p, w, Exited)
    case CancelContext => p.(cancelled := true)
    case StopJob => p.(running := false)
  }

  ghost predicate ValidRun(p: Pool, events: seq<Event>)
    decreases |events|
  {
    events == [] || (Enabled(p, events[0]) && ValidRun(Apply(p, events[0]), events[1..]))
  }

  ghost function Run(p: Pool, events: seq<Event>): Pool
    requires ValidRun(p, events)
    decreases |events|
  {
    if events == [] then p else Run(Apply(p, events[0]), events[1..])
  }

  /** A run starts at the front of the account table with every worker waiting. */
  ghost predicate Starts(p: Pool) {
    && p.after == 0 && 0 !in p.rows && p.producer.Fetching? && p.failure.None? && !p.cancelled
    && |p.workers| > 0 && (forall w :: 0 <= w < |p.workers| ==> p.workers[w].Ready?)
  }

  ghost predicate Finished(p: Pool) {
    p.producer.Closed? && forall w :: 0 <= w < |p.workers| ==> p.workers[w].Exited?
  }

  // ----- the invariant

  ghost predicate OneHolderEach(workers: seq<WorkerState>) {
    forall v, w :: 0 <= v < w < |workers| && Active(workers[v]) && Active(workers[w]) ==>
        workers[v].account != workers[w].account
  }

  ghost predicate InFlight(p: Pool, a: AccountId) {
    exists w :: 0 <= w < |p.workers| && Active(p.workers[w]) && p.workers[w].account == a
  }

  /** What a worker holds was handed out, is still pending, and is held by no one else. */
  ghost predicate SoundWorkers(p: Pool) {
    && (forall w :: 0 <= w < |p.workers| && Active(p.workers[w]) ==>
          p.workers[w].account <= p.after && p.workers[w].account in PendingIn(p.rows))
    && OneHolderEach(p.workers)
    && (forall w :: 0 <= w < |p.workers| && p.workers[w].Exited? ==> p.cancelled || p.producer.Closed?)
  }

  /** The page on offer lists the next pending accounts; nothing between the cursor and its end is missing. */
  ghost predicate SoundProducer(p: Pool) {
    match p.producer
    case Fetching => true
    case Sending(page) =>
      && page != []
      && (forall i, j :: 0 <= i < j < |page| ==> page[i] < page[j])
      && (forall i :: 0 <= i < |page| ==> page[i] > p.after && page[i] in PendingIn(p.rows))
      && (forall a: AccountId :: a in PendingIn(p.rows) && a > p.after ==> a in page || a > page[|page| - 1])
    case Closed => !p.cancelled ==> forall a: AccountId :: a in PendingIn(p.rows) ==> a <= p.after
  }

  ghost predicate Inv(p: Pool) {
    && SoundWorkers(p) && SoundProducer(p)
    && (p.failure.Some? ==> p.cancelled)
    && (!p.cancelled ==> forall a: AccountId :: a in PendingIn(p.rows) && a <= p.after ==> InFlight(p, a))
  }

  lemma StartSound(p: Pool)
    requires Starts(p)
    ensures Inv(p)
  {
  }

  // ----- every event keeps it

  /** Changing worker `w` leaves what the others hold in flight. */
  lemma OthersStay(p: Pool, w: nat, state: WorkerState, a: AccountId)
    requires w < |p.workers| && InFlight(p, a) && (Active(p.workers[w]) ==> p.workers[w].account != a)
    ensures InFlight(Set(p, w, state), a)
  {
    var v :| 0 <= v < |p.workers| && Active(p.workers[v]) && p.workers[v].account == a;
    assert Set(p, w, state).workers[v] == p.workers[v];
  }

  lemma SameHolding(p: Pool, w: nat, state: WorkerState)
    requires w < |p.workers| && Active(p.workers[w]) && Active(state) && state.account == p.workers[w].account
    requires Inv(p)
    ensures Inv(Set(p, w, state))
  {
    var q := Set(p, w, state);
    forall a: AccountId | InFlight(p, a) ensures InFlight(q, a) {
      if p.workers[w].account == a { assert q.workers[w] == state; } else { OthersStay(p, w, state, a); }
    }
    assert forall v :: 0 <= v < |p.workers| && v != w ==> q.workers[v] == p.workers[v];
  }

  lemma LeaveCancelled(p: Pool, w: nat)
    requires w < |p.workers| && p.cancelled && Inv(p)
    ensures Inv(Set(p, w, Exited))
  {
    var q := Set(p, w, Exited);
    assert forall v :: 0 <= v < |p.workers| && v != w ==> q.workers[v] == p.workers[v];
  }

  lemma CancelKeeps(p: Pool, q: Pool)
    requires Inv(p) && q == p.(cancelled := true, failure := q.failure)
    ensures Inv(q)
  {
  }

  lemma HandKeeps(p: Pool, w: nat)
    requires Inv(p) && Enabled(p, Hand(w))
    ensures Inv(Apply(p, Hand(w)))
  {
    HandWorkers(p, w);
    HandProducer(p, w);
    var page, q := p.producer.page, Apply(p, Hand(w));
    if !p.cancelled {
      forall a: AccountId | a in PendingIn(q.rows) && a <= q.after ensures InFlight(q, a) {
        if a == page[0] {
          assert q.workers[w] == Busy(a);
        } else {
          assert a <= p.after;
          assert InFlight(p, a);
          OthersStay(p, w, Busy(page[0]), a);
        }
      }
    }
  }

  lemma HandWorkers(p: Pool, w: nat)
    requires Inv(p) && Enabled(p, Hand(w))
    ensures SoundWorkers(Apply(p, Hand(w)))
  {
    var q := Apply(p, Hand(w));
    assert q.workers[w] == Busy(p.producer.page[0]) && p.producer.page[0] > p.after;
    assert forall v :: 0 <= v < |p.workers| && v != w ==> q.workers[v] == p.workers[v];
  }

  lemma InRest(page: seq<AccountId>, a: AccountId)
    requires a in page && a != page[0]
    ensures a in page[1..]
  {
    var i :| 0 <= i < |page| && page[i] == a;
    assert page[1..][i - 1] == a;
  }

  lemma HandProducer(p: Pool, w: nat)
    requires Inv(p) && Enabled(p, Hand(w))
    ensures SoundProducer(Apply(p, Hand(w)))
  {
    var page, q := p.producer.page, Apply(p, Hand(w));
    if |page| > 1 {
      var rest := page[1..];
      assert q.producer == Sending(rest) && rest[|rest| - 1] == page[|page| - 1];
      forall a: AccountId | a in PendingIn(q.rows) && a > q.after ensures a in rest || a > rest[|rest| - 1] {
        if a in page { InRest(page, a); }
      }
    }
  }

  lemma SaveStepKeeps(p: Pool, w: nat, primary: string, values: Values)
    requires Inv(p) && Enabled(p, SaveOk(w, primary, values))
    ensures Inv(Apply(p, SaveOk(w, primary, values)))
  {
    var q, done := Apply(p, SaveOk(w, primary, values)), p.workers[w].account;
    assert PendingIn(q.rows) == PendingIn(p.rows) - {done};
    assert forall v :: 0 <= v < |p.workers| && v != w ==> q.workers[v] == p.workers[v];
    forall a: AccountId | a in PendingIn(q.rows) && InFlight(p, a) ensures InFlight(q, a) {
      OthersStay(p, w, Ready, a);
      assert q.workers == Set(p, w, Ready).workers;
    }
  }

  lemma DrainKeeps(p: Pool, w: nat)
    requires Inv(p) && Enabled(p, Drain(w))
    ensures Inv(Apply(p, Drain(w)))
  {
    var q := Apply(p, Drain(w));
    forall a: AccountId | InFlight(p, a) ensures InFlight(q, a) {
      OthersStay(p, w, Exited, a);
    }
    assert forall v :: 0 <= v < |p.workers| && v != w ==> q.workers[v] == p.workers[v];
  }

  lemma FetchKeeps(p: Pool, page: seq<AccountId>)
    requires Inv(p) && Enabled(p, Fetch(page))
    ensures Inv(Apply(p, Fetch(page)))
  {
    var q := Apply(p, Fetch(page));
    assert q.workers == p.workers && q.rows == p.rows;
    assert forall a: AccountId :: InFlight(p, a) ==> InFlight(q, a);
    assert p.cancelled == q.cancelled == false;
  }

  lemma InvStep(p: Pool, e: Event)
    requires Inv(p) && Enabled(p, e)
    ensures Inv(Apply(p, e))
  {
    match e {
      case Fetch(page) => FetchKeeps(p, page);
      case FetchFails => CancelKeeps(p, Failed(p, 0));
      case StopProducing =>
      case Hand(w) => HandKeeps(p, w);
      case Skip(w) => LeaveCancelled(p, w);
      case SaveOk(w, primary, values) => SaveStepKeeps(p, w, primary, values);
      case AccountFails(w) => SameHolding(p, w, Failing(p.workers[w].account));
      case EnterFail(w) =>
        if p.cancelled { LeaveCancelled(p, w); } else { SameHolding(p, w, Recording(p.workers[w].account)); }
      case RecordFailure(w) =>
        CancelKeeps(p, Failed(p, p.workers[w].account));
        LeaveCancelled(Failed(p, p.workers[w].account), w);
      case Drain(w) => DrainKeeps(p, w);
      case CancelContext => CancelKeeps(p, p.(cancelled := true));
      case StopJob => StopKeeps(p);
    }
  }

  lemma StopKeeps(p: Pool)
    requires Inv(p)
    ensures Inv(p.(running := false))
  {
    assert forall a: AccountId :: InFlight(p, a) ==> InFlight(p.(running := false), a);
  }

  lemma {:induction false} InvRun(p: Pool, events: seq<Event>)
    requires Inv(p) && ValidRun(p, events)
    ensures Inv(Run(p, events))
    decreases |events|
  {
    if events != [] {
      InvStep(p, events[0]);
      InvRun(Apply(p, events[0]), events[1..]);
    }
  }

  // ----- what a run achieves

  /**
   A run that ends without cancellation (hence without failure) has saved every account, so `CheckComplete` passes.
   */
  lemma {:induction false} CleanRunSavesAll(p: Pool, events: seq<Event>)
    requires Starts(p) && ValidRun(p, events)
    ensures var q := Run(p, events);
            Finished(q) && !q.cancelled ==> q.failure.None? && PendingIn(q.rows) == {}
  {
    StartSound(p);
    InvRun(p, events);
    var q := Run(p, events);
    if Finished(q) && !q.cancelled {
      assert forall a: AccountId :: a in PendingIn(q.rows) ==> InFlight(q, a);
      assert forall a: AccountId :: !InFlight(q, a);
    }
  }

  /** A worker is gone only after cancellation or after the channel was closed; a reported failure always cancelled. */
  lemma {:induction false} EarlyExitMeansCancelled(p: Pool, events: seq<Event>, w: nat)
    requires Starts(p) && ValidRun(p, events)
    ensures var q := Run(p, events);
            (w < |q.workers| && q.workers[w].Exited? && !q.producer.Closed? ==> q.cancelled) &&
                (q.failure.Some? ==> q.cancelled)
  {
    StartSound(p);
    InvRun(p, events);
  }

  /** The accounts handed to workers over a run, in order. */
  ghost function HandedOver(p: Pool, events: seq<Event>): seq<AccountId>
    requires ValidRun(p, events)
    decreases |events|
  {
    if events == [] then []
    else
      (if events[0].Hand? then [p.producer.page[0]] else []) + HandedOver(Apply(p, events[0]), events[1..])
  }

  lemma CursorMoves(p: Pool, e: Event)
    requires Inv(p) && Enabled(p, e)
    ensures Apply(p, e).after >= p.after
    ensures e.Hand? ==> Apply(p, e).after == p.producer.page[0] > p.after
  {
  }

  lemma {:induction false} HandedRises(p: Pool, events: seq<Event>)
    requires Inv(p) && ValidRun(p, events)
    ensures forall i :: 0 <= i < |HandedOver(p, events)| ==> HandedOver(p, events)[i] > p.after
    ensures forall i, j :: 0 <= i < j < |HandedOver(p, events)| ==> HandedOver(p, events)[i] < HandedOver(p, events)[j]
    decreases |events|
  {
    if events != [] {
      InvStep(p, events[0]);
      CursorMoves(p, events[0]);
      HandedRises(Apply(p, events[0]), events[1..]);
    }
  }

  /** Keyset paging hands no account to two workers, and none twice, even while earlier ones are still being saved. */
  lemma {:induction false} HandedOnce(p: Pool, events: seq<Event>)
    requires Starts(p) && ValidRun(p, events)
    ensures var handed := HandedOver(p, events);
            forall i, j :: 0 <= i < j < |handed| ==> handed[i] < handed[j]
    ensures var q := Run(p, events);
            OneHolderEach(q.workers)
  {
    StartSound(p);
    HandedRises(p, events);
    InvRun(p, events);
  }

  // ----- it never gets stuck and always ends

  predicate Internal(e: Event) {
    !e.CancelContext? && !e.StopJob?
  }

  lemma {:induction false} LeastAbove(keys: set<AccountId>, after: AccountId) returns (least: AccountId)
    requires exists k: AccountId :: k in keys && k > after
    ensures least in keys && least > after && forall k: AccountId :: k in keys && k > after ==> least <= k
    decreases |keys|
  {
    var k: AccountId :| k in keys && k > after;
    if exists j: AccountId :: j in keys - {k} && j > after {
      var rest := LeastAbove(keys - {k}, after);
      least := if k <= rest then k else rest;
      forall j: AccountId | j in keys && j > after ensures least <= j {
        assert j == k || j in keys - {k};
      }
    } else {
      least := k;
      forall j: AccountId | j in keys && j > after ensures least <= j {
        assert j == k || j in keys - {k};
      }
    }
  }

  /** The page query always has an answer. */
  lemma {:induction false} PageExists(keys: set<AccountId>, after: AccountId, limit: nat) returns (page: seq<AccountId>)
    ensures IsPage(page, keys, after, limit)
    decreases limit
  {
    if limit == 0 || forall k: AccountId :: k in keys ==> k <= after {
      page := [];
    } else {
      var least := LeastAbove(keys, after);
      var rest := PageExists(keys, least, limit - 1);
      page := [least] + rest;
      PageGrows(keys, after, least, rest, limit);
    }
  }

  lemma PageGrows(keys: set<AccountId>, after: AccountId, least: AccountId, rest: seq<AccountId>, limit: nat)
    requires limit > 0 && IsPage(rest, keys, least, limit - 1)
    requires least in keys && least > after && forall k: AccountId :: k in keys && k > after ==> least <= k
    ensures IsPage([least] + rest, keys, after, limit)
  {
    var page := [least] + rest;
    assert rest != [] ==> page[|page| - 1] == rest[|rest| - 1];
    forall k: AccountId | k in keys && k > after && k !in page ensures |page| == limit && page[|page| - 1] < k {
      assert k != page[0];
      assert forall i :: 0 <= i < |rest| ==> page[i + 1] == rest[i];
      assert k > least && k !in rest;
    }
  }

  /** Until everything has finished, some step of the pool itself is possible: nobody waits forever. */
  lemma NeverStuck(p: Pool) returns (e: Event)
    requires Inv(p) && |p.workers| > 0 && !Finished(p)
    ensures Enabled(p, e) && Internal(e)
  {
    if exists w :: 0 <= w < |p.workers| && Active(p.workers[w]) {
      var w :| 0 <= w < |p.workers| && Active(p.workers[w]);
      e := if p.workers[w].Busy? then AccountFails(w)
           else if p.workers[w].Failing? then EnterFail(w)
           else RecordFailure(w);
    } else if p.cancelled && !p.producer.Closed? {
      e := StopProducing;
    } else if p.producer.Fetching? {
      var page := PageExists(PendingIn(p.rows), p.after, PAGE);
      e := Fetch(page);
    } else if p.producer.Sending? {
      assert !p.workers[0].Exited? && !Active(p.workers[0]);
      e := Hand(0);
    } else {
      var w :| 0 <= w < |p.workers| && !p.workers[w].Exited?;
      e := Drain(w);
    }
  }

  /** Pending accounts the producer has not handed out yet. */
  function Unsent(p: Pool): set<AccountId> {
    set a | a in PendingIn(p.rows) && a > p.after
  }

  function WorkerWeight(w: WorkerState): nat {
    match w
    case Busy(_) => 4
    case Failing(_) => 3
    case Recording(_) => 2
    case Ready => 1
    case Exited => 0
  }

  function Weight(workers: seq<WorkerState>): nat {
    if workers == [] then 0 else WorkerWeight(workers[0]) + Weight(workers[1..])
  }

  function ProducerWeight(producer: Producer): nat {
    match producer
    case Fetching => 2
    case Sending(_) => 1
    case Closed => 0
  }

  function Work(p: Pool): nat {
    5 * |Unsent(p)| + ProducerWeight(p.producer) + Weight(p.workers)
  }

  lemma {:induction false} WeightUpdate(workers: seq<WorkerState>, w: nat, state: WorkerState)
    requires w < |workers|
    ensures Weight(workers[w := state]) == Weight(workers) - WorkerWeight(workers[w]) + WorkerWeight(state)
  {
    if w > 0 {
      WeightUpdate(workers[1..], w - 1, state);
      assert workers[w := state][1..] == workers[1..][w - 1 := state];
    }
  }

  lemma HandShrinks(p: Pool, w: nat)
    requires Inv(p) && Enabled(p, Hand(w))
    ensures |Unsent(Apply(p, Hand(w)))| == |Unsent(p)| - 1
  {
    var page := p.producer.page;
    forall a: AccountId | a in Unsent(p) && a != page[0] ensures a > page[0] {
      if a in page {
        var i :| 0 <= i < |page| && page[i] == a;
      }
    }
    assert page[0] in Unsent(p);
    assert Unsent(Apply(p, Hand(w))) == Unsent(p) - {page[0]};
  }

  lemma SaveLeavesUnsent(p: Pool, w: nat, primary: string, values: Values)
    requires Inv(p) && Enabled(p, SaveOk(w, primary, values))
    ensures Unsent(Apply(p, SaveOk(w, primary, values))) == Unsent(p)
  {
    var q := Apply(p, SaveOk(w, primary, values));
    assert PendingIn(q.rows) == PendingIn(p.rows) - {p.workers[w].account};
  }

  /** Every step of the pool itself uses up work; outside events add none. */
  lemma WorkShrinks(p: Pool, e: Event)
    requires Inv(p) && Enabled(p, e)
    ensures if Internal(e) then Work(Apply(p, e)) < Work(p) else Work(Apply(p, e)) == Work(p)
  {
    if e.Hand? {
      HandWork(p, e.worker);
    } else if e.SaveOk? {
      SaveWork(p, e);
    } else if Leaves(e) {
      LeaveWork(p, e);
    } else if e.AccountFails? || e.EnterFail? {
      FailWork(p, e);
    } else {
      UnsentStays(p, e);
    }
  }

  predicate Leaves(e: Event) {
    e.Skip? || e.RecordFailure? || e.Drain?
  }

  lemma LeaveWork(p: Pool, e: Event)
    requires Enabled(p, e) && Leaves(e)
    ensures Work(Apply(p, e)) < Work(p)
  {
    WorkerMovesOn(p, e, e.worker, Exited);
  }

  lemma FailWork(p: Pool, e: Event)
    requires Enabled(p, e) && (e.AccountFails? || e.EnterFail?)
    ensures Work(Apply(p, e)) < Work(p)
  {
    var account := p.workers[e.worker].account;
    WorkerMovesOn(p, e, e.worker, if e.AccountFails? then Failing(account)
                                  else if p.cancelled then Exited
                                  else Recording(account));
  }

  lemma SaveWork(p: Pool, e: Event)
    requires Inv(p) && Enabled(p, e) && e.SaveOk?
    ensures Work(Apply(p, e)) < Work(p)
  {
    SaveLeavesUnsent(p, e.worker, e.primary, e.values);
    WeightUpdate(p.workers, e.worker, Ready);
  }

  lemma HandWork(p: Pool, w: nat)
    requires Inv(p) && Enabled(p, Hand(w))
    ensures Work(Apply(p, Hand(w))) < Work(p)
  {
    HandShrinks(p, w);
    WeightUpdate(p.workers, w, Busy(p.producer.page[0]));
  }

  /** A worker that takes a lighter state while nothing else moves uses up work. */
  lemma WorkerMovesOn(p: Pool, e: Event, w: nat, state: WorkerState)
    requires Enabled(p, e) && !e.Hand? && !e.SaveOk? && w < |p.workers| &&
             WorkerWeight(state) < WorkerWeight(p.workers[w])
    requires Apply(p, e).workers == p.workers[w := state] && Apply(p, e).producer == p.producer
    ensures Work(Apply(p, e)) < Work(p)
  {
    UnsentStays(p, e);
    WeightUpdate(p.workers, w, state);
  }

  lemma UnsentStays(p: Pool, e: Event)
    requires Enabled(p, e) && !e.Hand? && !e.SaveOk?
    ensures Unsent(Apply(p, e)) == Unsent(p)
  {
  }

  function InternalSteps(events: seq<Event>): nat {
    if events == [] then 0 else (if Internal(events[0]) then 1 else 0) + InternalSteps(events[1..])
  }

  /**
   With `NeverStuck`: every run of the pool reaches its end within a bound fixed by the accounts and workers it starts
   with.
   */
  lemma {:induction false} RunIsBounded(p: Pool, events: seq<Event>)
    requires Inv(p) && ValidRun(p, events)
    ensures InternalSteps(events) + Work(Run(p, events)) <= Work(p)
    decreases |events|
  {
    if events != [] {
      WorkShrinks(p, events[0]);
      InvStep(p, events[0]);
      RunIsBounded(Apply(p, events[0]), events[1..]);
    }
  }

  lemma {:induction false} SameCrew(p: Pool, events: seq<Event>)
    requires ValidRun(p, events)
    ensures |Run(p, events).workers| == |p.workers|
    decreases |events|
  {
    if events != [] {
      SameCrew(Apply(p, events[0]), events[1..]);
    }
  }

  lemma {:induction false} ReadyWeight(workers: seq<WorkerState>)
    requires forall w :: 0 <= w < |workers| ==> workers[w].Ready?
    ensures Weight(workers) == |workers|
  {
    if workers != [] {
      ReadyWeight(workers[1..]);
    }
  }

  /**
   The producer and the workers never block forever: after any run that is not over, the pool can take another step, and
   it has taken fewer than 5 per account plus one per worker plus two.
   */
  lemma RunEnds(p: Pool, events: seq<Event>) returns (next: Event)
    requires Starts(p) && ValidRun(p, events) && !Finished(Run(p, events))
    ensures Enabled(Run(p, events), next) && Internal(next)
    ensures InternalSteps(events) < 5 * |p.rows| + |p.workers| + 2
  {
    StartSound(p);
    InvRun(p, events);
    SameCrew(p, events);
    next := NeverStuck(Run(p, events));
    WorkShrinks(Run(p, events), next);
    RunIsBounded(p, events);
    ReadyWeight(p.workers);
    assert Unsent(p) <= p.rows.Keys;
    Collections.SubsetSize(Unsent(p), p.rows.Keys);
  }

  /** The failure recorded first stays, whatever fails later: that of the producer, or of the account a worker held. */
  lemma FirstFailureStays(p: Pool, e: Event)
    requires Enabled(p, e)
    ensures var q := Apply(p, e);
            && (p.failure.Some? ==> q.failure == p.failure)
            && (p.failure.None? && q.failure.Some? ==>
                  (e.FetchFails? && q.failure == Some(0)) ||
                  (e.RecordFailure? && q.failure == Some(p.workers[e.worker].account)))
  {
  }

  lemma {:induction false} FirstFailureIsFinal(p: Pool, events: seq<Event>)
    requires ValidRun(p, events) && p.failure.Some?
    ensures Run(p, events).failure == p.failure
    decreases |events|
  {
    if events != [] {
      FirstFailureStays(p, events[0]);
      FirstFailureIsFinal(Apply(p, events[0]), events[1..]);
    }
  }
}
