/**
 The SLIK job and account tables. Each SQL statement or transaction is one atomic step on the tables; `Repository` holds
 the tables and runs the steps. Accounts and job ids are their ranks in the column's collation order, 0 standing for ''.
 */
module SlikStore {
  import opened Wrappers

  type JobId = nat
  type AccountId = nat

  datatype Status = Queued | Processing | Completed | Failed | Canceled {
    predicate Terminal() {
      Completed? || Failed? || Canceled?
    }
  }

  datatype Values = Values(balance: string, rate: string)

  datatype Job = Job(
    owner: nat,
    createdAt: int,
    status: Status,
    totalAccounts: nat,
    processed: nat,
    failedAccount: Option<AccountId>,
    failureReason: string,
    inputFile: string,
    outputFile: string,
    expiresAt: int)

  datatype AccountRow = Pending | Done(primary: string, values: Values)

  /** The rows of one job, keyed by account: the account table's primary key is (job, account). */
  type Rows = map<AccountId, AccountRow>

  datatype Tables = Tables(jobs: map<JobId, Job>, rows: map<JobId, Rows>)

  // ----- reading the tables

  function RowsOf(t: Tables, id: JobId): Rows {
    if id in t.rows then t.rows[id] else map[]
  }

  function DoneIn(rows: Rows): set<AccountId> {
    set a | a in rows && rows[a].Done?
  }

  function PendingIn(rows: Rows): set<AccountId> {
    set a | a in rows && rows[a].Pending?
  }

  /** `ORDER BY account LIMIT n` over the keys above `after`. */
  ghost predicate IsPage(page: seq<AccountId>, keys: set<AccountId>, after: AccountId, limit: nat) {
    && |page| <= limit
    && (forall i, j :: 0 <= i < j < |page| ==> page[i] < page[j])
    && (forall i :: 0 <= i < |page| ==> page[i] in keys && page[i] > after)
    && (forall k: AccountId :: k in keys && k > after ==>
       k in page || (|page| == limit && (page != [] ==> page[|page| - 1] < k)))
  }

  /** Whatever the query returns, an empty page means no key is left, provided the limit is positive. */
  lemma EmptyPage(keys: set<AccountId>, after: AccountId, limit: nat)
    requires limit > 0 && IsPage([], keys, after, limit)
    ensures forall k: AccountId :: k in keys ==> k <= after
  {
  }

  // ----- the statements

  /** A duplicate job id or account violates a primary key and rolls the whole transaction back. */
  predicate CanCreate(t: Tables, id: JobId, accounts: seq<AccountId>) {
    id !in t.jobs && id !in t.rows && forall i, j :: 0 <= i < j < |accounts| ==> accounts[i] != accounts[j]
  }

  function NewRows(accounts: seq<AccountId>): Rows {
    map a | a in accounts :: Pending
  }

  /** The columns a fresh job starts with. */
  function NewJob(job: Job, total: nat): Job {
    job.(status := Queued, totalAccounts := total, processed := 0,
         failedAccount := None, failureReason := "", outputFile := "")
  }

  function Created(t: Tables, id: JobId, job: Job, accounts: seq<AccountId>): Tables {
    if CanCreate(t, id, accounts) then
      Tables(t.jobs[id := NewJob(job, |accounts|)], t.rows[id := NewRows(accounts)])
    else t
  }

  function Requeued(job: Job): Job {
    if job.status.Processing? then job.(status := Queued) else job
  }

  function Recovered(t: Tables): Tables {
    t.(jobs := map id | id in t.jobs :: Requeued(t.jobs[id]))
  }

  predicate Claimable(t: Tables, id: JobId) {
    id in t.jobs && t.jobs[id].status.Queued?
  }

  function Claimed(t: Tables, id: JobId): Tables {
    if Claimable(t, id) then t.(jobs := t.jobs[id := t.jobs[id].(status := Processing)]) else t
  }

  predicate Savable(t: Tables, id: JobId, a: AccountId) {
    Running(t, id) && a in PendingIn(RowsOf(t, id))
  }

  function Checkpointed(rows: Rows, a: AccountId, primary: string, values: Values): Rows {
    rows[a := Done(primary, values)]
  }

  function Saved(t: Tables, id: JobId, a: AccountId, primary: string, values: Values): Tables {
    if Savable(t, id, a) then
      Tables(t.jobs[id := t.jobs[id].(processed := t.jobs[id].processed + 1)],
             t.rows[id := Checkpointed(t.rows[id], a, primary, values)])
    else t
  }

  predicate Running(t: Tables, id: JobId) {
    id in t.jobs && t.jobs[id].status.Processing?
  }

  function Ended(t: Tables, id: JobId, status: Status, account: Option<AccountId>, reason: string, output: string,
                 now: int): Tables {
    if status.Terminal() && Running(t, id) then
      t.(jobs := t.jobs[id := t.jobs[id].(status := status, failedAccount := account, failureReason := reason,
                                          outputFile := output, expiresAt := now + 7)])
    else t
  }

  predicate Cancelable(t: Tables, id: JobId, owner: nat, viewAll: bool) {
    id in t.jobs && !t.jobs[id].status.Terminal() && (viewAll || t.jobs[id].owner == owner)
  }

  function CanceledBy(t: Tables, id: JobId, owner: nat, viewAll: bool, now: int): Tables {
    if Cancelable(t, id, owner, viewAll) then
      t.(jobs := t.jobs[id := t.jobs[id].(status := Canceled, expiresAt := now + 7)])
    else t
  }

  function FilesCleared(t: Tables, id: JobId, now: int): Tables {
    if id in t.jobs && t.jobs[id].expiresAt <= now && t.jobs[id].status.Terminal() then
      t.(jobs := t.jobs[id := t.jobs[id].(inputFile := "", outputFile := "")])
    else t
  }

  // ----- what a statement does, read off the tables before and after

  /** Nothing of any other job changes. */
  ghost predicate OthersKept(t: Tables, u: Tables, id: JobId) {
    && (forall j :: j != id ==> (j in u.jobs <==> j in t.jobs) && (j in u.rows <==> j in t.rows))
    && (forall j :: j != id && j in t.jobs ==> u.jobs[j] == t.jobs[j])
    && (forall j :: j != id && j in t.rows ==> u.rows[j] == t.rows[j])
  }

  /** The job is there as given, queued and with nothing processed, and every account waits. */
  ghost predicate Inserted(u: Tables, id: JobId, job: Job, accounts: seq<AccountId>) {
    && id in u.jobs && id in u.rows
    && u.jobs[id].status == Queued && u.jobs[id].totalAccounts == |accounts| && u.jobs[id].processed == 0
    && u.jobs[id].owner == job.owner && u.jobs[id].createdAt == job.createdAt && u.jobs[id].inputFile == job.inputFile
    && u.jobs[id].failedAccount == None && u.jobs[id].failureReason == "" && u.jobs[id].outputFile == ""
    && (forall a :: a in u.rows[id] <==> a in accounts)
    && (forall a :: a in u.rows[id] ==> u.rows[id][a] == Pending)
  }

  /** Of one job, the row of `a` goes from pending to exactly these values, and the counter goes up by one. */
  ghost predicate CompletedWith(t: Tables, u: Tables, id: JobId, a: AccountId, primary: string, values: Values) {
    && id in t.jobs && id in u.jobs && id in t.rows && id in u.rows
    && t.jobs[id].status == Processing && a in t.rows[id] && t.rows[id][a] == Pending
    && u.jobs[id] == t.jobs[id].(processed := t.jobs[id].processed + 1)
    && u.rows[id].Keys == t.rows[id].Keys && u.rows[id][a] == Done(primary, values)
    && forall b :: b in t.rows[id] && b != a ==> u.rows[id][b] == t.rows[id][b]
  }

  lemma SavedCompletes(t: Tables, id: JobId, a: AccountId, primary: string, values: Values)
    ensures var u := Saved(t, id, a, primary, values);
            && OthersKept(t, u, id)
            && if Running(t, id) && id in t.rows && a in t.rows[id] && t.rows[id][a].Pending?
               then CompletedWith(t, u, id, a, primary, values) else u == t
  {
  }

  class Repository {
    var jobs: map<JobId, Job>
    var rows: map<JobId, Rows>

    constructor ()
      ensures Snapshot() == Tables(map[], map[])
    {
      jobs, rows := map[], map[];
    }

    function Snapshot(): Tables
      reads this
    {
      Tables(jobs, rows)
    }

    /** Inserts the job and its accounts in one transaction; any key violation leaves both tables as they were. */
    method Create(id: JobId, job: Job, list: seq<AccountId>) returns (ok: bool)
      modifies this
      ensures ok <==> CanCreate(old(Snapshot()), id, list)
      ensures Snapshot() == Created(old(Snapshot()), id, job, list)
      ensures ok <==> id !in old(jobs) && id !in old(rows) && forall i, j :: 0 <= i < j < |list| ==> list[i] != list[j]
      ensures ok ==> Inserted(Snapshot(), id, job, list) && OthersKept(old(Snapshot()), Snapshot(), id)
      ensures !ok ==> Snapshot() == old(Snapshot())
    {
      if id in jobs || id in rows {
        return false;
      }
      var inserted: Rows := map[];
      for index := 0 to |list|
        invariant forall i, j :: 0 <= i < j < index ==> list[i] != list[j]
        invariant inserted == NewRows(list[..index])
      {
        if list[index] in inserted {
          assert list[index] in list[..index];
          return false;
        }
        assert forall i :: 0 <= i < index ==> list[i] in list[..index];
        assert list[..index + 1] == list[..index] + [list[index]];
        inserted := inserted[list[index] := Pending];
      }
      assert list[..|list|] == list;
      jobs := jobs[id := NewJob(job, |list|)];
      rows := rows[id := inserted];
      return true;
    }

    method Recover()
      modifies this`jobs
      ensures Snapshot() == Recovered(old(Snapshot()))
      ensures rows == old(rows) && jobs.Keys == old(jobs).Keys
      ensures forall id :: id in jobs ==>
                jobs[id] == old(jobs)[id].(status := if old(jobs)[id].status == Processing then Queued
                                                     else old(jobs)[id].status)
    {
      jobs := map id | id in jobs :: Requeued(jobs[id]);
    }

    /** The conditional UPDATE of `ClaimNext`; a false answer sends the caller back to its SELECT. */
    method Claim(id: JobId) returns (changed: bool)
      modifies this`jobs
      ensures changed <==> Claimable(old(Snapshot()), id)
      ensures Snapshot() == Claimed(old(Snapshot()), id)
      ensures changed <==> id in old(jobs) && old(jobs)[id].status == Queued
      ensures changed ==> id in jobs
      ensures changed ==> jobs[id] == old(jobs)[id].(status := Processing)
      ensures !changed ==> Snapshot() == old(Snapshot())
      ensures OthersKept(old(Snapshot()), Snapshot(), id) && rows == old(rows)
    {
      changed := id in jobs && jobs[id].status.Queued?;
      if changed {
        jobs := jobs[id := jobs[id].(status := Processing)];
      }
    }

    /** One transaction: the progress update happens first and is rolled back when the checkpoint is not pending. */
    method Save(id: JobId, a: AccountId, primary: string, values: Values) returns (ok: bool)
      modifies this
      ensures ok <==> Savable(old(Snapshot()), id, a)
      ensures Snapshot() == Saved(old(Snapshot()), id, a, primary, values)
      ensures ok <==> id in old(jobs) && old(jobs)[id].status == Processing && id in old(rows) && a in old(rows)[id] &&
                      old(rows)[id][a] == Pending
      ensures ok ==> CompletedWith(old(Snapshot()), Snapshot(), id, a, primary, values)
      ensures OthersKept(old(Snapshot()), Snapshot(), id)
      ensures !ok ==> Snapshot() == old(Snapshot())
    {
      var before := jobs;
      if id !in jobs || !jobs[id].status.Processing? {
        return false;
      }
      jobs := jobs[id := jobs[id].(processed := jobs[id].processed + 1)];
      if id !in rows || a !in rows[id] || !rows[id][a].Pending? {
        jobs := before;
        return false;
      }
      rows := rows[id := Checkpointed(rows[id], a, primary, values)];
      return true;
    }

    method Terminal(id: JobId, status: Status, account: Option<AccountId>, reason: string, output: string, now: int)
        returns (ok: bool)
      modifies this`jobs
      ensures ok <==> status.Terminal() && Running(old(Snapshot()), id)
      ensures Snapshot() == Ended(old(Snapshot()), id, status, account, reason, output, now)
      ensures ok <==> status in {Completed, Failed, Canceled} && id in old(jobs) && old(jobs)[id].status == Processing
      ensures ok ==> id in jobs && jobs[id] == old(jobs)[id].(status := status, failedAccount := account,
                       failureReason := reason, outputFile := output, expiresAt := now + 7)
      ensures !ok ==> Snapshot() == old(Snapshot())
      ensures OthersKept(old(Snapshot()), Snapshot(), id) && rows == old(rows)
    {
      if !status.Terminal() || id !in jobs || !jobs[id].status.Processing? {
        return false;
      }
      jobs := jobs[id := jobs[id].(status := status, failedAccount := account, failureReason := reason,
                                   outputFile := output, expiresAt := now + 7)];
      return true;
    }

    method Cancel(id: JobId, owner: nat, viewAll: bool, now: int) returns (found: bool)
      modifies this`jobs
      ensures found <==> id in old(jobs) && (viewAll || old(jobs)[id].owner == owner)
      ensures Snapshot() == CanceledBy(old(Snapshot()), id, owner, viewAll, now)
      ensures found && old(jobs)[id].status in {Queued, Processing} ==>
                id in jobs && jobs[id] == old(jobs)[id].(status := Canceled, expiresAt := now + 7)
      ensures !found || old(jobs)[id].status !in {Queued, Processing} ==> Snapshot() == old(Snapshot())
      ensures OthersKept(old(Snapshot()), Snapshot(), id) && rows == old(rows)
    {
      if id in jobs && (jobs[id].status.Queued? || jobs[id].status.Processing?) &&
          (viewAll || jobs[id].owner == owner) {
        jobs := jobs[id := jobs[id].(status := Canceled, expiresAt := now + 7)];
      }
      found := id in jobs && (viewAll || jobs[id].owner == owner);
    }

    method ClearFiles(id: JobId, now: int)
      modifies this`jobs
      ensures Snapshot() == FilesCleared(old(Snapshot()), id, now)
      ensures OthersKept(old(Snapshot()), Snapshot(), id) && rows == old(rows)
      ensures id in old(jobs) && old(jobs)[id].expiresAt <= now &&
              old(jobs)[id].status in {Completed, Failed, Canceled} ==>
                id in jobs && jobs[id] == old(jobs)[id].(inputFile := "", outputFile := "")
      ensures id in old(jobs) && !(old(jobs)[id].expiresAt <= now &&
                                   old(jobs)[id].status in {Completed, Failed, Canceled}) ==>
                Snapshot() == old(Snapshot())
    {
      if id in jobs && jobs[id].expiresAt <= now && jobs[id].status.Terminal() {
        jobs := jobs[id := jobs[id].(inputFile := "", outputFile := "")];
      }
    }
  }

  // ----- what the tables keep

  ghost predicate TrueCounts(job: Job, rows: Rows) {
    job.processed == |DoneIn(rows)| && job.totalAccounts == |rows|
  }

  /** Counters are true: `processed` counts completed checkpoints and `totalAccounts` counts rows. */
  ghost predicate Consistent(t: Tables) {
    t.rows.Keys == t.jobs.Keys && forall id :: id in t.jobs ==> TrueCounts(t.jobs[id], t.rows[id])
  }

  /** No row appears or disappears and no completed checkpoint changes. */
  ghost predicate RowsKept(before: Rows, after: Rows) {
    before.Keys == after.Keys && forall a :: a in before && before[a].Done? ==> after[a] == before[a]
  }

  /** `u` is a later state than `t`: nothing finished is ever undone. */
  ghost predicate Later(t: Tables, u: Tables) {
    && (forall id :: id in t.rows ==> id in u.rows && RowsKept(t.rows[id], u.rows[id]))
    && (forall id :: id in t.jobs ==>
       id in u.jobs && (t.jobs[id].status.Terminal() ==> u.jobs[id].status == t.jobs[id].status))
  }

  lemma LaterTransitive(t: Tables, u: Tables, w: Tables)
    requires Later(t, u) && Later(u, w)
    ensures Later(t, w)
  {
    forall id | id in t.rows ensures id in w.rows && RowsKept(t.rows[id], w.rows[id]) {
      assert RowsKept(t.rows[id], u.rows[id]) && RowsKept(u.rows[id], w.rows[id]);
    }
  }

  lemma OneMoreDone(rows: Rows, a: AccountId, primary: string, values: Values)
    requires a in rows && rows[a].Pending?
    ensures var after := Checkpointed(rows, a, primary, values);
            RowsKept(rows, after) && |after| == |rows| && |DoneIn(after)| == |DoneIn(rows)| + 1
  {
    var after := Checkpointed(rows, a, primary, values);
    assert after.Keys == rows.Keys;
    assert DoneIn(after) == DoneIn(rows) + {a};
  }

  lemma SaveKeeps(t: Tables, id: JobId, a: AccountId, primary: string, values: Values)
    requires Consistent(t)
    ensures Consistent(Saved(t, id, a, primary, values)) && Later(t, Saved(t, id, a, primary, values))
  {
    if Savable(t, id, a) {
      OneMoreDone(t.rows[id], a, primary, values);
    }
  }

  lemma {:induction false} NewRowsCount(accounts: seq<AccountId>)
    requires forall i, j :: 0 <= i < j < |accounts| ==> accounts[i] != accounts[j]
    ensures |NewRows(accounts)| == |accounts| && DoneIn(NewRows(accounts)) == {}
  {
    if accounts != [] {
      var init, last := accounts[..|accounts| - 1], accounts[|accounts| - 1];
      NewRowsCount(init);
      assert accounts == init + [last];
      assert NewRows(accounts) == NewRows(init)[last := Pending];
      assert last !in NewRows(init);
    }
  }

  lemma CreateKeeps(t: Tables, id: JobId, job: Job, accounts: seq<AccountId>)
    requires Consistent(t)
    ensures Consistent(Created(t, id, job, accounts)) && Later(t, Created(t, id, job, accounts))
  {
    if CanCreate(t, id, accounts) {
      NewRowsCount(accounts);
    }
  }

  /** A statement on the job table alone that keeps every counter and every terminal status. */
  ghost predicate StatusStep(t: Tables, u: Tables) {
    && u.rows == t.rows && u.jobs.Keys == t.jobs.Keys
    && forall id :: id in t.jobs ==>
         && u.jobs[id].processed == t.jobs[id].processed && u.jobs[id].totalAccounts == t.jobs[id].totalAccounts
         && (t.jobs[id].status.Terminal() ==> u.jobs[id].status == t.jobs[id].status)
  }

  lemma StatusStepKeeps(t: Tables, u: Tables)
    requires Consistent(t) && StatusStep(t, u)
    ensures Consistent(u) && Later(t, u)
  {
    assert forall id :: id in t.rows ==> RowsKept(t.rows[id], u.rows[id]);
  }

  lemma RecoverIsStatusStep(t: Tables)
    ensures StatusStep(t, Recovered(t))
  {
  }

  lemma ClaimIsStatusStep(t: Tables, id: JobId)
    ensures StatusStep(t, Claimed(t, id))
  {
  }

  lemma EndIsStatusStep(t: Tables, id: JobId, status: Status, account: Option<AccountId>, reason: string,
                        output: string, now: int)
    ensures StatusStep(t, Ended(t, id, status, account, reason, output, now))
  {
  }

  lemma CancelIsStatusStep(t: Tables, id: JobId, owner: nat, viewAll: bool, now: int)
    ensures StatusStep(t, CanceledBy(t, id, owner, viewAll, now))
  {
  }

  lemma ClearIsStatusStep(t: Tables, id: JobId, now: int)
    ensures StatusStep(t, FilesCleared(t, id, now))
  {
  }
}
