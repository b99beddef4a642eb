/**
 The login lockout table. `LoginFailures` is the in-memory table of the source; `Tracked` is the simple model it
 refines: one record per user, never cleaned up, never deleted. Times and durations are integers; 0 is the zero
 `time.Time`.
 */
module Lockout {
  import Collections

  type Time = int
  type User = string

  const MAX_ENTRIES := 10000
  const MINUTE := 60_000_000_000

  datatype Config = Config(window: int, maxFailures: int, lockout: int) {
    predicate Valid() {
      window > 0 && maxFailures > 0 && lockout > 0
    }

    /** The shortest distance between two counting windows. */
    function Period(): int {
      if window <= lockout then window else lockout
    }
  }

  /** `first` and `lockedUntil` are 0 when unset; `Fresh` is Go's zero value for a missing key. */
  datatype Entry = Entry(count: int, first: Time, lockedUntil: Time)

  const NO_ENTRY := Entry(0, 0, 0)

  type Table = map<User, Entry>

  datatype State = State(entries: Table, lastCleanup: Time)

  // ----- the table operations

  function Lookup(entries: Table, user: User): Entry {
    if user in entries then entries[user] else NO_ENTRY
  }

  /** An entry that no longer restrains anyone at `now`. */
  predicate Dead(c: Config, e: Entry, now: Time) {
    if e.lockedUntil != 0 then e.lockedUntil <= now else e.first + c.window <= now
  }

  function CleanupInterval(c: Config): int {
    if MINUTE <= c.Period() then MINUTE else c.Period()
  }

  function Kept(c: Config, entries: Table, now: Time): Table {
    map user | user in entries && !Dead(c, entries[user], now) :: entries[user]
  }

  function Cleaned(c: Config, s: State, now: Time): State {
    if now - s.lastCleanup < CleanupInterval(c) then s else State(Kept(c, s.entries, now), now)
  }

  function Blocks(c: Config, s: State, user: User, now: Time): bool {
    Lookup(Cleaned(c, s, now).entries, user).lockedUntil > now
  }

  function AfterBlocked(c: Config, s: State, user: User, now: Time): State {
    var t := Cleaned(c, s, now);
    var e := Lookup(t.entries, user);
    if e.lockedUntil != 0 && e.lockedUntil <= now then t.(entries := t.entries - {user}) else t
  }

  /** One more failure on an entry that is not locked: count it in its window, or open a new window now. */
  function Counted(c: Config, e: Entry, now: Time): Entry {
    var base := if e.first == 0 || e.first + c.window <= now || e.lockedUntil != 0 then Entry(0, now, 0) else e;
    var count := base.count + 1;
    Entry(count, base.first, if count >= c.maxFailures then now + c.lockout else base.lockedUntil)
  }

  predicate Full(entries: Table, user: User) {
    user !in entries && |entries| >= MAX_ENTRIES
  }

  function AfterFail(c: Config, s: State, user: User, now: Time): State {
    var t := Cleaned(c, s, now);
    var e := Lookup(t.entries, user);
    if e.lockedUntil > now || Full(t.entries, user) then t
    else t.(entries := t.entries[user := Counted(c, e, now)])
  }

  function AfterClear(s: State, user: User): State {
    s.(entries := s.entries - {user})
  }

  /** Exactly the entries go whose lock, or without a lock whose window, is over. */
  ghost predicate Swept(c: Config, s: State, t: State, now: Time) {
    && t.lastCleanup == now
    && (forall user :: user in t.entries ==> user in s.entries && t.entries[user] == s.entries[user])
    && (forall user :: user in s.entries ==>
          (user in t.entries <==>
           var e := s.entries[user]; if e.lockedUntil != 0 then now < e.lockedUntil else now < e.first + c.window))
  }

  /** While neither a minute nor the window nor the lockout has passed since the last sweep, there is none. */
  lemma CleanedSweeps(c: Config, s: State, now: Time)
    ensures var since := now - s.lastCleanup;
            if since < 60_000_000_000 && since < c.window && since < c.lockout then Cleaned(c, s, now) == s
            else Swept(c, s, Cleaned(c, s, now), now)
  {
  }

  class LoginFailures {
    const config: Config
    var entries: Table
    var lastCleanup: Time

    constructor (config: Config)
      ensures this.config == config && Snapshot() == State(map[], 0)
    {
      this.config := config;
      entries, lastCleanup := map[], 0;
    }

    function Snapshot(): State
      reads this
    {
      State(entries, lastCleanup)
    }

    /** Walks the keys and deletes expired locks and expired windows. */
    method Cleanup(now: Time)
      modifies this
      ensures Snapshot() == Cleaned(config, old(Snapshot()), now)
    {
      if now - lastCleanup < CleanupInterval(config) {
        return;
      }
      ghost var before := entries;
      var keys := entries.Keys;
      while keys != {}
        invariant keys <= before.Keys
        invariant entries == map user | user in before &&
                  (user in keys || !Dead(config, before[user], now)) :: before[user]
        decreases |keys|
      {
        var key :| key in keys;
        var entry := entries[key];
        if entry.lockedUntil != 0 {
          if entry.lockedUntil <= now {
            entries := entries - {key};
          }
        } else if entry.first + config.window <= now {
          entries := entries - {key};
        }
        keys := keys - {key};
      }
      lastCleanup := now;
    }

    method Blocked(user: User, now: Time) returns (blocked: bool)
      modifies this
      ensures blocked == Blocks(config, old(Snapshot()), user, now)
      ensures Snapshot() == AfterBlocked(config, old(Snapshot()), user, now)
      ensures user in entries ==> entries[user].lockedUntil == 0 || now < entries[user].lockedUntil
      ensures now >= 0 ==> (blocked <==> user in entries && now < entries[user].lockedUntil)
      ensures entries.Keys <= old(entries).Keys && forall other :: other in entries ==>
              entries[other] == old(entries)[other]
    {
      Cleanup(now);
      var entry := Lookup(entries, user);
      if entry.lockedUntil != 0 && entry.lockedUntil <= now {
        entries := entries - {user};
      }
      blocked := entry.lockedUntil > now;
    }

    method Fail(user: User, now: Time)
      modifies this
      ensures Snapshot() == AfterFail(config, old(Snapshot()), user, now)
    {
      Cleanup(now);
      var entry := Lookup(entries, user);
      if entry.lockedUntil > now {
        return;
      }
      if entry.first == 0 || entry.first + config.window <= now || entry.lockedUntil != 0 {
        entry := Entry(0, now, 0);
      }
      if user !in entries && |entries| >= MAX_ENTRIES {
        return;
      }
      entry := entry.(count := entry.count + 1);
      if entry.count >= config.maxFailures {
        entry := entry.(lockedUntil := now + config.lockout);
      }
      entries := entries[user := entry];
    }

    method Clear(user: User)
      modifies this`entries
      ensures Snapshot() == AfterClear(old(Snapshot()), user)
    {
      entries := entries - {user};
    }
  }

  // ----- runs

  datatype Op = Blocked(user: User, now: Time) | Fail(user: User, now: Time) | Clear(user: User)

  function Apply(c: Config, s: State, op: Op): State {
    match op
    case Blocked(user, now) => AfterBlocked(c, s, user, now)
    case Fail(user, now) => AfterFail(c, s, user, now)
    case Clear(user) => AfterClear(s, user)
  }

  /** Times never run backwards and lie after the zero time. */
  predicate Timely(ops: seq<Op>, from: Time) {
    if ops == [] then true
    else if ops[0].Clear? then Timely(ops[1..], from)
    else ops[0].now > 0 && ops[0].now >= from && Timely(ops[1..], ops[0].now)
  }

  function Run(c: Config, s: State, ops: seq<Op>): State
    decreases |ops|
  {
    if ops == [] then s else Run(c, Apply(c, s, ops[0]), ops[1..])
  }

  const EMPTY := State(map[], 0)

  // ----- what the table keeps

  /**
   A sound entry has counted at least one failure since `first`, and is locked exactly when the count reached the
   maximum.
   */
  predicate SoundEntry(c: Config, e: Entry, now: Time) {
    && 0 < e.first <= now
    && 1 <= e.count <= c.maxFailures
    && (e.lockedUntil != 0 <==> e.count == c.maxFailures)
    && (e.lockedUntil != 0 ==> e.first + c.lockout <= e.lockedUntil <= now + c.lockout)
  }

  ghost predicate Sound(c: Config, s: State, now: Time) {
    |s.entries| <= MAX_ENTRIES && forall user :: user in s.entries ==> SoundEntry(c, s.entries[user], now)
  }

  function Moment(op: Op, from: Time): Time {
    if op.Clear? then from else op.now
  }

  lemma {:induction false} SmallerMap(a: Table, b: Table)
    requires a.Keys <= b.Keys
    ensures |a| <= |b|
  {
    Collections.SubsetSize(a.Keys, b.Keys);
    assert |a| == |a.Keys| && |b| == |b.Keys|;
  }

  lemma CleanedSound(c: Config, s: State, from: Time, now: Time)
    requires Sound(c, s, from) && from <= now
    ensures Sound(c, Cleaned(c, s, now), now)
  {
    SmallerMap(Kept(c, s.entries, now), s.entries);
  }

  lemma CountedSound(c: Config, e: Entry, now: Time)
    requires c.Valid() && now > 0 && e.lockedUntil <= now && (e == NO_ENTRY || SoundEntry(c, e, now))
    ensures SoundEntry(c, Counted(c, e, now), now)
  {
  }

  /** Every operation keeps the table sound and within its cap. */
  lemma SoundStep(c: Config, s: State, op: Op, from: Time)
    requires c.Valid() && Sound(c, s, from) && (op.Clear? || (op.now > 0 && op.now >= from))
    ensures Sound(c, Apply(c, s, op), Moment(op, from))
  {
    match op {
      case Blocked(user, now) =>
        CleanedSound(c, s, from, now);
        SmallerMap(AfterBlocked(c, s, user, now).entries, Cleaned(c, s, now).entries);
      case Fail(user, now) =>
        CleanedSound(c, s, from, now);
        var t := Cleaned(c, s, now);
        if Lookup(t.entries, user).lockedUntil <= now {
          CountedSound(c, Lookup(t.entries, user), now);
        }
      case Clear(user) => SmallerMap(AfterClear(s, user).entries, s.entries);
    }
  }

  lemma {:induction false} SoundRun(c: Config, s: State, ops: seq<Op>, from: Time) returns (now: Time)
    requires c.Valid() && Sound(c, s, from) && Timely(ops, from)
    ensures Sound(c, Run(c, s, ops), now) && now >= from
    decreases |ops|
  {
    if ops == [] {
      now := from;
    } else {
      SoundStep(c, s, ops[0], from);
      now := SoundRun(c, Apply(c, s, ops[0]), ops[1..], Moment(ops[0], from));
    }
  }

  /**
   After any run the table holds at most 10000 entries, each locked exactly when its count has reached the maximum.
   */
  lemma {:induction false} TableStaysSound(c: Config, ops: seq<Op>, user: User)
    requires c.Valid() && Timely(ops, 0)
    ensures var entries := Run(c, EMPTY, ops).entries;
            && |entries| <= 10000
            && (user in entries ==>
                  1 <= entries[user].count <= c.maxFailures &&
                  (entries[user].lockedUntil != 0 <==> entries[user].count == c.maxFailures))
  {
    var now := SoundRun(c, EMPTY, ops, 0);
  }

  // ----- refinement: one record per user, nothing ever cleaned up or deleted

  /** The simple model: a record for everyone, NO_ENTRY until the first failure. */
  type Tracked = User -> Entry

  function Track(c: Config, track: Tracked, op: Op): Tracked {
    match op
    case Blocked(_, _) => track
    case Fail(user, now) =>
      if track(user).lockedUntil > now then track
      else (u: User) => if u == user then Counted(c, track(user), now) else track(u)
    case Clear(user) => (u: User) => if u == user then NO_ENTRY else track(u)
  }

  /** What `blocked` answers over a run, table by table. */
  function Answers(c: Config, s: State, ops: seq<Op>): seq<bool>
    decreases |ops|
  {
    if ops == [] then []
    else
      (if ops[0].Blocked? then [Blocks(c, s, ops[0].user, ops[0].now)] else []) +
      Answers(c, Apply(c, s, ops[0]), ops[1..])
  }

  function TrackedAnswers(c: Config, track: Tracked, ops: seq<Op>): seq<bool>
    decreases |ops|
  {
    if ops == [] then []
    else (if ops[0].Blocked? then [track(ops[0].user).lockedUntil > ops[0].now] else []) +
         TrackedAnswers(c, Track(c, track, ops[0]), ops[1..])
  }

  /** No failure of the run is dropped because the table is full. */
  predicate NeverFull(c: Config, s: State, ops: seq<Op>)
    decreases |ops|
  {
    if ops == [] then true
    else
      && (ops[0].Fail? ==> !Full(Cleaned(c, s, ops[0].now).entries, ops[0].user))
      && NeverFull(c, Apply(c, s, ops[0]), ops[1..])
  }

  /** The table holds the tracked record, or nothing where that record restrains no one any more. */
  ghost predicate Refines(c: Config, s: State, track: Tracked, now: Time) {
    forall user :: (user in s.entries && s.entries[user] == track(user)) ||
                   (user !in s.entries && (track(user) == NO_ENTRY || Dead(c, track(user), now)))
  }

  lemma RefinesCleaned(c: Config, s: State, track: Tracked, from: Time, now: Time)
    requires Refines(c, s, track, from) && from <= now
    ensures Refines(c, Cleaned(c, s, now), track, now)
  {
  }

  lemma RefinesStep(c: Config, s: State, track: Tracked, op: Op, from: Time)
    requires c.Valid() && Refines(c, s, track, from) && (op.Clear? || (op.now > 0 && op.now >= from))
    requires op.Fail? ==> !Full(Cleaned(c, s, op.now).entries, op.user)
    ensures Refines(c, Apply(c, s, op), Track(c, track, op), Moment(op, from))
    ensures op.Blocked? ==> Blocks(c, s, op.user, op.now) == (track(op.user).lockedUntil > op.now)
  {
    if !op.Clear? {
      RefinesCleaned(c, s, track, from, op.now);
    }
  }

  lemma {:induction false} RefinesRun(c: Config, s: State, track: Tracked, ops: seq<Op>, from: Time)
    requires c.Valid() && Refines(c, s, track, from) && Timely(ops, from) && NeverFull(c, s, ops)
    ensures Answers(c, s, ops) == TrackedAnswers(c, track, ops)
    decreases |ops|
  {
    if ops != [] {
      RefinesStep(c, s, track, ops[0], from);
      RefinesRun(c, Apply(c, s, ops[0]), Track(c, track, ops[0]), ops[1..], Moment(ops[0], from));
    }
  }

  /** Clean-up and deletion are invisible: `blocked` answers as if every user had a record that is never removed. */
  lemma {:induction false} CleanupIsInvisible(c: Config, ops: seq<Op>)
    requires c.Valid() && Timely(ops, 0) && NeverFull(c, EMPTY, ops)
    ensures Answers(c, EMPTY, ops) == TrackedAnswers(c, (u: User) => NO_ENTRY, ops)
  {
    RefinesRun(c, EMPTY, (u: User) => NO_ENTRY, ops, 0);
  }

  // ----- how many failures can be counted

  /** Whether this operation adds a failure to `user`'s count. */
  predicate Counts(c: Config, s: State, op: Op, user: User) {
    op.Fail? && op.user == user && Lookup(Cleaned(c, s, op.now).entries, user).lockedUntil <= op.now &&
    !Full(Cleaned(c, s, op.now).entries, user)
  }

  function CountedFailures(c: Config, s: State, ops: seq<Op>, user: User): nat
    decreases |ops|
  {
    if ops == [] then 0
    else (if Counts(c, s, ops[0], user) then 1 else 0) + CountedFailures(c, Apply(c, s, ops[0]), ops[1..], user)
  }

  predicate NoClear(ops: seq<Op>, user: User) {
    forall op :: op in ops ==> !(op.Clear? && op.user == user)
  }

  predicate Until(ops: seq<Op>, end: Time) {
    forall op :: op in ops ==> op.Clear? || op.now <= end
  }

  /** The most failures that fit when windows open at least one period apart and `span` time is left. */
  function Budget(c: Config, span: int): nat
    requires c.Valid()
    decreases if span < 0 then 0 else span + 1
  {
    if span < 0 then 0 else c.maxFailures + Budget(c, span - c.Period())
  }

  /** What `user` can still add until `end`: the rest of the open window, then windows at least a period later. */
  function Left(c: Config, s: State, user: User, now: Time, end: Time): int
    requires c.Valid()
  {
    if user in s.entries && !Dead(c, s.entries[user], now) then
      var e := s.entries[user];
      var next := if e.first + c.Period() > now then e.first + c.Period() else now;
      c.maxFailures - e.count + Budget(c, end - next)
    else
      Budget(c, end - now)
  }

  lemma {:induction false} BudgetGrows(c: Config, a: int, b: int)
    requires c.Valid() && a <= b
    ensures Budget(c, a) <= Budget(c, b)
    decreases if b < 0 then 0 else b + 1
  {
    if a >= 0 {
      BudgetGrows(c, a - c.Period(), b - c.Period());
    }
  }

  /** A sound entry dies no earlier than one period after its window opened. */
  lemma DeadAfterPeriod(c: Config, e: Entry, from: Time, now: Time)
    requires c.Valid() && SoundEntry(c, e, from) && Dead(c, e, now)
    ensures e.first + c.Period() <= now
  {
  }

  /** Time passing, and clean-up with it, never raises what is left. */
  lemma LeftPasses(c: Config, s: State, t: State, user: User, from: Time, now: Time, end: Time)
    requires c.Valid() && Sound(c, s, from) && from <= now
    requires if user in t.entries then user in s.entries && t.entries[user] == s.entries[user]
             else user !in s.entries || Dead(c, s.entries[user], now)
    ensures Left(c, t, user, now, end) <= Left(c, s, user, from, end)
  {
    BudgetGrows(c, end - now, end - from);
    if user in s.entries && !Dead(c, s.entries[user], from) {
      var e := s.entries[user];
      var next := if e.first + c.Period() > from then e.first + c.Period() else from;
      var next' := if e.first + c.Period() > now then e.first + c.Period() else now;
      if Dead(c, e, now) {
        DeadAfterPeriod(c, e, from, now);
        BudgetGrows(c, end - now, end - next);
      }
      BudgetGrows(c, end - next', end - next);
    }
  }

  lemma CleanedOnlyDead(c: Config, s: State, user: User, now: Time)
    ensures var t := Cleaned(c, s, now);
            if user in t.entries then user in s.entries && t.entries[user] == s.entries[user]
            else user !in s.entries || Dead(c, s.entries[user], now)
  {
  }

  /** One counted failure uses up one. */
  lemma CountUsesOne(c: Config, t: State, user: User, now: Time, end: Time)
    requires c.Valid() && 0 < now <= end && (user in t.entries ==> SoundEntry(c, t.entries[user], now))
    requires Lookup(t.entries, user).lockedUntil <= now
    ensures var u := t.(entries := t.entries[user := Counted(c, Lookup(t.entries, user), now)]);
            1 + Left(c, u, user, now, end) <= Left(c, t, user, now, end)
  {
    var e := Lookup(t.entries, user);
    if user in t.entries && !Dead(c, e, now) {
      assert Counted(c, e, now).first == e.first && Counted(c, e, now).count == e.count + 1;
    } else {
      assert Counted(c, e, now).first == now && Counted(c, e, now).count == 1;
      assert end - (now + c.Period()) == (end - now) - c.Period();
    }
  }

  lemma LeftStep(c: Config, s: State, op: Op, user: User, from: Time, end: Time)
    requires c.Valid() && Sound(c, s, from) && (op.Clear? || (op.now > 0 && from <= op.now <= end)) &&
             !(op.Clear? && op.user == user)
    ensures (if Counts(c, s, op, user) then 1 else 0) +
            Left(c, Apply(c, s, op), user, Moment(op, from), end) <= Left(c, s, user, from, end)
  {
    match op {
      case Blocked(other, now) =>
        CleanedOnlyDead(c, s, user, now);
        LeftPasses(c, s, AfterBlocked(c, s, other, now), user, from, now, end);
      case Fail(other, now) => FailLeaves(c, s, other, now, user, from, end);
      case Clear(other) =>
    }
  }

  lemma FailLeaves(c: Config, s: State, other: User, now: Time, user: User, from: Time, end: Time)
    requires c.Valid() && Sound(c, s, from) && now > 0 && from <= now <= end
    ensures (if Counts(c, s, Fail(other, now), user) then 1 else 0) +
            Left(c, AfterFail(c, s, other, now), user, now, end) <=
            Left(c, s, user, from, end)
  {
    var t := Cleaned(c, s, now);
    CleanedOnlyDead(c, s, user, now);
    CleanedSound(c, s, from, now);
    LeftPasses(c, s, t, user, from, now, end);
    if Counts(c, s, Fail(other, now), user) {
      CountUsesOne(c, t, user, now, end);
    }
  }

  lemma {:induction false} CountedWithinLeft(c: Config, s: State, ops: seq<Op>, user: User, from: Time, end: Time)
    requires c.Valid() && Sound(c, s, from) && Timely(ops, from) && NoClear(ops, user) && Until(ops, end)
    ensures CountedFailures(c, s, ops, user) <= Left(c, s, user, from, end)
    decreases |ops|
  {
    if ops == [] {
      assert user in s.entries ==> SoundEntry(c, s.entries[user], from);
    } else {
      assert ops[0] in ops;
      LeftStep(c, s, ops[0], user, from, end);
      SoundStep(c, s, ops[0], from);
      CountedWithinLeft(c, Apply(c, s, ops[0]), ops[1..], user, Moment(ops[0], from), end);
    }
  }

  lemma {:induction false} BudgetIsQuotient(c: Config, span: int)
    requires c.Valid() && span >= 0
    ensures Budget(c, span) == c.maxFailures * (span / c.Period() + 1)
    decreases span
  {
    var m := c.Period();
    if span >= m {
      BudgetIsQuotient(c, span - m);
      QuotientStep(span, m);
      Distribute(c.maxFailures, (span - m) / m + 1);
    } else {
      assert span / m == 0;
      assert Budget(c, span - m) == 0;
    }
  }

  lemma Distribute(a: int, b: int)
    ensures a * (b + 1) == a * b + a
  {
  }

  lemma QuotientStep(n: int, m: int)
    requires m > 0 && n >= m
    ensures n / m == (n - m) / m + 1
  {
    var q, r := (n - m) / m, (n - m) % m;
    assert n == m * (q + 1) + r;
    var d := n / m - (q + 1);
    assert m * d == r - n % m;
    if d >= 1 { MultipleBeyond(m, d); } else if d <= -1 { MultipleBeyond(m, -d); }
  }

  lemma MultipleBeyond(m: int, d: int)
    requires m > 0 && d >= 1
    ensures m * d >= m && m * (-d) <= -m
  {
  }

  /**
   Whatever was recorded before, and however full the table: in any span of length L without a clear for the user, at
   most max * (L / min(window, lockout) + 2) failures are counted.
   */
  lemma CountedRateIsBounded(c: Config, before: seq<Op>, during: seq<Op>, user: User, start: Time, length: nat)
    requires c.Valid() && Timely(before, 0) && Until(before, start) && start >= 0
    requires Timely(during, start) && Until(during, start + length) && NoClear(during, user)
    ensures CountedFailures(c, Run(c, EMPTY, before), during, user) <= c.maxFailures * (length / c.Period() + 2)
  {
    var s := Run(c, EMPTY, before);
    SoundUntil(c, EMPTY, before, 0, start);
    CountedWithinLeft(c, s, during, user, start, start + length);
    if user in s.entries && !Dead(c, s.entries[user], start) {
      var e := s.entries[user];
      assert SoundEntry(c, e, start);
      var next := if e.first + c.Period() > start then e.first + c.Period() else start;
      BudgetGrows(c, start + length - next, length);
    }
    BudgetTotal(c, length);
  }

  lemma {:induction false} BudgetTotal(c: Config, length: nat)
    requires c.Valid()
    ensures c.maxFailures + Budget(c, length) == c.maxFailures * (length / c.Period() + 2)
  {
    BudgetIsQuotient(c, length);
    Distribute(c.maxFailures, length / c.Period() + 1);
  }

  lemma {:induction false} SoundUntil(c: Config, s: State, ops: seq<Op>, from: Time, end: Time)
    requires c.Valid() && Sound(c, s, from) && Timely(ops, from) && Until(ops, end) && from <= end
    ensures Sound(c, Run(c, s, ops), end)
    decreases |ops|
  {
    if ops != [] {
      assert ops[0] in ops;
      SoundStep(c, s, ops[0], from);
      SoundUntil(c, Apply(c, s, ops[0]), ops[1..], Moment(ops[0], from), end);
    }
  }

  // ----- when a user is locked, and for how long

  /** The lock stands until `until`, or has run out and been removed. */
  ghost predicate LockedUntil(s: State, user: User, until: Time, now: Time) {
    if user in s.entries then s.entries[user].lockedUntil == until else until <= now
  }

  lemma LockStep(c: Config, s: State, op: Op, user: User, until: Time, from: Time)
    requires LockedUntil(s, user, until, from) && (op.Clear? || op.now >= from) && 0 < until
    requires !(op.Clear? && op.user == user) && (op.Fail? && op.user == user ==> op.now < until)
    ensures LockedUntil(Apply(c, s, op), user, until, Moment(op, from))
  {
  }

  lemma {:induction false} LockRun(c: Config, s: State, ops: seq<Op>, user: User, until: Time, from: Time, end: Time)
    returns (now: Time)
    requires from <= end && Until(ops, end)
    requires LockedUntil(s, user, until, from) && 0 < until && Timely(ops, from) && NoClear(ops, user)
    requires forall op :: op in ops && op.Fail? && op.user == user ==> op.now < until
    ensures LockedUntil(Run(c, s, ops), user, until, now) && now <= end
    decreases |ops|
  {
    if ops == [] {
      now := from;
    } else {
      assert ops[0] in ops;
      LockStep(c, s, ops[0], user, until, from);
      now := LockRun(c, Apply(c, s, ops[0]), ops[1..], user, until, Moment(ops[0], from), end);
    }
  }

  lemma LockAnswers(c: Config, s: State, user: User, until: Time, now: Time, t: Time)
    requires LockedUntil(s, user, until, now) && now <= t && 0 < until && 0 < t
    ensures Blocks(c, s, user, t) <==> t < until
  {
  }

  function OwnFails(ops: seq<Op>, user: User): nat {
    if ops == [] then 0 else (if ops[0].Fail? && ops[0].user == user then 1 else 0) + OwnFails(ops[1..], user)
  }

  /** An open window with `count` failures counted and no lock. */
  ghost predicate Counting(s: State, user: User, count: int, first: Time) {
    user in s.entries && s.entries[user] == Entry(count, first, 0)
  }

  lemma CountStep(c: Config, s: State, op: Op, user: User, count: int, first: Time)
    requires c.Valid() && Counting(s, user, count, first) && 0 < first
    requires op.Clear? || (first <= op.now < first + c.window)
    requires !(op.Clear? && op.user == user)
    ensures var own := op.Fail? && op.user == user; var t := Apply(c, s, op);
            if !own then Counting(t, user, count, first)
            else if count + 1 < c.maxFailures then Counting(t, user, count + 1, first)
            else user in t.entries && t.entries[user] == Entry(count + 1, first, op.now + c.lockout)
  {
  }

  /** While the window is open, every failure of the user is counted and no other operation touches the count. */
  lemma {:induction false} CountRises(c: Config, s: State, ops: seq<Op>, user: User, count: int, first: Time,
                                      from: Time)
    requires c.Valid() && Counting(s, user, count, first) && 0 < first <= from
    requires Timely(ops, from) && NoClear(ops, user) && Until(ops, first + c.window - 1)
    requires count + OwnFails(ops, user) < c.maxFailures
    ensures Counting(Run(c, s, ops), user, count + OwnFails(ops, user), first)
    decreases |ops|
  {
    if ops != [] {
      var op := ops[0];
      assert op in ops;
      CountStep(c, s, op, user, count, first);
      var own := if op.Fail? && op.user == user then 1 else 0;
      CountRises(c, Apply(c, s, op), ops[1..], user, count + own, first, Moment(op, from));
    }
  }

  /** No record, or one whose lock, or else whose window, is over. */
  predicate NoLiveRecord(c: Config, s: State, user: User, now: Time) {
    user in s.entries ==>
      var e := s.entries[user];
      if e.lockedUntil != 0 then e.lockedUntil <= now else e.first + c.window <= now
  }

  /** The first failure of a user without a live record opens a window, or locks at once where one failure is enough. */
  lemma FirstFailure(c: Config, s: State, user: User, first: Time)
    requires c.Valid() && 0 < first && |s.entries| < 10000 && NoLiveRecord(c, s, user, first)
    ensures var t := AfterFail(c, s, user, first);
            if c.maxFailures == 1 then LockedUntil(t, user, first + c.lockout, first)
            else Counting(t, user, 1, first)
  {
    SmallerMap(Cleaned(c, s, first).entries, s.entries);
  }

  /**
   Failures within one window, with anything but a `clear` of that user in between: fewer than the maximum are counted
   and do not block; the one that reaches the maximum blocks the user from then on until the lockout has passed,
   whatever comes afterwards, and no longer.
   */
  lemma {:induction false} MaximumLocks(c: Config, s: State, user: User, first: Time, ops: seq<Op>, last: Time,
                                        after: seq<Op>, t: Time)
    requires c.Valid() && 0 < first && |s.entries| < 10000 && NoLiveRecord(c, s, user, first)
    requires Timely(ops, first) && NoClear(ops, user) && Until(ops, last) && first <= last < first + c.window
    requires 2 + OwnFails(ops, user) == c.maxFailures
    requires Timely(after, last) && NoClear(after, user) && Until(after, t) && last <= t
    requires forall op :: op in after && op.Fail? && op.user == user ==> op.now < last + c.lockout
    ensures var one := AfterFail(c, s, user, first);
            !Blocks(c, Run(c, one, ops), user, last)
    ensures var one := AfterFail(c, s, user, first);
            var locked := AfterFail(c, Run(c, one, ops), user, last);
            Blocks(c, Run(c, locked, after), user, t) <==> t < last + c.lockout
  {
    FirstFailure(c, s, user, first);
    var one := AfterFail(c, s, user, first);
    CountRises(c, one, ops, user, 1, first, first);
    var counted := Run(c, one, ops);
    CountStep(c, counted, Fail(user, last), user, c.maxFailures - 1, first);
    var locked := AfterFail(c, counted, user, last);
    LockHolds(c, locked, user, last + c.lockout, last, after, t);
  }

  /** A lock answers so, whatever comes afterwards. */
  lemma {:induction false} LockHolds(c: Config, s: State, user: User, until: Time, from: Time, ops: seq<Op>, t: Time)
    requires LockedUntil(s, user, until, from) && 0 < until && 0 < t && from <= t
    requires Timely(ops, from) && NoClear(ops, user) && Until(ops, t)
    requires forall op :: op in ops && op.Fail? && op.user == user ==> op.now < until
    ensures Blocks(c, Run(c, s, ops), user, t) <==> t < until
  {
    var now := LockRun(c, s, ops, user, until, from, t);
    LockAnswers(c, Run(c, s, ops), user, until, now, t);
  }

  /** Where one failure is the maximum, it locks by itself. */
  lemma {:induction false} OneFailureLocks(c: Config, s: State, user: User, last: Time, after: seq<Op>, t: Time)
    requires c.Valid() && c.maxFailures == 1 && 0 < last && |s.entries| < 10000 && NoLiveRecord(c, s, user, last)
    requires Timely(after, last) && NoClear(after, user) && Until(after, t) && last <= t
    requires forall op :: op in after && op.Fail? && op.user == user ==> op.now < last + c.lockout
    ensures Blocks(c, Run(c, AfterFail(c, s, user, last), after), user, t) <==> t < last + c.lockout
  {
    FirstFailure(c, s, user, last);
    LockHolds(c, AfterFail(c, s, user, last), user, last + c.lockout, last, after, t);
  }
}
