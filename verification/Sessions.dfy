/**
 The single-flight Fincloud session: one shared session id, at most one login in flight, an invalidated id kept aside
 for logout. `SessionManager` holds the mutex-protected fields and its methods are the critical sections; `System`
 interleaves any number of callers, each running the two-attempt request loop of the client.
 */
module Sessions {
  import opened Wrappers

  /** A login ended by its own caller's context, or refused. */
  datatype LoginError = Interrupted | Refused

  type Channel = nat

  datatype Manager = Manager(session: string, retired: string, loginEnd: Option<Channel>, loginErr: Option<LoginError>)

  // ----- the critical sections

  datatype Entry = Have(id: string) | Wait(done: Channel) | Login(done: Channel)

  /** Top of the `Session` loop: reuse the session, wait for the login in flight, or become that login. */
  function Entered(m: Manager, made: Channel): (Manager, Entry) {
    if m.session != "" then (m, Have(m.session))
    else if m.loginEnd.Some? then (m, Wait(m.loginEnd.value))
    else (m.(loginEnd := Some(made), loginErr := None), Login(made))
  }

  /** A login that answered with an empty id is an error. */
  function Answer(id: string): Outcome<string, LoginError> {
    if id == "" then Err(Refused) else Ok(id)
  }

  /** After the login: publish the outcome, free the slot, and hand back the retired id. */
  function Published(m: Manager, result: Outcome<string, LoginError>): (Manager, string) {
    match result
    case Ok(id) => (Manager(id, "", None, None), m.retired)
    case Err(e) => (m.(loginEnd := None, loginErr := Some(e)), "")
  }

  function Invalidated(m: Manager, id: string): Manager {
    if id != "" && m.session == id then m.(retired := id, session := "") else m
  }

  function Emptied(m: Manager): (Manager, string) {
    (m.(session := ""), m.session)
  }

  class SessionManager {
    var session: string
    var retired: string
    var loginEnd: Option<Channel>
    var loginErr: Option<LoginError>

    constructor ()
      ensures Snapshot() == Manager("", "", None, None)
    {
      session, retired, loginEnd, loginErr := "", "", None, None;
    }

    function Snapshot(): Manager
      reads this
    {
      Manager(session, retired, loginEnd, loginErr)
    }

    method Enter(made: Channel) returns (entry: Entry)
      modifies this
      ensures (Snapshot(), entry) == Entered(old(Snapshot()), made)
    {
      if session != "" {
        return Have(session);
      }
      if loginEnd.Some? {
        return Wait(loginEnd.value);
      }
      loginEnd := Some(made);
      loginErr := None;
      return Login(made);
    }

    method Publish(result: Outcome<string, LoginError>) returns (retiredId: string)
      modifies this
      ensures (Snapshot(), retiredId) == Published(old(Snapshot()), result)
    {
      retiredId := "";
      if result.Ok? {
        session := result.value;
        retiredId := retired;
        retired := "";
      }
      loginErr := if result.Err? then Some(result.error) else None;
      loginEnd := None;
    }

    method Invalidate(id: string)
      modifies this
      ensures Snapshot() == Invalidated(old(Snapshot()), id)
    {
      if id != "" && session == id {
        retired := id;
        session := "";
      }
    }

    method TakeForClose() returns (id: string)
      modifies this`session
      ensures (Snapshot(), id) == Emptied(old(Snapshot()))
    {
      id := session;
      session := "";
    }
  }

  // ----- callers

  /** Where a caller stands; `attempt` counts the client's requests, `age` numbers the login its id came from. */
  datatype Phase =
    | Idle
    | Entering(attempt: nat)
    | Waiting(attempt: nat, done: Channel)
    | Woken(attempt: nat)
    | LoggingIn(attempt: nat, done: Channel)
    | CleaningUp(attempt: nat, retired: string, id: string, age: nat)
    | Using(attempt: nat, id: string, age: nat)
    | Closing(id: string)

  /** What became of every id a login returned. */
  datatype Ledger = Ledger(
    issued: multiset<string>,
    loggedOut: multiset<string>,   // handed to the clean-up logout
    closed: multiset<string>,      // handed to the logout of Close
    reissued: multiset<string>)    // the server answered with the retired id itself

  datatype System = System(
    m: Manager,
    callers: map<nat, Phase>,
    channels: Channel,               // channels made so far
    ended: set<Channel>,           // channels closed so far
    ledger: Ledger,
    age: nat,                      // successful logins so far
    issuedAt: map<string, nat>)    // the login an id last came from

  datatype Event =
    | Request(caller: nat)
    | Enter(caller: nat)
    | Wake(caller: nat)
    | GiveUp(caller: nat)
    | ReadError(caller: nat, ownContextDone: bool)
    | LoginReturns(caller: nat, result: Outcome<string, LoginError>)
    | CleanedUp(caller: nat)
    | Served(caller: nat)
    | Rejected(caller: nat)
    | Close(caller: nat)
    | CloseReturns(caller: nat)

  function PhaseOf(s: System, c: nat): Phase {
    if c in s.callers then s.callers[c] else Idle
  }

  function Put(s: System, c: nat, phase: Phase): System {
    s.(callers := s.callers[c := phase])
  }

  function One(id: string): multiset<string> {
    if id == "" then multiset{} else multiset{id}
  }

  /** The retired id leaves the manager: logged out, or still in use because the server returned the same id. */
  function Settled(l: Ledger, retired: string, id: string): Ledger {
    if retired == id then l.(issued := l.issued + One(id), reissued := l.reissued + One(retired))
    else l.(issued := l.issued + One(id), loggedOut := l.loggedOut + One(retired))
  }

  function LoggedIn(s: System, c: nat, id: string): System
    requires PhaseOf(s, c).LoggingIn?
  {
    var phase := PhaseOf(s, c);
    var (m, retired) := Published(s.m, Ok(id));
    var next := System(m, s.callers, s.channels, s.ended + {phase.done}, Settled(s.ledger, retired, id), s.age + 1,
                       s.issuedAt[id := s.age + 1]);
    Put(next, c, if retired != "" && retired != id then CleaningUp(phase.attempt, retired, id, s.age + 1)
                 else Using(phase.attempt, id, s.age + 1))
  }

  function LoginFailed(s: System, c: nat, e: LoginError): System
    requires PhaseOf(s, c).LoggingIn?
  {
    Put(s.(m := Published(s.m, Err(e)).0, ended := s.ended + {PhaseOf(s, c).done}), c, Idle)
  }

  function EnteredBy(s: System, c: nat): System
    requires PhaseOf(s, c).Entering?
  {
    var (m, entry) := Entered(s.m, s.channels);
    var attempt := PhaseOf(s, c).attempt;
    match entry
    case Have(id) => Put(s, c, Using(attempt, id, if id in s.issuedAt then s.issuedAt[id] else 0))
    case Wait(done) => Put(s, c, Waiting(attempt, done))
    case Login(done) => Put(s.(m := m, channels := s.channels + 1), c, LoggingIn(attempt, done))
  }

  /** One step of one caller; a step that is not possible changes nothing. */
  function Apply(s: System, e: Event): System {
    match e
    case Request(c) => if PhaseOf(s, c).Idle? then Put(s, c, Entering(0)) else s
    case Enter(c) => if PhaseOf(s, c).Entering? then EnteredBy(s, c) else s
    case Wake(c) =>
      if PhaseOf(s, c).Waiting? && PhaseOf(s, c).done in s.ended then Put(s, c, Woken(PhaseOf(s, c).attempt)) else s
    case GiveUp(c) => if PhaseOf(s, c).Waiting? then Put(s, c, Idle) else s
    case ReadError(c, done) =>
      if !PhaseOf(s, c).Woken? then s
      else if s.m.loginErr.Some? && !(s.m.loginErr.value.Interrupted? && !done) then Put(s, c, Idle)
      else Put(s, c, Entering(PhaseOf(s, c).attempt))
    case LoginReturns(c, result) =>
      if !PhaseOf(s, c).LoggingIn? then s
      else (match result
            case Err(err) => LoginFailed(s, c, err)
            case Ok(id) =>
              (match Answer(id)
               case Ok(_) => LoggedIn(s, c, id)
               case Err(err) => LoginFailed(s, c, err)))
    case CleanedUp(c) =>
      if PhaseOf(s, c).CleaningUp? then
        Put(s, c, Using(PhaseOf(s, c).attempt, PhaseOf(s, c).id, PhaseOf(s, c).age))
      else s
    case Served(c) => if PhaseOf(s, c).Using? then Put(s, c, Idle) else s
    case Rejected(c) =>
      if PhaseOf(s, c).Using? then
        Put(s.(m := Invalidated(s.m, PhaseOf(s, c).id)), c, if PhaseOf(s, c).attempt == 0 then Entering(1) else Idle)
      else s
    case Close(c) =>
      if PhaseOf(s, c).Idle? then
        var (m, id) := Emptied(s.m);
        Put(s.(m := m, ledger := s.ledger.(closed := s.ledger.closed + One(id))), c, Closing(id))
      else s
    case CloseReturns(c) => if PhaseOf(s, c).Closing? then Put(s, c, Idle) else s
  }

  function Run(s: System, events: seq<Event>): System
    decreases |events|
  {
    if events == [] then s else Run(Apply(s, events[0]), events[1..])
  }

  const START := System(Manager("", "", None, None), map[], 0, {},
                        Ledger(multiset{}, multiset{}, multiset{}, multiset{}), 0, map[])

  // ----- the invariant

  /** The login slot is taken exactly while one caller is logging in, on the channel it made. */
  ghost predicate SingleFlight(s: System) {
    && (forall c :: c in s.callers && s.callers[c].LoggingIn? ==> s.m.loginEnd == Some(s.callers[c].done))
    && (forall c, d :: c in s.callers && d in s.callers && s.callers[c].LoggingIn? && s.callers[d].LoggingIn? ==>
       c == d)
    && (s.m.loginEnd.Some? ==> exists c :: c in s.callers && s.callers[c].LoggingIn?)
  }

  /** A waiter's channel is closed or belongs to the login in flight: no wake-up is lost. */
  ghost predicate Wakeable(s: System) {
    && (forall c :: c in s.callers && s.callers[c].Waiting? ==>
          s.callers[c].done in s.ended || s.m.loginEnd == Some(s.callers[c].done))
    && (forall ch :: ch in s.ended ==> ch < s.channels)
    && (s.m.loginEnd.Some? ==> s.m.loginEnd.value < s.channels && s.m.loginEnd.value !in s.ended)
  }

  /** A live session leaves no login in flight and nothing in the retired slot. */
  ghost predicate SlotsClear(m: Manager) {
    m.session != "" ==> m.loginEnd.None? && m.retired == ""
  }

  /** Every id ever issued is current, retired, logged out, closed, or was issued again unchanged. */
  ghost predicate Accounted(s: System) {
    s.ledger.issued == One(s.m.session) + One(s.m.retired) + s.ledger.loggedOut + s.ledger.closed + s.ledger.reissued
  }

  ghost predicate Inv(s: System) {
    SingleFlight(s) && Wakeable(s) && SlotsClear(s.m) && Accounted(s)
  }

  // ----- every step keeps it

  /** Moving one caller between phases that are neither waiting nor logging in keeps everything. */
  lemma QuietMove(s: System, c: nat, phase: Phase)
    requires Inv(s) && !PhaseOf(s, c).LoggingIn? && !phase.LoggingIn? && !phase.Waiting?
    ensures Inv(Put(s, c, phase))
  {
    var t := Put(s, c, phase);
    if s.m.loginEnd.Some? {
      var d :| d in s.callers && s.callers[d].LoggingIn?;
      assert d in t.callers && t.callers[d].LoggingIn?;
    }
  }

  lemma EnterKeeps(s: System, c: nat)
    requires Inv(s) && PhaseOf(s, c).Entering?
    ensures Inv(EnteredBy(s, c))
  {
    var t := EnteredBy(s, c);
    var (m, entry) := Entered(s.m, s.channels);
    match entry {
      case Have(id) => QuietMove(s, c, t.callers[c]);
      case Wait(done) =>
        var d :| d in s.callers && s.callers[d].LoggingIn?;
        assert d in t.callers && t.callers[d].LoggingIn?;
      case Login(done) =>
        assert forall d :: d in s.callers && d != c ==> t.callers[d] == s.callers[d] && !s.callers[d].LoggingIn?;
        assert t.callers[c].LoggingIn?;
    }
  }

  lemma ChannelsAfterLogin(s: System, t: System, c: nat)
    requires SingleFlight(s) && Wakeable(s) && PhaseOf(s, c).LoggingIn?
    requires t.m.loginEnd.None? && t.channels == s.channels && t.ended == s.ended + {PhaseOf(s, c).done}
    requires c in t.callers && t.callers == s.callers[c := t.callers[c]] && !t.callers[c].LoggingIn? &&
             !t.callers[c].Waiting?
    ensures SingleFlight(t) && Wakeable(t)
  {
    assert s.m.loginEnd == Some(s.callers[c].done);
    assert forall d :: d in t.callers && d != c ==> d in s.callers && t.callers[d] == s.callers[d];
  }

  lemma LoginOkKeeps(s: System, c: nat, id: string)
    requires Inv(s) && PhaseOf(s, c).LoggingIn? && id != ""
    ensures Inv(LoggedIn(s, c, id))
  {
    assert s.m.loginEnd.Some? && s.m.session == "";
    ChannelsAfterLogin(s, LoggedIn(s, c, id), c);
  }

  lemma LoginFailKeeps(s: System, c: nat, e: LoginError)
    requires Inv(s) && PhaseOf(s, c).LoggingIn?
    ensures Inv(LoginFailed(s, c, e))
  {
    ChannelsAfterLogin(s, LoginFailed(s, c, e), c);
  }

  /** Replacing only the session and retired fields leaves the channels alone. */
  lemma FieldsOnly(s: System, t: System)
    requires Inv(s) && t == s.(m := s.m.(session := t.m.session, retired := t.m.retired), ledger := t.ledger)
    requires SlotsClear(t.m) && Accounted(t)
    ensures Inv(t)
  {
  }

  lemma InvalidateKeeps(s: System, id: string)
    requires Inv(s)
    ensures Inv(s.(m := Invalidated(s.m, id)))
  {
    FieldsOnly(s, s.(m := Invalidated(s.m, id)));
  }

  predicate Quiet(e: Event) {
    e.Request? || e.Wake? || e.GiveUp? || e.ReadError? || e.CleanedUp? || e.Served? || e.CloseReturns?
  }

  /** The steps that move one caller only, between phases that hold no login. */
  lemma QuietStep(s: System, e: Event)
    requires Quiet(e)
    ensures Apply(s, e) == s ||
            (Apply(s, e) == Put(s, e.caller, PhaseOf(Apply(s, e), e.caller)) && !PhaseOf(s, e.caller).LoggingIn? &&
             !PhaseOf(Apply(s, e), e.caller).LoggingIn? && !PhaseOf(Apply(s, e), e.caller).Waiting?)
  {
  }

  lemma RejectKeeps(s: System, c: nat)
    requires Inv(s)
    ensures Inv(Apply(s, Rejected(c)))
  {
    if PhaseOf(s, c).Using? {
      var t := s.(m := Invalidated(s.m, PhaseOf(s, c).id));
      InvalidateKeeps(s, PhaseOf(s, c).id);
      QuietMove(t, c, if PhaseOf(s, c).attempt == 0 then Entering(1) else Idle);
    }
  }

  lemma CloseKeeps(s: System, c: nat)
    requires Inv(s)
    ensures Inv(Apply(s, Close(c)))
  {
    if PhaseOf(s, c).Idle? {
      var (m, id) := Emptied(s.m);
      var t := s.(m := m, ledger := s.ledger.(closed := s.ledger.closed + One(id)));
      FieldsOnly(s, t);
      QuietMove(t, c, Closing(id));
    }
  }

  lemma LoginReturnKeeps(s: System, c: nat, result: Outcome<string, LoginError>)
    requires Inv(s)
    ensures Inv(Apply(s, LoginReturns(c, result)))
  {
    if PhaseOf(s, c).LoggingIn? {
      match result
      case Err(err) => LoginFailKeeps(s, c, err);
      case Ok(id) => if id == "" { LoginFailKeeps(s, c, Refused); } else { LoginOkKeeps(s, c, id); }
    }
  }

  lemma InvStep(s: System, e: Event)
    requires Inv(s)
    ensures Inv(Apply(s, e))
  {
    if Quiet(e) {
      QuietStep(s, e);
      if Apply(s, e) != s { QuietMove(s, e.caller, PhaseOf(Apply(s, e), e.caller)); }
    } else {
      match e {
        case Enter(c) => if PhaseOf(s, c).Entering? { EnterKeeps(s, c); }
        case LoginReturns(c, result) => LoginReturnKeeps(s, c, result);
        case Rejected(c) => RejectKeeps(s, c);
        case Close(c) => CloseKeeps(s, c);
      }
    }
  }

  lemma {:induction false} InvRun(s: System, events: seq<Event>)
    requires Inv(s)
    ensures Inv(Run(s, events))
    decreases |events|
  {
    if events != [] {
      InvStep(s, events[0]);
      InvRun(Apply(s, events[0]), events[1..]);
    }
  }

  // ----- what holds in every reachable state

  /** At most one login is in flight, whatever the interleaving. */
  lemma {:induction false} OneLoginInFlight(events: seq<Event>, c: nat, d: nat)
    requires PhaseOf(Run(START, events), c).LoggingIn? && PhaseOf(Run(START, events), d).LoggingIn?
    ensures c == d && Run(START, events).m.session == ""
  {
    InvRun(START, events);
  }

  /** Retiring an id never overwrites another one, and every issued id is accounted for. */
  lemma {:induction false} NoIdIsLost(events: seq<Event>, id: string)
    ensures var s := Run(START, events);
            && s.ledger.issued == One(s.m.session) + One(s.m.retired) + s.ledger.loggedOut + s.ledger.closed +
               s.ledger.reissued
            && (Invalidated(s.m, id) != s.m ==>
               s.m.retired == "" && Invalidated(s.m, id).retired == id && s.m.session == id)
  {
    InvRun(START, events);
  }

  /** A waiter is never forgotten: it can wake now, or exactly the login in flight will close its channel. */
  lemma {:induction false} WaitersWake(events: seq<Event>, c: nat)
    requires PhaseOf(Run(START, events), c).Waiting?
    ensures var s := Run(START, events);
            && (PhaseOf(s, c).done in s.ended ||
                exists d :: d in s.callers && s.callers[d].LoggingIn? && s.callers[d].done == PhaseOf(s, c).done)
            && (forall d, result :: d in s.callers && s.callers[d].LoggingIn? ==>
                  PhaseOf(Apply(Apply(s, LoginReturns(d, result)), Wake(c)), c).Woken?)
  {
    InvRun(START, events);
    var s := Run(START, events);
    forall d, result | d in s.callers && s.callers[d].LoggingIn?
      ensures PhaseOf(Apply(Apply(s, LoginReturns(d, result)), Wake(c)), c).Woken?
    {
      var t := Apply(s, LoginReturns(d, result));
      assert t.ended == s.ended + {s.callers[d].done};
      assert PhaseOf(t, c) == PhaseOf(s, c);
    }
  }

  // ----- two attempts

  /**
   A request is tried twice at most: a rejected first attempt asks for a session again, a rejected second one ends.
   */
  ghost predicate TwoAttempts(s: System) {
    forall c :: c in s.callers ==>
      match s.callers[c]
      case Entering(attempt) => attempt <= 1
      case Waiting(attempt, _) => attempt <= 1
      case Woken(attempt) => attempt <= 1
      case LoggingIn(attempt, _) => attempt <= 1
      case CleaningUp(attempt, _, _, _) => attempt <= 1
      case Using(attempt, _, _) => attempt <= 1
      case _ => true
  }

  lemma AttemptsStep(s: System, e: Event)
    requires TwoAttempts(s)
    ensures TwoAttempts(Apply(s, e))
  {
  }

  lemma {:induction false} AttemptsRun(s: System, events: seq<Event>)
    requires TwoAttempts(s)
    ensures TwoAttempts(Run(s, events))
    decreases |events|
  {
    if events != [] {
      AttemptsStep(s, events[0]);
      AttemptsRun(Apply(s, events[0]), events[1..]);
    }
  }

  /** In every reachable state a rejection sends the caller back exactly when it was its first attempt. */
  lemma {:induction false} RejectedOnceRetries(events: seq<Event>, c: nat)
    requires PhaseOf(Run(START, events), c).Using?
    ensures var attempt := PhaseOf(Run(START, events), c).attempt;
            && (attempt == 0 || attempt == 1)
            && PhaseOf(Apply(Run(START, events), Rejected(c)), c) == if attempt == 0 then Entering(1) else Idle
  {
    AttemptsRun(START, events);
  }

  // ----- the outcome of a failed login

  /** Without a login starting or ending, the error of the last one stays. */
  lemma {:induction false} ErrorStays(s: System, events: seq<Event>, c: nat)
    requires s.m.session == "" && s.m.loginEnd.None? && PhaseOf(s, c).Woken?
    requires forall d :: d in s.callers ==> !s.callers[d].LoggingIn?
    requires forall e :: e in events ==> !e.Enter? && e.caller != c
    ensures var t := Run(s, events);
            t.m.loginErr == s.m.loginErr && PhaseOf(t, c) == PhaseOf(s, c)
    decreases |events|
  {
    if events != [] {
      var e := events[0];
      assert e in events;
      OthersMove(s, e, c);
      ErrorStays(Apply(s, e), events[1..], c);
    }
  }

  lemma OthersMove(s: System, e: Event, c: nat)
    requires s.m.session == "" && s.m.loginEnd.None? && !e.Enter? && e.caller != c
    requires forall d :: d in s.callers ==> !s.callers[d].LoggingIn?
    ensures var t := Apply(s, e);
            && t.m.session == "" && t.m.loginEnd.None? && t.m.loginErr == s.m.loginErr && PhaseOf(t, c) == PhaseOf(s, c)
            && forall d :: d in t.callers ==> !t.callers[d].LoggingIn?
  {
  }

  /** How a login failed: refused, interrupted, or answered without an id. */
  predicate FailsWith(result: Outcome<string, LoginError>, e: LoginError) {
    result == Err(e) || (result == Ok("") && e == Refused)
  }

  /**
   A waiter woken by a failed login that reads its outcome before the next login begins ends with that error, unless the
   error is an interruption and its own context is still alive: then it tries again.
   */
  lemma {:induction false} WaiterGetsTheError(before: seq<Event>, c: nat, d: nat, result: Outcome<string, LoginError>,
                                              e: LoginError, between: seq<Event>, ownContextDone: bool)
    requires PhaseOf(Run(START, before), c).Waiting? && PhaseOf(Run(START, before), d).LoggingIn?
    requires PhaseOf(Run(START, before), c).done == PhaseOf(Run(START, before), d).done && FailsWith(result, e)
    requires forall x :: x in between ==> !x.Enter? && x.caller != c
    ensures var s := Run(Apply(Apply(Run(START, before), LoginReturns(d, result)), Wake(c)), between);
            && s.m.loginErr == Some(e)
            && PhaseOf(Apply(s, ReadError(c, ownContextDone)), c) ==
               if e == Interrupted && !ownContextDone then Entering(PhaseOf(Run(START, before), c).attempt) else Idle
  {
    InvRun(START, before);
    WaiterEnds(Run(START, before), c, d, result, e, between, ownContextDone);
  }

  lemma {:induction false} WaiterEnds(s: System, c: nat, d: nat, result: Outcome<string, LoginError>, e: LoginError,
                                      between: seq<Event>, ownContextDone: bool)
    requires Inv(s) && PhaseOf(s, c).Waiting? && PhaseOf(s, d).LoggingIn? && PhaseOf(s, c).done == PhaseOf(s, d).done
    requires FailsWith(result, e) && forall x :: x in between ==> !x.Enter? && x.caller != c
    ensures var t := Run(Apply(Apply(s, LoginReturns(d, result)), Wake(c)), between);
            && t.m.loginErr == Some(e)
            && PhaseOf(Apply(t, ReadError(c, ownContextDone)), c) ==
               if e == Interrupted && !ownContextDone then Entering(PhaseOf(s, c).attempt) else Idle
  {
    FailedLogin(s, d, result, e);
    var woken := Apply(Apply(s, LoginReturns(d, result)), Wake(c));
    assert PhaseOf(woken, c) == Woken(PhaseOf(s, c).attempt);
    ErrorStays(woken, between, c);
    ErrorRead(Run(woken, between), c, e, ownContextDone);
  }

  lemma ErrorRead(s: System, c: nat, e: LoginError, ownContextDone: bool)
    requires PhaseOf(s, c).Woken? && s.m.loginErr == Some(e)
    ensures PhaseOf(Apply(s, ReadError(c, ownContextDone)), c) ==
            if e == Interrupted && !ownContextDone then Entering(PhaseOf(s, c).attempt) else Idle
  {
  }

  lemma FailedLogin(s: System, d: nat, result: Outcome<string, LoginError>, e: LoginError)
    requires Inv(s) && PhaseOf(s, d).LoggingIn? && FailsWith(result, e)
    ensures var t := Apply(s, LoginReturns(d, result));
            && t.m.session == "" && t.m.loginEnd.None? && t.m.loginErr == Some(e)
            && PhaseOf(s, d).done in t.ended && t.callers == s.callers[d := Idle]
            && forall c :: c in t.callers ==> !t.callers[c].LoggingIn?
  {
  }

  /**
   A login that succeeds leaves no error, and its session is the one every later caller gets. The retired id goes to the
   clean-up logout, unless there is none or the server returned that very id again.
   */
  lemma {:induction false} LoginGivesSession(before: seq<Event>, d: nat, id: string, c: nat)
    requires PhaseOf(Run(START, before), d).LoggingIn? && id != ""
    ensures var was := Run(START, before);
            var s, attempt := Apply(was, LoginReturns(d, Ok(id))), PhaseOf(was, d).attempt;
            && s.m == Manager(id, "", None, None)
            && PhaseOf(s, d) == (if was.m.retired == "" || was.m.retired == id then Using(attempt, id, s.age)
                                 else CleaningUp(attempt, was.m.retired, id, s.age))
            && (PhaseOf(s, d).CleaningUp? ==> PhaseOf(Apply(s, CleanedUp(d)), d) == Using(attempt, id, s.age))
            && (PhaseOf(s, c).Entering? ==>
                  PhaseOf(Apply(s, Enter(c)), c).Using? && PhaseOf(Apply(s, Enter(c)), c).id == id)
  {
    InvRun(START, before);
  }

  /** A waiter on a login that succeeds gets its session: it wakes, finds no error, and enters again. */
  lemma {:induction false} WaiterGetsTheSession(before: seq<Event>, c: nat, d: nat, id: string, ownContextDone: bool)
    requires PhaseOf(Run(START, before), c).Waiting? && PhaseOf(Run(START, before), d).LoggingIn? && id != ""
    requires PhaseOf(Run(START, before), c).done == PhaseOf(Run(START, before), d).done
    ensures var s := Apply(Run(START, before), LoginReturns(d, Ok(id)));
            var t := Apply(Apply(Apply(s, Wake(c)), ReadError(c, ownContextDone)), Enter(c));
            PhaseOf(t, c) == Using(PhaseOf(Run(START, before), c).attempt, id, s.age) && t.m == s.m
  {
    InvRun(START, before);
    LoginGivesSession(before, d, id, c);
    WaiterEnters(Run(START, before), Apply(Run(START, before), LoginReturns(d, Ok(id))), c, d, id, ownContextDone);
  }

  lemma WaiterEnters(was: System, s: System, c: nat, d: nat, id: string, ownContextDone: bool)
    requires PhaseOf(was, c).Waiting? && PhaseOf(was, d).LoggingIn? && PhaseOf(was, c).done == PhaseOf(was, d).done
    requires id != "" && s == LoggedIn(was, d, id) && s.m == Manager(id, "", None, None)
    ensures var t := Apply(Apply(Apply(s, Wake(c)), ReadError(c, ownContextDone)), Enter(c));
            PhaseOf(t, c) == Using(PhaseOf(was, c).attempt, id, s.age) && t.m == s.m
  {
    assert PhaseOf(s, c) == PhaseOf(was, c) && PhaseOf(s, c).done in s.ended && s.issuedAt[id] == s.age;
    var entering := Apply(Apply(s, Wake(c)), ReadError(c, ownContextDone));
    assert PhaseOf(entering, c) == Entering(PhaseOf(was, c).attempt) && entering.m == s.m;
  }

  // ----- stale invalidation

  /** While the server never repeats an id, an id names the login it came from. */
  ghost predicate Dated(s: System) {
    && (s.m.session != "" ==> s.m.session in s.issuedAt && s.issuedAt[s.m.session] == s.age)
    && (forall id :: id in s.issuedAt ==> s.issuedAt[id] <= s.age)
    && (forall c :: c in s.callers && s.callers[c].Using? ==>
          s.callers[c].id in s.issuedAt && s.issuedAt[s.callers[c].id] == s.callers[c].age)
    && (forall c :: c in s.callers && s.callers[c].CleaningUp? ==>
          s.callers[c].id in s.issuedAt && s.issuedAt[s.callers[c].id] == s.callers[c].age)
  }

  predicate NewId(s: System, e: Event) {
    e.LoginReturns? && e.result.Ok? ==> e.result.value !in s.issuedAt
  }

  predicate NewIds(s: System, events: seq<Event>)
    decreases |events|
  {
    events == [] || (NewId(s, events[0]) && NewIds(Apply(s, events[0]), events[1..]))
  }

  lemma DatedLogin(s: System, c: nat, id: string)
    requires Dated(s) && PhaseOf(s, c).LoggingIn? && id != "" && id !in s.issuedAt
    ensures Dated(LoggedIn(s, c, id))
  {
    var t := LoggedIn(s, c, id);
    assert forall d :: d in t.callers && d != c ==> t.callers[d] == s.callers[d];
  }

  lemma DatedEnter(s: System, c: nat)
    requires Dated(s) && PhaseOf(s, c).Entering?
    ensures Dated(EnteredBy(s, c))
  {
  }

  lemma DatedField(s: System, m: Manager, ledger: Ledger)
    requires Dated(s) && (m.session == s.m.session || m.session == "")
    ensures Dated(s.(m := m, ledger := ledger))
  {
  }

  lemma DatedQuiet(s: System, e: Event)
    requires Dated(s) && Quiet(e)
    ensures Dated(Apply(s, e))
  {
    QuietStep(s, e);
  }

  lemma DatedStep(s: System, e: Event)
    requires Dated(s) && NewId(s, e)
    ensures Dated(Apply(s, e))
  {
    if Quiet(e) {
      DatedQuiet(s, e);
    } else {
      match e {
        case Enter(c) => if PhaseOf(s, c).Entering? { DatedEnter(s, c); }
        case LoginReturns(c, result) =>
          if PhaseOf(s, c).LoggingIn? && result.Ok? && result.value != "" { DatedLogin(s, c, result.value); }
        case Rejected(c) =>
          if PhaseOf(s, c).Using? {
            DatedField(s, Invalidated(s.m, PhaseOf(s, c).id), s.ledger);
          }
        case Close(c) => DatedField(s, Emptied(s.m).0, s.ledger.(closed := s.ledger.closed + One(Emptied(s.m).1)));
      }
    }
  }

  lemma {:induction false} DatedRun(s: System, events: seq<Event>)
    requires Dated(s) && NewIds(s, events)
    ensures Dated(Run(s, events))
    decreases |events|
  {
    if events != [] {
      DatedStep(s, events[0]);
      DatedRun(Apply(s, events[0]), events[1..]);
    }
  }

  /**
   A rejected request discards the shared session exactly when that session is the one it used: same id always, and the
   very same login when the server repeats no id. A session from a later login survives a stale rejection.
   */
  lemma {:induction false} StaleRejectionIsHarmless(events: seq<Event>, c: nat)
    requires PhaseOf(Run(START, events), c).Using?
    ensures var s := Run(START, events); var t := Apply(s, Rejected(c)); var used := PhaseOf(s, c);
            && (t.m != s.m <==> s.m.session == used.id && used.id != "")
            && (NewIds(START, events) && used.age < s.age ==> t.m == s.m)
  {
    if NewIds(START, events) {
      DatedRun(START, events);
    }
  }
}
