/**
 * Password login with brute-force protection (pkg/login/auth.go and pkg/login/brute_force_login_protection.go),
 * over the attempt table of pkg/services/sqlstore/login_attempt.go and the cleanup that prunes it. Times are in
 * nanoseconds; the table keeps whole seconds.
 */
module Login {
  import opened Prelude

  datatype Attempt = Attempt(username: string, created: int)

  const MaxInvalidLoginAttempts := 5
  const Second := 1_000_000_000
  const LoginAttemptsWindow := 300 * Second
  const CleanupAge := 600 * Second

  function Unix(t: int): int {
    t / Second
  }

  lemma UnixMonotone(a: int, b: int)
    requires a <= b
    ensures Unix(a) <= Unix(b)
  {
  }

  lemma UnixShift(t: int)
    ensures Unix(t - LoginAttemptsWindow) == Unix(t) - 300
  {
  }

  datatype LoginError =
    | TooManyLoginAttempts
    | PasswordEmpty
    | UserNotFound
    | InvalidCredentials
    | UserDisabled
    | LdapInvalidCredentials
    | OtherError(message: string)

  /** What the modelled code asks others: the user database, and LDAP if it is switched on. */
  datatype Answers = Answers(database: Option<LoginError>, ldapEnabled: bool, ldap: Option<LoginError>)

  /** Result of a request: its error, None on success, and the authentication module noted in the query. */
  datatype Reply = Reply(err: Option<LoginError>, authModule: string)

  // ---------------------------------------------------------------- the decision

  /** A database error that lets LDAP have a go. */
  predicate TriesLdap(err: LoginError) {
    err == UserNotFound || err == InvalidCredentials || err == UserDisabled
  }

  /** Whether the credentials themselves were turned down: a failed attempt. */
  predicate IsFailedAttempt(a: Answers) {
    && a.database.Some? && TriesLdap(a.database.value)
    && if a.ldapEnabled then a.ldap == Some(LdapInvalidCredentials) && a.database.value != UserDisabled
       else a.database.value == InvalidCredentials
  }

  /** The reply once the attempt limit and the password have been checked. */
  function ReplyTo(a: Answers): Reply {
    if a.database.None? || !TriesLdap(a.database.value) then Reply(a.database, "grafana")
    else
      var authModule := if a.ldapEnabled then "ldap" else "";
      if IsFailedAttempt(a) then Reply(Some(InvalidCredentials), authModule)
      else if a.ldapEnabled && a.ldap != Some(LdapInvalidCredentials) then Reply(a.ldap, authModule)
      else Reply(a.database, authModule)
  }

  /** The table of decisions: the reply, and whether the attempt counts as failed. */
  ghost predicate Decided(a: Answers, reply: Reply, failed: bool) {
    match a.database
    case None => reply == Reply(None, "grafana") && !failed
    case Some(UserNotFound) =>
      if !a.ldapEnabled then reply == Reply(Some(UserNotFound), "") && !failed
      else if a.ldap == Some(LdapInvalidCredentials) then reply == Reply(Some(InvalidCredentials), "ldap") && failed
      else reply == Reply(a.ldap, "ldap") && !failed
    case Some(InvalidCredentials) =>
      if !a.ldapEnabled then reply == Reply(Some(InvalidCredentials), "") && failed
      else if a.ldap == Some(LdapInvalidCredentials) then reply == Reply(Some(InvalidCredentials), "ldap") && failed
      else reply == Reply(a.ldap, "ldap") && !failed
    case Some(UserDisabled) =>
      if !a.ldapEnabled then reply == Reply(Some(UserDisabled), "") && !failed
      else if a.ldap == Some(LdapInvalidCredentials) then reply == Reply(Some(UserDisabled), "ldap") && !failed
      else reply == Reply(a.ldap, "ldap") && !failed
    case Some(other) => reply == Reply(Some(other), "grafana") && !failed
  }

  // ---------------------------------------------------------------- counting

  /** The places of a user's attempts among the first ones, in the given seconds. */
  ghost function PlacesIn(log: seq<Attempt>, user: string, lo: int, hi: int): set<int> {
    set i | 0 <= i < |log| && log[i].username == user && lo <= log[i].created <= hi
  }

  lemma {:induction false} CountInIs(log: seq<Attempt>, user: string, lo: int, hi: int)
    ensures CountIn(log, user, lo, hi) == |PlacesIn(log, user, lo, hi)|
  {
    if log != [] {
      var n := |log| - 1;
      CountInIs(log[..n], user, lo, hi);
      var counts := log[n].username == user && lo <= log[n].created <= hi;
      assert PlacesIn(log, user, lo, hi) == PlacesIn(log[..n], user, lo, hi) + if counts then {n} else {};
    }
  }

  /** Counting since a second is counting from it to the last there is. */
  lemma {:induction false} CountSinceIs(log: seq<Attempt>, user: string, lo: int, hi: int)
    requires forall i :: 0 <= i < |log| ==> log[i].created <= hi
    ensures CountSince(log, user, lo) == |PlacesIn(log, user, lo, hi)|
  {
    CountInIs(log, user, lo, hi);
    SinceIsIn(log, user, lo, hi);
  }

  lemma {:induction false} SinceIsIn(log: seq<Attempt>, user: string, lo: int, hi: int)
    requires forall i :: 0 <= i < |log| ==> log[i].created <= hi
    ensures CountSince(log, user, lo) == CountIn(log, user, lo, hi)
  {
    if log != [] {
      SinceIsIn(log[..|log| - 1], user, lo, hi);
    }
  }

  /** The attempts of a user recorded from second `lo` up to and including second `hi`. */
  ghost function CountIn(log: seq<Attempt>, user: string, lo: int, hi: int): nat {
    if log == [] then 0
    else
      var last := log[|log| - 1];
      CountIn(log[..|log| - 1], user, lo, hi) + if last.username == user && lo <= last.created <= hi then 1 else 0
  }

  /** The attempts recorded since second `lo`. */
  function CountSince(log: seq<Attempt>, user: string, lo: int): nat {
    if log == [] then 0
    else
      var last := log[|log| - 1];
      CountSince(log[..|log| - 1], user, lo) + if last.username == user && last.created >= lo then 1 else 0
  }

  lemma {:induction false} WindowWithin(log: seq<Attempt>, user: string, since: int, lo: int, hi: int)
    requires since <= lo
    ensures CountIn(log, user, lo, hi) <= CountSince(log, user, since)
  {
    if log != [] {
      WindowWithin(log[..|log| - 1], user, since, lo, hi);
    }
  }

  lemma {:induction false} CountSinceSplit(a: seq<Attempt>, b: seq<Attempt>, user: string, lo: int)
    ensures CountSince(a + b, user, lo) == CountSince(a, user, lo) + CountSince(b, user, lo)
  {
    if b == [] {
      assert a + b == a;
    } else {
      assert (a + b)[..|a + b| - 1] == a + b[..|b| - 1];
      CountSinceSplit(a, b[..|b| - 1], user, lo);
    }
  }

  lemma {:induction false} AllOlder(log: seq<Attempt>, user: string, lo: int)
    requires forall i :: 0 <= i < |log| ==> log[i].created < lo
    ensures CountSince(log, user, lo) == 0
  {
    if log != [] {
      AllOlder(log[..|log| - 1], user, lo);
    }
  }

  // ---------------------------------------------------------------- what holds throughout

  /** Everything ever recorded, and how many of the oldest records were pruned; the rest is the table. */
  datatype State = State(history: seq<Attempt>, pruned: nat)

  function Stored(s: State): seq<Attempt>
    requires s.pruned <= |s.history|
  {
    s.history[s.pruned..]
  }

  ghost function InWindow(log: seq<Attempt>, user: string, lo: int): nat {
    CountIn(log, user, lo, lo + 300)
  }

  /** No window of five minutes holds more than the allowed number of recorded failures of one user. */
  ghost predicate WindowsBounded(history: seq<Attempt>) {
    forall user, lo :: InWindow(history, user, lo) <= MaxInvalidLoginAttempts
  }

  /** At second `now`: recorded in order of time, none in the future, and only pruned once out of every window to come. */
  ghost predicate Consistent(s: State, now: int) {
    && s.pruned <= |s.history|
    && Sorted(s.history)
    && (forall i :: 0 <= i < |s.history| ==> s.history[i].created <= now)
    && (forall i :: 0 <= i < s.pruned ==> s.history[i].created < now - 300)
  }

  ghost predicate Sorted(log: seq<Attempt>) {
    forall i, j :: 0 <= i < j < |log| ==> log[i].created <= log[j].created
  }

  /** The events of a run. `checked` and `recorded` are the clock readings of one request. */
  datatype Event =
    | Request(username: string, password: string, answers: Answers, checked: int, recorded: int, countFails: bool, insertFails: bool)
    | Cleanup(at: int)

  predicate OverLimit(stored: seq<Attempt>, username: string, checked: int) {
    CountSince(stored, username, Unix(checked - LoginAttemptsWindow)) >= MaxInvalidLoginAttempts
  }

  /** Whether a request leaves a record: let through by the limit, given a password, and turned down. */
  predicate LeavesRecord(stored: seq<Attempt>, e: Event)
    requires e.Request?
  {
    !e.countFails && !OverLimit(stored, e.username, e.checked) && e.password != "" && IsFailedAttempt(e.answers) && !e.insertFails
  }

  /** How many entries the cleanup deletes: those up to the last one that is too old. */
  function TooOld(log: seq<Attempt>, olderThan: int): (n: nat)
    ensures n <= |log| && (forall i :: n <= i < |log| ==> log[i].created >= olderThan)
    ensures n > 0 ==> log[n - 1].created < olderThan
  {
    if log == [] then 0
    else if log[|log| - 1].created < olderThan then |log|
    else TooOld(log[..|log| - 1], olderThan)
  }

  function After(s: State, e: Event): (s': State)
    requires s.pruned <= |s.history|
    ensures s'.pruned <= |s'.history|
  {
    match e
    case Request(username, _, _, _, recorded, _, _) =>
      if LeavesRecord(Stored(s), e) then s.(history := s.history + [Attempt(username, Unix(recorded))]) else s
    case Cleanup(at) => s.(pruned := s.pruned + TooOld(Stored(s), Unix(at - CleanupAge)))
  }

  function Start(e: Event): int {
    if e.Request? then e.checked else e.at
  }

  function End(e: Event): int {
    if e.Request? then e.recorded else e.at
  }

  /** The clock does not run backwards, within an event and from one to the next. */
  ghost predicate ClockOk(events: seq<Event>) {
    && (forall i :: 0 <= i < |events| ==> Start(events[i]) <= End(events[i]))
    && forall i :: 0 <= i < |events| - 1 ==> End(events[i]) <= Start(events[i + 1])
  }

  function RunAll(events: seq<Event>): (s: State)
    ensures s.pruned <= |s.history|
  {
    if events == [] then State([], 0) else After(RunAll(events[..|events| - 1]), events[|events| - 1])
  }

  // ---------------------------------------------------------------- every run

  lemma CountsAgree(s: State, now: int, user: string, lo: int)
    requires Consistent(s, now) && lo >= now - 300
    ensures CountSince(Stored(s), user, lo) == CountSince(s.history, user, lo)
  {
    var before := s.history[..s.pruned];
    assert s.history == before + Stored(s);
    CountSinceSplit(before, Stored(s), user, lo);
    AllOlder(before, user, lo);
  }

  lemma RecordKeepsBound(s: State, now: int, user: string, checked: int, recorded: int)
    requires Consistent(s, now) && WindowsBounded(s.history)
    requires now <= checked <= recorded && CountSince(Stored(s), user, checked - 300) < MaxInvalidLoginAttempts
    ensures WindowsBounded(s.history + [Attempt(user, recorded)])
  {
    CountsAgree(s, now, user, checked - 300);
    var longer := s.history + [Attempt(user, recorded)];
    assert longer[..|longer| - 1] == s.history;
    forall who, lo
      ensures InWindow(longer, who, lo) <= MaxInvalidLoginAttempts
    {
      assert InWindow(s.history, who, lo) <= MaxInvalidLoginAttempts;
      if who == user && lo <= recorded <= lo + 300 {
        WindowWithin(s.history, user, checked - 300, lo, lo + 300);
      }
    }
  }

  lemma RecordKeepsConsistent(s: State, now: int, a: Attempt)
    requires Consistent(s, now) && a.created == now
    ensures Consistent(s.(history := s.history + [a]), now)
  {
  }

  lemma PruneKeepsConsistent(s: State, now: int, olderThan: int)
    requires Consistent(s, now) && olderThan <= now - 300
    ensures Consistent(s.(pruned := s.pruned + TooOld(Stored(s), olderThan)), now)
  {
    var n := TooOld(Stored(s), olderThan);
    if n > 0 {
      assert s.history[s.pruned + n - 1] == Stored(s)[n - 1];
    }
  }

  /** Seconds later than `now` do no harm. */
  lemma LaterIsFine(s: State, now: int, later: int)
    requires Consistent(s, now) && now <= later
    ensures Consistent(s, later)
  {
  }

  lemma CleanupIsLate(at: int)
    ensures Unix(at - CleanupAge) <= Unix(at) - 300
  {
    UnixShift(at);
    UnixMonotone(at - CleanupAge, at - LoginAttemptsWindow);
  }

  lemma EventKeeps(s: State, now: int, e: Event)
    requires Consistent(s, Unix(now)) && WindowsBounded(s.history) && now <= Start(e) <= End(e)
    ensures Consistent(After(s, e), Unix(End(e))) && WindowsBounded(After(s, e).history)
  {
    UnixMonotone(now, Start(e));
    UnixMonotone(Start(e), End(e));
    LaterIsFine(s, Unix(now), Unix(End(e)));
    match e
    case Request(_, _, _, _, _, _, _) =>
      UnixShift(e.checked);
      if LeavesRecord(Stored(s), e) {
        RecordKeepsBound(s, Unix(now), e.username, Unix(e.checked), Unix(e.recorded));
        RecordKeepsConsistent(s, Unix(e.recorded), Attempt(e.username, Unix(e.recorded)));
      }
    case Cleanup(at) =>
      CleanupIsLate(at);
      PruneKeepsConsistent(s, Unix(at), Unix(at - CleanupAge));
  }

  /** Over every run, pruning included: at most five recorded failures of a user in any five minutes. */
  lemma {:induction false} NeverMoreThanAllowed(events: seq<Event>)
    requires ClockOk(events)
    ensures WindowsBounded(RunAll(events).history)
    ensures Consistent(RunAll(events), if events == [] then 0 else Unix(End(events[|events| - 1])))
  {
    if events == [] {
      assert forall user, lo :: InWindow([], user, lo) == 0;
    } else {
      var front := events[..|events| - 1];
      var last := events[|events| - 1];
      NeverMoreThanAllowed(front);
      if front == [] {
        EventKeeps(State([], 0), Start(last), last);
      } else {
        EventKeeps(RunAll(front), End(front[|front| - 1]), last);
      }
    }
  }

  lemma {:induction false} AllCounted(log: seq<Attempt>, user: string, lo: int)
    requires forall i :: 0 <= i < |log| ==> log[i].username == user && log[i].created >= lo
    ensures CountSince(log, user, lo) == |log|
  {
    if log != [] {
      AllCounted(log[..|log| - 1], user, lo);
    }
  }

  /** A request with a wrong password and nothing else in the way. */
  ghost predicate WrongPassword(e: Event, user: string) {
    && e.Request? && e.username == user && e.password != "" && !e.countFails && !e.insertFails
    && e.answers.database == Some(InvalidCredentials) && !e.answers.ldapEnabled
  }

  /** The first `n` wrong passwords since second `since` are in the history, up to five, and nothing else is. */
  ghost predicate FirstFive(s: State, user: string, since: int, n: nat) {
    && s.pruned == 0 && |s.history| == (if n < 5 then n else 5)
    && forall i :: 0 <= i < |s.history| ==> s.history[i].username == user && s.history[i].created >= since
  }

  lemma OneMoreWrong(s: State, e: Event, user: string, since: int, n: nat)
    requires FirstFive(s, user, since, n) && WrongPassword(e, user)
    requires Unix(e.checked - LoginAttemptsWindow) <= since <= Unix(e.recorded)
    ensures FirstFive(After(s, e), user, since, n + 1)
  {
    assert Stored(s) == s.history;
    AllCounted(s.history, user, Unix(e.checked - LoginAttemptsWindow));
  }

  lemma InTheWindow(start: int, checked: int, recorded: int)
    requires start <= checked <= recorded && recorded - start <= 300_000_000_000
    ensures Unix(checked - LoginAttemptsWindow) <= Unix(start) <= Unix(recorded)
  {
    UnixMonotone(checked - LoginAttemptsWindow, start);
    UnixMonotone(start, recorded);
  }

  /** Of wrong passwords within five minutes exactly the first five are recorded: the limit is reached, and holds from then on. */
  lemma {:induction false} FirstFiveAreRecorded(events: seq<Event>, user: string)
    requires events != [] && ClockOk(events) && forall i :: 0 <= i < |events| ==> WrongPassword(events[i], user)
    requires End(events[|events| - 1]) - Start(events[0]) <= 300_000_000_000
    ensures FirstFive(RunAll(events), user, Unix(Start(events[0])), |events|)
  {
    var n := |events| - 1;
    var front, last := events[..n], events[n];
    StartsBefore(events, n);
    if n > 0 {
      assert front[n - 1] == events[n - 1] && front[0] == events[0];
      FirstFiveAreRecorded(front, user);
    }
    InTheWindow(Start(events[0]), last.checked, last.recorded);
    OneMoreWrong(RunAll(front), last, user, Unix(Start(events[0])), n);
  }

  lemma {:induction false} StartsBefore(events: seq<Event>, i: nat)
    requires ClockOk(events) && i < |events|
    ensures Start(events[0]) <= Start(events[i]) <= End(events[i])
  {
    if i > 0 {
      StartsBefore(events, i - 1);
    }
  }

  /** The limit means what it says over everything ever recorded: pruning never lets a request past it. */
  lemma LimitSeesAll(events: seq<Event>, username: string, checked: int)
    requires ClockOk(events) && (events != [] ==> End(events[|events| - 1]) <= checked)
    ensures OverLimit(Stored(RunAll(events)), username, checked)
            <==> CountSince(RunAll(events).history, username, Unix(checked) - 300) >= MaxInvalidLoginAttempts
  {
    NeverMoreThanAllowed(events);
    var s := RunAll(events);
    if events != [] {
      UnixMonotone(End(events[|events| - 1]), checked);
      LimitSeesHistory(s, Unix(End(events[|events| - 1])), username, checked);
    }
  }

  lemma LimitSeesHistory(s: State, now: int, username: string, checked: int)
    requires Consistent(s, now) && now <= Unix(checked)
    ensures OverLimit(Stored(s), username, checked) <==> CountSince(s.history, username, Unix(checked) - 300) >= MaxInvalidLoginAttempts
  {
    UnixShift(checked);
    CountsAgree(s, now, username, Unix(checked) - 300);
  }

  // ---------------------------------------------------------------- the code

  class Guard {
    const protection: bool
    /** The attempt table. */
    var stored: seq<Attempt>

    constructor (protection: bool)
      ensures this.protection == protection && stored == []
    {
      this.protection, this.stored := protection, [];
    }

    method CountAttempts(username: string, since: int) returns (n: nat)
      ensures n == CountSince(stored, username, since)
    {
      n := 0;
      for i := 0 to |stored|
        invariant n == CountSince(stored[..i], username, since)
      {
        assert stored[..i + 1][..i] == stored[..i];
        if stored[i].username == username && stored[i].created >= since {
          n := n + 1;
        }
      }
      assert stored[..|stored|] == stored;
    }

    method ValidateLoginAttempts(username: string, now: int, countFails: bool) returns (err: Option<LoginError>)
      ensures !protection ==> err.None?
      ensures protection && countFails ==> err.Some? && err.value.OtherError?
      ensures protection && !countFails
              ==> err == if CountSince(stored, username, Unix(now - LoginAttemptsWindow)) >= MaxInvalidLoginAttempts
                         then Some(TooManyLoginAttempts) else None
    {
      if !protection {
        return None;
      }
      if countFails {
        return Some(OtherError("count"));
      }
      var n := CountAttempts(username, Unix(now - LoginAttemptsWindow));
      return if n >= MaxInvalidLoginAttempts then Some(TooManyLoginAttempts) else None;
    }

    method SaveInvalidLoginAttempt(username: string, now: int, insertFails: bool) returns (ok: bool)
      modifies this
      ensures stored == if protection && !insertFails then old(stored) + [Attempt(username, Unix(now))] else old(stored)
    {
      if !protection {
        return true;
      }
      if insertFails {
        return false;
      }
      stored := stored + [Attempt(username, Unix(now))];
      return true;
    }

    /**
     * One login request. With protection on it moves the table as the event says; a request over the limit is
     * refused without asking anyone and records nothing.
     */
    method AuthenticateUser(e: Event) returns (reply: Reply)
      requires e.Request?
      modifies this
      ensures protection ==> stored == if LeavesRecord(old(stored), e) then old(stored) + [Attempt(e.username, Unix(e.recorded))] else old(stored)
      ensures !protection ==> stored == old(stored)
      ensures protection && !e.countFails && OverLimit(old(stored), e.username, e.checked)
              ==> reply == Reply(Some(TooManyLoginAttempts), "") && stored == old(stored)
      ensures !protection || (!e.countFails && !OverLimit(old(stored), e.username, e.checked))
              ==> reply == if e.password == "" then Reply(Some(PasswordEmpty), "") else ReplyTo(e.answers)
      ensures protection && e.countFails ==> reply.err.Some? && reply.err.value.OtherError? && stored == old(stored)
      ensures e.password != "" && (!protection || (!e.countFails && CountSince(old(stored), e.username, (e.checked - 300_000_000_000) / 1_000_000_000) < 5))
              ==> Decided(e.answers, reply, IsFailedAttempt(e.answers))
                  && stored == if protection && IsFailedAttempt(e.answers) && !e.insertFails
                               then old(stored) + [Attempt(e.username, e.recorded / 1_000_000_000)] else old(stored)
    {
      var refused := ValidateLoginAttempts(e.username, e.checked, e.countFails);
      if refused.Some? {
        return Reply(refused, "");
      }
      if |e.password| == 0 {
        return Reply(Some(PasswordEmpty), "");
      }
      var err := e.answers.database;
      if err.None? || (err.value != UserNotFound && err.value != InvalidCredentials && err.value != UserDisabled) {
        return Reply(err, "grafana");
      }
      var authModule := "";
      var ldapErr := e.answers.ldap;
      if e.answers.ldapEnabled {
        authModule := "ldap";
        if ldapErr.None? || ldapErr.value != LdapInvalidCredentials {
          return Reply(ldapErr, authModule);
        }
        if err.value != UserDisabled || ldapErr.value != LdapInvalidCredentials {
          err := ldapErr;
        }
      }
      if err.value == InvalidCredentials || err.value == LdapInvalidCredentials {
        var _ := SaveInvalidLoginAttempt(e.username, e.recorded, e.insertFails);
        return Reply(Some(InvalidCredentials), authModule);
      }
      return Reply(err, authModule);
    }

    /** Deletes everything up to the last attempt that is too old. */
    method DeleteOldLoginAttempts(olderThan: int)
      modifies this
      ensures stored == old(stored)[TooOld(old(stored), Unix(olderThan))..]
    {
      var n := |stored|;
      assert stored[..n] == stored;
      while n > 0 && stored[n - 1].created >= Unix(olderThan)
        invariant 0 <= n <= |stored|
        invariant TooOld(stored, Unix(olderThan)) == TooOld(stored[..n], Unix(olderThan))
      {
        assert stored[..n][..n - 1] == stored[..n - 1];
        n := n - 1;
      }
      stored := stored[n..];
    }

    method ServeOne(ghost s: State, e: Event)
      requires protection && s.pruned <= |s.history| && stored == Stored(s)
      modifies this
      ensures stored == Stored(After(s, e))
      ensures e.Cleanup? ==> DeletedBefore(old(stored), stored, (e.at - 600_000_000_000) / 1_000_000_000)
    {
      TableOfRun(s, e);
      if e.Request? {
        var _ := AuthenticateUser(e);
      } else {
        DeleteOldLoginAttempts(e.at - CleanupAge);
      }
    }

    /** A run of requests and cleanups, from an empty table: the table is what the run leaves of its history. */
    method Serve(events: seq<Event>)
      requires protection && stored == []
      modifies this
      ensures stored == Stored(RunAll(events))
      ensures ClockOk(events) ==> WindowsBounded(RunAll(events).history)
    {
      for i := 0 to |events|
        invariant stored == Stored(RunAll(events[..i]))
      {
        assert events[..i + 1][..i] == events[..i];
        ServeOne(RunAll(events[..i]), events[i]);
      }
      assert events[..|events|] == events;
      if ClockOk(events) {
        NeverMoreThanAllowed(events);
      }
    }
  }

  /** Gone are the attempts up to the last one before the second. */
  ghost predicate DeletedBefore(before: seq<Attempt>, after: seq<Attempt>, second: int) {
    && |after| <= |before| && after == before[|before| - |after|..]
    && (forall i :: 0 <= i < |after| ==> after[i].created >= second)
    && (|after| < |before| ==> before[|before| - |after| - 1].created < second)
  }

  /** What an event does to the table. */
  lemma TableOfRun(s: State, e: Event)
    requires s.pruned <= |s.history|
    ensures e.Request? ==>
              Stored(After(s, e)) == if LeavesRecord(Stored(s), e) then Stored(s) + [Attempt(e.username, Unix(e.recorded))] else Stored(s)
    ensures e.Cleanup? ==> Stored(After(s, e)) == Stored(s)[TooOld(Stored(s), Unix(e.at - CleanupAge))..]
  {
  }
}
