/**
 * Login requests that overlap. The limit is checked at one time and the failure recorded at another, so several
 * requests can pass the check on the same table (pkg/login/brute_force_login_protection.go, pkg/login/auth.go).
 */
module OverlappingLogins {
  import opened Prelude
  import opened Login

  /** Of one request: passing the limit check, recording a failure, or ending without a record; and the cleanup. */
  datatype Step =
    | Pass(user: string, at: int)
    | Record(user: string, at: int)
    | Leave(user: string, at: int)
    | Prune(at: int)

  /** All records with the pruned ones, the rest being the table, and the requests between their check and their end. */
  datatype Pool = Pool(state: State, inFlight: multiset<string>)

  predicate Enabled(s: Pool, step: Step) {
    && s.state.pruned <= |s.state.history|
    && match step
       case Pass(user, at) => !OverLimit(Stored(s.state), user, at)
       case Record(user, _) => user in s.inFlight
       case Leave(user, _) => user in s.inFlight
       case Prune(_) => true
  }

  function Apply(s: Pool, step: Step): Pool
    requires Enabled(s, step)
  {
    match step
    case Pass(user, _) => s.(inFlight := s.inFlight + multiset{user})
    case Record(user, at) =>
      Pool(s.state.(history := s.state.history + [Attempt(user, Unix(at))]), s.inFlight - multiset{user})
    case Leave(user, _) => s.(inFlight := s.inFlight - multiset{user})
    case Prune(at) => s.(state := After(s.state, Cleanup(at)))
  }

  ghost function Run(steps: seq<Step>): Option<Pool> {
    if steps == [] then Some(Pool(State([], 0), multiset{}))
    else
      var last := steps[|steps| - 1];
      match Run(steps[..|steps| - 1])
      case None => None
      case Some(mid) => if Enabled(mid, last) then Some(Apply(mid, last)) else None
  }

  ghost predicate InOrder(steps: seq<Step>) {
    forall i, j :: 0 <= i < j < |steps| ==> steps[i].at <= steps[j].at
  }

  /** Never more than `c` requests of the user between check and end. */
  ghost predicate AtMost(steps: seq<Step>, user: string, c: nat) {
    && (Run(steps).Some? ==> Run(steps).value.inFlight[user] <= c)
    && (steps != [] ==> AtMost(steps[..|steps| - 1], user, c))
  }

  lemma RunSnoc(steps: seq<Step>, step: Step)
    ensures Run(steps + [step])
         == if Run(steps).Some? && Enabled(Run(steps).value, step) then Some(Apply(Run(steps).value, step)) else None
  {
    assert (steps + [step])[..|steps|] == steps;
  }

  lemma AtMostSnoc(steps: seq<Step>, step: Step, user: string, c: nat)
    ensures AtMost(steps + [step], user, c)
       <==> AtMost(steps, user, c) && (Run(steps + [step]).Some? ==> Run(steps + [step]).value.inFlight[user] <= c)
  {
    assert (steps + [step])[..|steps|] == steps;
  }

  // ---------------------------------------------------------------- the bound

  /** A window that is still open at second `now` has room for the requests in flight. */
  ghost predicate Roomy(s: Pool, user: string, c: nat, now: int, lo: int) {
    InWindow(s.state.history, user, lo) + (if lo + 300 >= now then s.inFlight[user] else 0) <= MaxInvalidLoginAttempts - 1 + c
  }

  /** Every window has room, and what is pruned is out of every window to come. */
  ghost predicate AllRoomy(s: Pool, user: string, c: nat, now: int) {
    Consistent(s.state, now) && forall lo :: Roomy(s, user, c, now, lo)
  }

  lemma PassKeepsRoom(s: Pool, user: string, c: nat, step: Step, lo: int)
    requires step.Pass? && step.user == user && Enabled(s, step) && Apply(s, step).inFlight[user] <= c
    requires Consistent(s.state, Unix(step.at)) && Roomy(s, user, c, Unix(step.at), lo)
    ensures Roomy(Apply(s, step), user, c, Unix(step.at), lo)
  {
    if lo + 300 >= Unix(step.at) {
      UnixShift(step.at);
      CountsAgree(s.state, Unix(step.at), user, Unix(step.at) - 300);
      WindowWithin(s.state.history, user, Unix(step.at) - 300, lo, lo + 300);
    }
  }

  lemma StepKeepsConsistent(s: Pool, step: Step)
    requires Enabled(s, step) && Consistent(s.state, Unix(step.at))
    ensures Consistent(Apply(s, step).state, Unix(step.at))
  {
    match step
    case Record(user, at) => RecordKeepsConsistent(s.state, Unix(at), Attempt(user, Unix(at)));
    case Prune(at) =>
      CleanupIsLate(at);
      PruneKeepsConsistent(s.state, Unix(at), Unix(at - CleanupAge));
    case _ =>
  }

  lemma StepKeepsRoom(s: Pool, user: string, c: nat, step: Step, now: int)
    requires Enabled(s, step) && Apply(s, step).inFlight[user] <= c
    requires AllRoomy(s, user, c, now) && now <= Unix(step.at)
    ensures AllRoomy(Apply(s, step), user, c, Unix(step.at))
  {
    LaterIsFine(s.state, now, Unix(step.at));
    StepKeepsConsistent(s, step);
    forall lo
      ensures Roomy(Apply(s, step), user, c, Unix(step.at), lo)
    {
      assert Roomy(s, user, c, now, lo);
      if step.Pass? && step.user == user {
        PassKeepsRoom(s, user, c, step, lo);
      } else if step.Record? {
        var longer := s.state.history + [Attempt(step.user, Unix(step.at))];
        assert longer[..|longer| - 1] == s.state.history;
      }
    }
  }

  /**
   * With at most `c` requests of a user under way at a time, and cleanups at any time, no five minutes hold more than
   * four and `c` recorded failures: what one request after the other keeps to five, overlapping ones exceed by the overlap.
   */
  lemma {:induction false} BoundedByOverlap(steps: seq<Step>, user: string, c: nat)
    requires Run(steps).Some? && InOrder(steps) && AtMost(steps, user, c)
    ensures forall lo :: InWindow(Run(steps).value.state.history, user, lo) <= MaxInvalidLoginAttempts - 1 + c
    ensures steps != [] ==> AllRoomy(Run(steps).value, user, c, Unix(steps[|steps| - 1].at))
  {
    if steps != [] {
      var front := steps[..|steps| - 1];
      BoundedByOverlap(front, user, c);
      LastStepKeepsRoom(steps, front, Run(front).value, user, c);
    }
  }

  lemma LastStepKeepsRoom(steps: seq<Step>, front: seq<Step>, s: Pool, user: string, c: nat)
    requires steps != [] && front == steps[..|steps| - 1] && InOrder(steps)
    requires var step := steps[|steps| - 1]; Enabled(s, step) && Apply(s, step).inFlight[user] <= c
    requires if front == [] then s == Pool(State([], 0), multiset{}) else AllRoomy(s, user, c, Unix(front[|front| - 1].at))
    ensures var next := Apply(s, steps[|steps| - 1]);
            && AllRoomy(next, user, c, Unix(steps[|steps| - 1].at))
            && forall lo :: InWindow(next.state.history, user, lo) <= MaxInvalidLoginAttempts - 1 + c
  {
    var step := steps[|steps| - 1];
    var now := Unix(step.at);
    if front != [] {
      assert front[|front| - 1] == steps[|steps| - 2];
      now := Unix(front[|front| - 1].at);
      UnixMonotone(front[|front| - 1].at, step.at);
    }
    assert AllRoomy(s, user, c, now);
    StepKeepsRoom(s, user, c, step, now);
    forall lo
      ensures InWindow(Apply(s, step).state.history, user, lo) <= MaxInvalidLoginAttempts - 1 + c
    {
      assert Roomy(Apply(s, step), user, c, Unix(step.at), lo);
    }
  }

  // ---------------------------------------------------------------- the bound is met

  /** Failures of a user, all in second zero. */
  function Failures(u: string, n: nat): seq<Attempt> {
    seq(n, i => Attempt(u, 0))
  }

  lemma {:induction false} FailuresCount(u: string, n: nat, lo: int)
    requires lo <= 0
    ensures CountSince(Failures(u, n), u, lo) == n && (0 <= lo + 300 ==> InWindow(Failures(u, n), u, lo) == n)
  {
    if n > 0 {
      assert Failures(u, n)[..n - 1] == Failures(u, n - 1);
      FailuresCount(u, n - 1, lo);
    }
  }

  function Us(u: string, n: nat): multiset<string> {
    multiset{}[u := n]
  }

  lemma UsGrow(u: string, n: nat)
    ensures Us(u, n) + multiset{u} == Us(u, n + 1) && Us(u, n + 1) - multiset{u} == Us(u, n)
    ensures Us(u, n)[u] == n && (n > 0 ==> u in Us(u, n))
  {
  }

  lemma RoomForOne(u: string, n: nat)
    requires n < MaxInvalidLoginAttempts
    ensures !OverLimit(Stored(State(Failures(u, n), 0)), u, 0)
  {
    assert Stored(State(Failures(u, n), 0)) == Failures(u, n);
    FailuresCount(u, n, Unix(0 - LoginAttemptsWindow));
  }

  /** The steps are all at time zero and lead to `n` failures and `k` requests in flight, never more than `c`. */
  ghost predicate Leads(steps: seq<Step>, u: string, n: nat, k: nat, c: nat) {
    && Run(steps) == Some(Pool(State(Failures(u, n), 0), Us(u, k)))
    && (forall i :: 0 <= i < |steps| ==> steps[i].at == 0)
    && AtMost(steps, u, c)
  }

  lemma OnePass(u: string, steps: seq<Step>, n: nat, k: nat, c: nat)
    requires Leads(steps, u, n, k, c) && n < MaxInvalidLoginAttempts && k < c
    ensures Leads(steps + [Pass(u, 0)], u, n, k + 1, c)
  {
    RoomForOne(u, n);
    UsGrow(u, k);
    RunSnoc(steps, Pass(u, 0));
    AtMostSnoc(steps, Pass(u, 0), u, c);
  }

  lemma OneRecord(u: string, steps: seq<Step>, n: nat, k: nat, c: nat)
    requires Leads(steps, u, n, k + 1, c) && k < c
    ensures Leads(steps + [Record(u, 0)], u, n + 1, k, c)
  {
    UsGrow(u, k);
    assert Failures(u, n) + [Attempt(u, 0)] == Failures(u, n + 1);
    RunSnoc(steps, Record(u, 0));
    AtMostSnoc(steps, Record(u, 0), u, c);
  }

  lemma OneFailure(u: string, steps: seq<Step>, n: nat, c: nat) returns (longer: seq<Step>)
    requires Leads(steps, u, n, 0, c) && n < MaxInvalidLoginAttempts && c >= 1
    ensures Leads(longer, u, n + 1, 0, c)
  {
    OnePass(u, steps, n, 0, c);
    OneRecord(u, steps + [Pass(u, 0)], n, 0, c);
    longer := steps + [Pass(u, 0)] + [Record(u, 0)];
  }

  lemma NothingYet(u: string, steps: seq<Step>, n: nat, c: nat)
    requires n == 0 && steps == []
    ensures Leads(steps, u, n, n, c)
  {
    assert Failures(u, n) == [] && Us(u, n) == multiset{};
  }

  /** One request after the other, up to one below the limit. */
  lemma {:induction false} OneByOne(u: string, n: nat, c: nat) returns (steps: seq<Step>)
    requires n < MaxInvalidLoginAttempts && c >= 1
    ensures Leads(steps, u, n, 0, c)
  {
    if n == 0 {
      steps := [];
      NothingYet(u, steps, n, c);
    } else {
      var before := OneByOne(u, n - 1, c);
      steps := OneFailure(u, before, n - 1, c);
    }
  }

  /** Then `k` requests that all pass on the same table. */
  lemma {:induction false} AllPass(u: string, n: nat, k: nat, c: nat) returns (steps: seq<Step>)
    requires n < MaxInvalidLoginAttempts && k <= c && c >= 1
    ensures Leads(steps, u, n, k, c)
  {
    if k == 0 {
      steps := OneByOne(u, n, c);
    } else {
      var before := AllPass(u, n, k - 1, c);
      OnePass(u, before, n, k - 1, c);
      steps := before + [Pass(u, 0)];
    }
  }

  /** Then all of them fail but `k`. */
  lemma {:induction false} AllFail(u: string, n: nat, k: nat, c: nat) returns (steps: seq<Step>)
    requires n < MaxInvalidLoginAttempts && k <= c && c >= 1
    ensures Leads(steps, u, n + c - k, k, c)
    decreases c - k
  {
    if k == c {
      steps := AllPass(u, n, c, c);
    } else {
      var before := AllFail(u, n, k + 1, c);
      OneRecord(u, before, n + c - (k + 1), k, c);
      steps := before + [Record(u, 0)];
    }
  }

  /** For every degree of overlap there is a run that records as many failures as the bound allows. */
  lemma BoundIsMet(u: string, c: nat) returns (steps: seq<Step>)
    requires c >= 1
    ensures Run(steps).Some? && InOrder(steps) && AtMost(steps, u, c)
    ensures InWindow(Run(steps).value.state.history, u, 0) == MaxInvalidLoginAttempts - 1 + c
  {
    var n := MaxInvalidLoginAttempts - 1;
    steps := AllFail(u, n, 0, c);
    LeadsCount(u, steps, n + c, 0, c);
  }

  lemma LeadsCount(u: string, steps: seq<Step>, n: nat, k: nat, c: nat)
    requires Leads(steps, u, n, k, c)
    ensures InOrder(steps) && InWindow(Run(steps).value.state.history, u, 0) == n
  {
    FailuresCount(u, n, 0);
  }
}
