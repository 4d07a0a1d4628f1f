/**
 * The avatar download pool (pkg/api/avatar/avatar.go): clients put tasks on a bounded queue and wait for
 * them; a fixed number of workers takes tasks off and fetches them. Goroutines are modelled as a state
 * machine whose steps may interleave in any way.
 */
module AvatarPool {
  import opened Prelude

  type Task = nat

  type FetchResult = Option<string>

  /** Where a task is: its client blocked on sending, in the queue, at a worker (before and after the download), finished, or handed back. */
  datatype Phase =
    | Sending
    | Queued
    | Running(worker: nat)
    | Fetched(worker: nat, err: FetchResult)
    | Done(err: FetchResult)
    | Returned(err: FetchResult, result: FetchResult)

  /** `sent` and `begun` list the tasks in the order they entered the queue and were taken off it. */
  datatype State = State(size: nat, tasks: map<Task, Phase>, queue: seq<Task>, workers: seq<Option<Task>>,
                         sent: seq<Task>, begun: seq<Task>)

  datatype Step =
    | Submit(task: Task)
    | Send(task: Task)
    | Take(worker: nat)
    | Download(worker: nat, err: FetchResult)
    | Finish(worker: nat)
    | Return(task: Task)

  /** `Thunder.init`: at least one worker, and as many queue places as workers. */
  function Init(queueSize: int): State {
    var size: nat := if queueSize < 1 then 1 else queueSize;
    State(size, map[], [], seq(size, i => None), [], [])
  }

  predicate WorkerHas(s: State, w: nat, t: Task) {
    w < |s.workers| && s.workers[w] == Some(t)
  }

  /** Whether a step can be taken now. */
  predicate Enabled(s: State, step: Step) {
    match step
    case Submit(t) => t !in s.tasks
    case Send(t) => t in s.tasks && s.tasks[t].Sending? && |s.queue| < s.size
    case Take(w) => w < |s.workers| && s.workers[w].None? && s.queue != [] && s.queue[0] in s.tasks
    case Download(w, _) => w < |s.workers| && s.workers[w].Some? && s.workers[w].value in s.tasks && s.tasks[s.workers[w].value].Running?
    case Finish(w) => w < |s.workers| && s.workers[w].Some? && s.workers[w].value in s.tasks && s.tasks[s.workers[w].value].Fetched?
    case Return(t) => t in s.tasks && s.tasks[t].Done?
  }

  /** The effect of a step. Only the wait group stands between a task's `Finish` and its client's `Return`. */
  function Apply(s: State, step: Step): State
    requires Enabled(s, step)
  {
    match step
    case Submit(t) => s.(tasks := s.tasks[t := Sending])
    case Send(t) => s.(tasks := s.tasks[t := Queued], queue := s.queue + [t], sent := s.sent + [t])
    case Take(w) =>
      var t := s.queue[0];
      s.(tasks := s.tasks[t := Running(w)], queue := s.queue[1..], workers := s.workers[w := Some(t)], begun := s.begun + [t])
    case Download(w, err) =>
      var t := s.workers[w].value;
      s.(tasks := s.tasks[t := Fetched(w, err)])
    case Finish(w) =>
      var t := s.workers[w].value;
      s.(tasks := s.tasks[t := Done(s.tasks[t].err)], workers := s.workers[w := None])
    case Return(t) => s.(tasks := s.tasks[t := Returned(s.tasks[t].err, s.tasks[t].err)])
  }

  /** The state after a list of steps, None if one of them is not enabled when its turn comes. */
  ghost function Run(start: State, steps: seq<Step>): Option<State> {
    if steps == [] then Some(start)
    else
      var last := steps[|steps| - 1];
      match Run(start, steps[..|steps| - 1])
      case None => None
      case Some(mid) => if Enabled(mid, last) then Some(Apply(mid, last)) else None
  }

  // ---------------------------------------------------------------- the invariant

  /** The task is at the worker, by its own account. */
  ghost predicate IsAt(s: State, t: Task, w: nat) {
    t in s.tasks && ((s.tasks[t].Running? && s.tasks[t].worker == w) || (s.tasks[t].Fetched? && s.tasks[t].worker == w))
  }

  /** Each task is in exactly the place its phase says, and the places are bounded. */
  ghost predicate Placed(s: State) {
    && s.size >= 1 && |s.workers| == s.size && |s.queue| <= s.size
    && (forall t :: t in s.queue <==> t in s.tasks && s.tasks[t].Queued?)
    && (forall t, w :: IsAt(s, t, w) <==> WorkerHas(s, w, t))
  }

  /** First in, first out, and nothing twice. */
  ghost predicate Ordered(s: State) {
    && s.sent == s.begun + s.queue && Distinct(s.sent)
    && forall t :: t in s.sent <==> t in s.tasks && !s.tasks[t].Sending?
  }

  /** What a client gets is what its own task ended with. */
  ghost predicate HandedBack(s: State) {
    forall t :: t in s.tasks && s.tasks[t].Returned? ==> s.tasks[t].result == s.tasks[t].err
  }

  ghost predicate Invariant(s: State) {
    Placed(s) && Ordered(s) && HandedBack(s)
  }

  lemma InitHolds(queueSize: int)
    ensures Invariant(Init(queueSize))
  {
  }

  lemma HeadIsQueued(s: State)
    requires Placed(s) && s.queue != []
    ensures s.queue[0] in s.tasks && s.tasks[s.queue[0]].Queued?
  {
    assert s.queue[0] in s.queue;
  }

  lemma HeadIsUnique(s: State)
    requires Ordered(s) && s.queue != []
    ensures s.queue[0] !in s.queue[1..]
  {
    var n := |s.begun|;
    assert forall j :: 1 <= j < |s.queue| ==> s.sent[n + j] == s.queue[j];
    assert s.sent[n] == s.queue[0];
  }

  lemma TakeKeepsPlaces(s: State, w: nat)
    requires Placed(s) && Ordered(s) && Enabled(s, Take(w))
    ensures Placed(Apply(s, Take(w)))
  {
    var s' := Apply(s, Take(w));
    var head := s.queue[0];
    HeadIsQueued(s);
    HeadIsUnique(s);
    assert s.queue == [head] + s'.queue;
    assert forall u :: u in s.queue <==> u == head || u in s'.queue;
    forall u, v: nat
      ensures IsAt(s', u, v) <==> WorkerHas(s', v, u)
    {
      assert IsAt(s, u, v) <==> WorkerHas(s, v, u);
      assert IsAt(s, u, w) <==> WorkerHas(s, w, u);
    }
  }

  lemma WorkerStepKeepsPlaces(s: State, step: Step)
    requires Placed(s) && Enabled(s, step) && (step.Download? || step.Finish?)
    ensures Placed(Apply(s, step))
  {
    var s' := Apply(s, step);
    var w := step.worker;
    var t := s.workers[w].value;
    assert WorkerHas(s, w, t);
    forall u, v: nat
      ensures IsAt(s', u, v) <==> WorkerHas(s', v, u)
    {
      assert IsAt(s, u, v) <==> WorkerHas(s, v, u);
      assert IsAt(s, t, v) <==> WorkerHas(s, v, t);
    }
  }

  lemma ClientStepKeepsPlaces(s: State, step: Step)
    requires Placed(s) && Enabled(s, step) && (step.Submit? || step.Send? || step.Return?)
    ensures Placed(Apply(s, step))
  {
    var s' := Apply(s, step);
    assert step.Send? ==> forall u :: u in s'.queue <==> u in s.queue || u == step.task;
    forall u, v: nat
      ensures IsAt(s', u, v) <==> WorkerHas(s', v, u)
    {
      assert IsAt(s, u, v) <==> WorkerHas(s, v, u);
    }
  }

  lemma StepKeepsPlaces(s: State, step: Step)
    requires Placed(s) && Ordered(s) && Enabled(s, step)
    ensures Placed(Apply(s, step))
  {
    match step
    case Submit(_) => ClientStepKeepsPlaces(s, step);
    case Send(_) => ClientStepKeepsPlaces(s, step);
    case Return(_) => ClientStepKeepsPlaces(s, step);
    case Take(w) => TakeKeepsPlaces(s, w);
    case Download(_, _) => WorkerStepKeepsPlaces(s, step);
    case Finish(_) => WorkerStepKeepsPlaces(s, step);
  }

  lemma StepKeepsOrder(s: State, step: Step)
    requires Placed(s) && Ordered(s) && Enabled(s, step)
    ensures Ordered(Apply(s, step))
  {
    var s' := Apply(s, step);
    match step
    case Submit(t) =>
    case Send(t) =>
      assert s'.sent == s.begun + (s.queue + [t]);
      assert t !in s.sent;
      assert forall u :: u in s'.sent <==> u in s.sent || u == t;
    case Take(w) =>
      HeadIsQueued(s);
      assert s.queue == [s.queue[0]] + s'.queue;
      assert s'.sent == s'.begun + s'.queue;
    case Download(w, _) =>
    case Finish(w) =>
    case Return(t) =>
  }

  lemma StepKeeps(s: State, step: Step)
    requires Invariant(s) && Enabled(s, step)
    ensures Invariant(Apply(s, step))
  {
    StepKeepsPlaces(s, step);
    StepKeepsOrder(s, step);
  }

  /** Every state of every run satisfies the invariant. */
  lemma {:induction false} RunKeeps(queueSize: int, steps: seq<Step>)
    requires Run(Init(queueSize), steps).Some?
    ensures Invariant(Run(Init(queueSize), steps).value)
    ensures var s := Run(Init(queueSize), steps).value; s.size == |s.workers| == if queueSize < 1 then 1 else queueSize
  {
    if steps == [] {
      InitHolds(queueSize);
    } else {
      var front := steps[..|steps| - 1];
      RunKeeps(queueSize, front);
      StepKeeps(Run(Init(queueSize), front).value, steps[|steps| - 1]);
    }
  }

  // ---------------------------------------------------------------- bounded, once, in order

  ghost function RunningTasks(s: State): set<Task> {
    set t | t in s.tasks && (s.tasks[t].Running? || s.tasks[t].Fetched?)
  }

  /** The tasks the workers hold. */
  ghost function Held(workers: seq<Option<Task>>): set<Task> {
    if workers == [] then {}
    else Held(workers[..|workers| - 1]) + if workers[|workers| - 1].Some? then {workers[|workers| - 1].value} else {}
  }

  lemma {:induction false} HeldTasks(workers: seq<Option<Task>>)
    ensures |Held(workers)| <= |workers|
    ensures forall w :: 0 <= w < |workers| && workers[w].Some? ==> workers[w].value in Held(workers)
  {
    if workers != [] {
      var front := workers[..|workers| - 1];
      HeldTasks(front);
      forall w | 0 <= w < |workers| && workers[w].Some?
        ensures workers[w].value in Held(workers)
      {
        assert w < |front| ==> front[w] == workers[w];
      }
    }
  }

  /** In every run at most `QueueSize` tasks are queued and at most `QueueSize` are being fetched. */
  lemma Bounded(queueSize: int, steps: seq<Step>, s: State)
    requires Run(Init(queueSize), steps) == Some(s)
    ensures var size := if queueSize < 1 then 1 else queueSize; |s.queue| <= size && |RunningTasks(s)| <= size
  {
    RunKeeps(queueSize, steps);
    HeldTasks(s.workers);
    forall t | t in RunningTasks(s)
      ensures t in Held(s.workers)
    {
      assert IsAt(s, t, s.tasks[t].worker);
    }
    SubsetCardinality(RunningTasks(s), Held(s.workers));
  }

  lemma RunMore(start: State, steps: seq<Step>, step: Step)
    requires Run(start, steps).Some? && Enabled(Run(start, steps).value, step)
    ensures Run(start, steps + [step]) == Some(Apply(Run(start, steps).value, step))
  {
    assert (steps + [step])[..|steps|] == steps;
  }

  /** Tasks `0` to `busy - 1` are with the workers of these numbers, and the next ones up to `all - 1` are in the queue. */
  ghost predicate Loaded(s: State, size: nat, busy: nat, all: nat) {
    && busy <= size && busy <= all && s.size == |s.workers| == size
    && (forall t: Task :: t in s.tasks <==> t < all)
    && (forall t: Task :: t < all ==> s.tasks[t] == if t < busy then Running(t) else Queued)
    && (forall w :: 0 <= w < size ==> s.workers[w] == if w < busy then Some(w) else None)
    && |s.queue| == all - busy && forall i :: 0 <= i < |s.queue| ==> s.queue[i] == busy + i
  }

  lemma OneBusy(s: State, size: nat, n: nat)
    requires Loaded(s, size, n, n) && n < size
    ensures Enabled(s, Submit(n)) && Enabled(Apply(s, Submit(n)), Send(n))
    ensures var sent := Apply(Apply(s, Submit(n)), Send(n)); Enabled(sent, Take(n)) && Loaded(Apply(sent, Take(n)), size, n + 1, n + 1)
  {
    assert s.queue == [];
  }

  lemma OneQueued(s: State, size: nat, n: nat)
    requires Loaded(s, size, size, n) && n < size + size
    ensures Enabled(s, Submit(n)) && Enabled(Apply(s, Submit(n)), Send(n))
    ensures Loaded(Apply(Apply(s, Submit(n)), Send(n)), size, size, n + 1)
  {
  }

  lemma {:induction false} CanBeBusy(queueSize: int, size: nat, n: nat) returns (steps: seq<Step>)
    requires size == Init(queueSize).size && n <= size
    ensures Run(Init(queueSize), steps).Some? && Loaded(Run(Init(queueSize), steps).value, size, n, n)
  {
    if n == 0 {
      steps := [];
      assert Run(Init(queueSize), steps) == Some(Init(queueSize));
    } else {
      steps := CanBeBusy(queueSize, size, n - 1);
      var s := Run(Init(queueSize), steps).value;
      OneBusy(s, size, n - 1);
      RunMore(Init(queueSize), steps, Submit(n - 1));
      RunMore(Init(queueSize), steps + [Submit(n - 1)], Send(n - 1));
      RunMore(Init(queueSize), steps + [Submit(n - 1)] + [Send(n - 1)], Take(n - 1));
      steps := steps + [Submit(n - 1)] + [Send(n - 1)] + [Take(n - 1)];
    }
  }

  lemma {:induction false} CanBeFull(queueSize: int, size: nat, n: nat) returns (steps: seq<Step>)
    requires size == Init(queueSize).size && size <= n <= size + size
    ensures Run(Init(queueSize), steps).Some? && Loaded(Run(Init(queueSize), steps).value, size, size, n)
  {
    if n == size {
      steps := CanBeBusy(queueSize, size, size);
    } else {
      steps := CanBeFull(queueSize, size, n - 1);
      var s := Run(Init(queueSize), steps).value;
      OneQueued(s, size, n - 1);
      RunMore(Init(queueSize), steps, Submit(n - 1));
      RunMore(Init(queueSize), steps + [Submit(n - 1)], Send(n - 1));
      steps := steps + [Submit(n - 1)] + [Send(n - 1)];
    }
  }

  lemma BusyAreRunning(s: State, size: nat, all: nat)
    requires Loaded(s, size, size, all)
    ensures |RunningTasks(s)| == size
  {
    var numbers: seq<Task> := seq(size, i => i);
    DistinctCardinality(numbers);
    forall t: Task
      ensures t in RunningTasks(s) <==> t in numbers
    {
      if t < size {
        assert numbers[t] == t;
      }
    }
    assert RunningTasks(s) == Elems(numbers);
  }

  /** All places can be in use at once: a run with that many tasks queued and that many being fetched. */
  lemma BoundIsMet(queueSize: int) returns (steps: seq<Step>)
    ensures Run(Init(queueSize), steps).Some?
    ensures var s, size := Run(Init(queueSize), steps).value, if queueSize < 1 then 1 else queueSize;
            |s.queue| == size && |RunningTasks(s)| == size
  {
    var size := Init(queueSize).size;
    steps := CanBeFull(queueSize, size, size + size);
    BusyAreRunning(Run(Init(queueSize), steps).value, size, size + size);
  }

  /** The downloads begun for a task in the course of a run. */
  ghost function Downloads(s: State, t: Task): nat {
    multiset(s.begun)[t]
  }

  lemma {:induction false} DistinctCount(xs: seq<Task>, t: Task)
    requires Distinct(xs)
    ensures multiset(xs)[t] == if t in xs then 1 else 0
  {
    if xs != [] {
      assert xs == xs[..|xs| - 1] + [xs[|xs| - 1]];
      DistinctCount(xs[..|xs| - 1], t);
    }
  }

  /** A task is handed to a worker once if it got that far, and never otherwise; and in the order of sending. */
  lemma FetchedOnce(queueSize: int, steps: seq<Step>, s: State, t: Task)
    requires Run(Init(queueSize), steps) == Some(s)
    ensures Downloads(s, t) == if t in s.tasks && !s.tasks[t].Sending? && !s.tasks[t].Queued? then 1 else 0
    ensures s.begun <= s.sent
  {
    RunKeeps(queueSize, steps);
    assert Distinct(s.begun) by {
      assert forall i, j :: 0 <= i < j < |s.begun| ==> s.begun[i] == s.sent[i] && s.begun[j] == s.sent[j];
    }
    DistinctCount(s.begun, t);
    NotBoth(s.begun, s.queue, t);
    assert t in s.sent <==> t in s.begun || t in s.queue;
  }

  lemma NotBoth(a: seq<Task>, b: seq<Task>, t: Task)
    requires Distinct(a + b)
    ensures !(t in a && t in b)
  {
    forall i, j | 0 <= i < |a| && 0 <= j < |b|
      ensures a[i] != b[j]
    {
      assert (a + b)[i] != (a + b)[|a| + j];
    }
  }

  // ---------------------------------------------------------------- what a client gets

  /** At step `k` of the run the worker that has the task ends its download with this error. */
  ghost predicate EndedAt(steps: seq<Step>, start: State, t: Task, err: FetchResult, k: nat) {
    k < |steps| && Run(start, steps[..k]).Some? && steps[k].Download? && steps[k].err == err
    && WorkerHas(Run(start, steps[..k]).value, steps[k].worker, t)
  }

  ghost predicate Ended(steps: seq<Step>, start: State, t: Task, err: FetchResult) {
    exists k: nat :: EndedAt(steps, start, t, err, k)
  }

  lemma EndedEarlier(steps: seq<Step>, start: State, t: Task, err: FetchResult)
    requires steps != [] && Ended(steps[..|steps| - 1], start, t, err)
    ensures Ended(steps, start, t, err)
  {
    var front := steps[..|steps| - 1];
    var k: nat :| EndedAt(front, start, t, err, k);
    assert front[..k] == steps[..k];
    assert EndedAt(steps, start, t, err, k);
  }

  ghost predicate HasError(p: Phase) {
    p.Fetched? || p.Done? || p.Returned?
  }

  /** A recorded error stays, and only a download at the worker that has the task records one. */
  lemma ErrorStays(s: State, step: Step, t: Task)
    requires Placed(s) && Enabled(s, step) && t in Apply(s, step).tasks && HasError(Apply(s, step).tasks[t])
    ensures (t in s.tasks && HasError(s.tasks[t]) && Apply(s, step).tasks[t].err == s.tasks[t].err)
            || (step.Download? && WorkerHas(s, step.worker, t) && Apply(s, step).tasks[t].err == step.err)
  {
  }

  /** An error recorded for a task is what the download of that very task ended with, earlier in the run. */
  lemma {:induction false} ErrorsAreOwn(queueSize: int, steps: seq<Step>, t: Task)
    requires Run(Init(queueSize), steps).Some?
    requires var s := Run(Init(queueSize), steps).value; t in s.tasks && HasError(s.tasks[t])
    ensures Ended(steps, Init(queueSize), t, Run(Init(queueSize), steps).value.tasks[t].err)
  {
    var start := Init(queueSize);
    var last := steps[|steps| - 1];
    var front := steps[..|steps| - 1];
    var mid := Run(start, front).value;
    RunKeeps(queueSize, front);
    ErrorStays(mid, last, t);
    var err := Run(start, steps).value.tasks[t].err;
    if t in mid.tasks && HasError(mid.tasks[t]) && mid.tasks[t].err == err {
      ErrorsAreOwn(queueSize, front, t);
      EndedEarlier(steps, start, t, err);
    } else {
      assert EndedAt(steps, start, t, err, |steps| - 1);
    }
  }

  /** `Fetch` returns only after its own task was downloaded, and with that download's error. */
  lemma ReturnsOwnResult(queueSize: int, steps: seq<Step>, s: State, t: Task)
    requires Run(Init(queueSize), steps) == Some(s) && t in s.tasks && s.tasks[t].Returned?
    ensures Ended(steps, Init(queueSize), t, s.tasks[t].result)
  {
    RunKeeps(queueSize, steps);
    ErrorsAreOwn(queueSize, steps, t);
  }

  // ---------------------------------------------------------------- progress

  /** While a task is not handed back, some step of the pool or of a waiting client can be taken. */
  lemma NeverStuck(queueSize: int, steps: seq<Step>, s: State, t: Task)
    requires Run(Init(queueSize), steps) == Some(s) && t in s.tasks && !s.tasks[t].Returned?
    ensures exists step: Step :: !step.Submit? && Enabled(s, step)
  {
    RunKeeps(queueSize, steps);
    match s.tasks[t]
    case Done(_) => assert Enabled(s, Return(t));
    case Fetched(w, _) =>
      assert IsAt(s, t, w);
      assert Enabled(s, Finish(w));
    case Running(w) =>
      assert IsAt(s, t, w);
      assert Enabled(s, Download(w, None));
    case Queued =>
      assert t in s.queue;
      QueueMoves(s);
    case Sending =>
      if |s.queue| < s.size {
        assert Enabled(s, Send(t));
      } else {
        QueueMoves(s);
      }
  }

  /** With something in the queue, either the first worker can take it or the first worker's own task can go on. */
  lemma QueueMoves(s: State)
    requires Invariant(s) && s.queue != []
    ensures exists step: Step :: !step.Submit? && Enabled(s, step)
  {
    if s.workers[0].None? {
      HeadIsQueued(s);
      assert Enabled(s, Take(0));
    } else {
      assert WorkerHas(s, 0, s.workers[0].value);
      if s.tasks[s.workers[0].value].Running? {
        assert Enabled(s, Download(0, None));
      } else {
        assert Enabled(s, Finish(0));
      }
    }
  }

  function Rank(p: Phase): nat {
    match p
    case Sending => 0
    case Queued => 1
    case Running(_) => 2
    case Fetched(_, _) => 3
    case Done(_) => 4
    case Returned(_, _) => 5
  }

  /** The tasks that have come at least this far. */
  ghost function Reached(s: State, r: nat): set<Task> {
    set t | t in s.tasks && Rank(s.tasks[t]) >= r
  }

  ghost function Work(s: State): nat {
    |Reached(s, 1)| + |Reached(s, 2)| + |Reached(s, 3)| + |Reached(s, 4)| + |Reached(s, 5)|
  }

  /** One task moved on by one phase: exactly one of the counts grows, by one. */
  lemma OneStepOfWork(s: State, s': State, t: Task)
    requires t in s.tasks && s'.tasks.Keys == s.tasks.Keys && Rank(s'.tasks[t]) == Rank(s.tasks[t]) + 1
    requires forall u :: u in s.tasks && u != t ==> s'.tasks[u] == s.tasks[u]
    ensures Work(s') == Work(s) + 1
  {
    var r := Rank(s.tasks[t]) + 1;
    forall k: nat
      ensures Reached(s', k) == Reached(s, k) + if k == r then {t} else {}
      ensures k == r ==> t !in Reached(s, k)
    {
    }
    forall k: nat
      ensures |Reached(s', k)| == |Reached(s, k)| + if k == r then 1 else 0
    {
      if k == r {
        assert Reached(s', k) == Reached(s, k) + {t};
      }
    }
  }

  ghost function Moves(steps: seq<Step>): nat {
    if steps == [] then 0 else Moves(steps[..|steps| - 1]) + if steps[|steps| - 1].Submit? then 0 else 1
  }

  lemma SubmitIsNoWork(s: State, t: Task)
    requires t !in s.tasks
    ensures Work(s.(tasks := s.tasks[t := Sending])) == Work(s)
  {
    var s' := s.(tasks := s.tasks[t := Sending]);
    assert forall k: nat :: k > 0 ==> Reached(s', k) == Reached(s, k);
  }

  /** Every step but a submission is one unit of work. */
  lemma StepIsWork(s: State, step: Step)
    requires Placed(s) && Enabled(s, step)
    ensures Work(Apply(s, step)) == Work(s) + if step.Submit? then 0 else 1
  {
    match step
    case Submit(t) => SubmitIsNoWork(s, t);
    case Send(t) => OneStepOfWork(s, Apply(s, step), t);
    case Take(w) =>
      HeadIsQueued(s);
      OneStepOfWork(s, Apply(s, step), s.queue[0]);
    case Download(w, _) => OneStepOfWork(s, Apply(s, step), s.workers[w].value);
    case Finish(w) => OneStepOfWork(s, Apply(s, step), s.workers[w].value);
    case Return(t) => OneStepOfWork(s, Apply(s, step), t);
  }

  lemma {:induction false} MovesAreWork(queueSize: int, steps: seq<Step>)
    requires Run(Init(queueSize), steps).Some?
    ensures Work(Run(Init(queueSize), steps).value) == Moves(steps)
  {
    if steps == [] {
      assert forall k: nat :: Reached(Init(queueSize), k) == {};
    } else {
      var front := steps[..|steps| - 1];
      MovesAreWork(queueSize, front);
      RunKeeps(queueSize, front);
      StepIsWork(Run(Init(queueSize), front).value, steps[|steps| - 1]);
    }
  }

  /**
   * Every schedule brings every task home: five moves per submitted task are all there can be, and a run that
   * cannot move on has handed back all of them.
   */
  lemma EverythingReturns(queueSize: int, steps: seq<Step>, s: State)
    requires Run(Init(queueSize), steps) == Some(s)
    ensures Moves(steps) <= 5 * |s.tasks|
    ensures (forall step: Step :: Enabled(s, step) ==> step.Submit?) <==> forall t :: t in s.tasks ==> s.tasks[t].Returned?
    ensures (forall t :: t in s.tasks ==> s.tasks[t].Returned?) <==> Moves(steps) == 5 * |s.tasks|
  {
    RunKeeps(queueSize, steps);
    MovesAreWork(queueSize, steps);
    forall k: nat
      ensures |Reached(s, k)| <= |s.tasks.Keys|
    {
      SubsetCardinality(Reached(s, k), s.tasks.Keys);
    }
    if forall t :: t in s.tasks ==> s.tasks[t].Returned? {
      assert forall k: nat :: k <= 5 ==> Reached(s, k) == s.tasks.Keys;
      AllReturnedIsStuck(s);
    }
    if t :| t in s.tasks && !s.tasks[t].Returned? {
      NeverStuck(queueSize, steps, s, t);
      assert t !in Reached(s, 5);
      SubsetCardinality(Reached(s, 5), s.tasks.Keys - {t});
    }
  }

  lemma AllReturnedIsStuck(s: State)
    requires Invariant(s) && forall t :: t in s.tasks ==> s.tasks[t].Returned?
    ensures forall step: Step :: Enabled(s, step) ==> step.Submit?
  {
    if s.queue != [] {
      HeadIsQueued(s);
    }
    assert forall w :: 0 <= w < |s.workers| && s.workers[w].Some? ==> WorkerHas(s, w, s.workers[w].value);
  }
}
