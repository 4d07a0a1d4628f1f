/**
 * The symlink-following directory walk with loop detection (pkg/util/filepath.go), as the plugin scan calls
 * it. Links are followed through the file system's answer to Lstat; a directory that contains a `dist`
 * directory is entered only there.
 */
module FileWalk {
  import opened Prelude

  type Path = seq<string>

  /** What a directory entry is; an unreadable link has no target, and a directory may refuse to be listed. */
  datatype Node = File | Link(target: Option<Path>) | Dir(readable: bool, entries: seq<Entry>)

  datatype Entry = Entry(name: string, node: Node)

  datatype Info = Info(name: string, isDir: bool, isLink: bool)

  /** One call of the callback: with which path and info, and whether it reports a directory that cannot be listed. */
  datatype Visit = Visit(resolvedPath: Path, info: Info, failed: bool)

  datatype Answer = Continue | SkipDir | Abort(code: int)

  datatype Error = Skipped | Aborted(code: int) | PossibleLoop(target: Path) | NotFound(target: Path) | UnreadableLink

  function InfoOf(name: string, n: Node): Info {
    Info(name, n.Dir?, n.Link?)
  }

  function Base(p: Path): string {
    if p == [] then "/" else p[|p| - 1]
  }

  // ---------------------------------------------------------------- link targets

  ghost function Targets(n: Node): set<Path> {
    match n
    case File => {}
    case Link(t) => if t.Some? then {t.value} else {}
    case Dir(_, entries) => EntryTargets(entries)
  }

  ghost function EntryTargets(entries: seq<Entry>): set<Path> {
    if entries == [] then {} else Targets(entries[0].node) + EntryTargets(entries[1..])
  }

  lemma {:induction false} TargetsOfEntry(entries: seq<Entry>, i: nat)
    requires i < |entries|
    ensures Targets(entries[i].node) <= EntryTargets(entries)
  {
    if i > 0 {
      TargetsOfEntry(entries[1..], i - 1);
    }
  }

  /** All targets of links in a finite file system. */
  ghost function AllTargets(fs: map<Path, Node>, root: Node): set<Path> {
    Targets(root) + set p, t | p in fs && t in Targets(fs[p]) :: t
  }

  // ---------------------------------------------------------------- what is visited when nothing is in the way

  /** The `dist` directory among the entries. */
  function DistOf(entries: seq<Entry>): (d: Option<Node>)
    ensures d.Some? ==> d.value.Dir? && exists i :: 0 <= i < |entries| && entries[i] == Entry("dist", d.value)
    ensures d.None? ==> forall i :: 0 <= i < |entries| ==> !(entries[i].name == "dist" && entries[i].node.Dir?)
  {
    if entries == [] then None
    else if entries[0].node.Dir? && entries[0].name == "dist" then Some(entries[0].node)
    else DistOf(entries[1..])
  }

  /** No links, and every directory can be listed. */
  ghost predicate Plain(n: Node) {
    match n
    case File => true
    case Link(_) => false
    case Dir(readable, entries) => readable && forall i :: 0 <= i < |entries| ==> Plain(entries[i].node)
  }

  /** Pre-order: a directory before its entries, or before its `dist` directory alone, which is reported with the info of its parent. */
  ghost function Preorder(n: Node, info: Info, rp: Path): seq<Visit>
    decreases n
  {
    [Visit(rp, info, false)] +
    if !n.Dir? then []
    else
      var d := DistOf(n.entries);
      if d.None? then PreorderAll(n.entries, rp)
      else
        assert d.value < n by { var i :| 0 <= i < |n.entries| && n.entries[i] == Entry("dist", d.value); assert n.entries[i].node < n; }
        Preorder(d.value, info, rp + ["dist"])
  }

  ghost function PreorderAll(entries: seq<Entry>, rp: Path): seq<Visit>
    decreases entries
  {
    if entries == [] then []
    else
      var last := entries[|entries| - 1];
      PreorderAll(entries[..|entries| - 1], rp) + Preorder(last.node, InfoOf(last.name, last.node), rp + [last.name])
  }

  // ---------------------------------------------------------------- following every link, without a guard

  /** What a walk does: calls the callback, or goes to the target of a link. */
  datatype Event = Called(visit: Visit) | Went(target: Path)

  /** `Exhausted` means that more links are nested than were to be followed. */
  datatype End = Finished | Stopped(error: Error) | Exhausted

  datatype Tour = Tour(events: seq<Event>, end: End)

  ghost predicate LetsAllPass(f: Visit -> Answer) {
    forall v :: f(v) == Continue
  }

  function Then(a: Tour, b: Tour): Tour {
    if a.end.Finished? then Tour(a.events + b.events, b.end) else a
  }

  /**
   * The naive walk: it follows every link, up to `fuel` of them nested, leaves out the directories the callback skips,
   * and stops at the first error.
   */
  ghost function Naive(f: Visit -> Answer, fs: map<Path, Node>, fuel: nat, n: Node, info: Info, rp: Path): Tour
    decreases fuel, n, 1
  {
    var first := Visit(rp, info, false);
    match f(first)
    case SkipDir => Tour([Called(first)], if info.isDir then Finished else Stopped(Skipped))
    case Abort(code) => Tour([Called(first)], Stopped(Aborted(code)))
    case Continue => Then(Tour([Called(first)], Finished), Inside(f, fs, fuel, n, info, rp))
  }

  /** What comes after the first call: nothing for a file, the target of a link, the entries of a directory. */
  ghost function Inside(f: Visit -> Answer, fs: map<Path, Node>, fuel: nat, n: Node, info: Info, rp: Path): Tour
    decreases fuel, n, 0
  {
    match n
    case File => Tour([], Finished)
    case Link(t) =>
      if t.None? then Tour([], Stopped(UnreadableLink))
      else if fuel == 0 then Tour([], Exhausted)
      else if t.value !in fs then Tour([Went(t.value)], Stopped(NotFound(t.value)))
      else Then(Tour([Went(t.value)], Finished), Naive(f, fs, fuel - 1, fs[t.value], InfoOf(Base(t.value), fs[t.value]), t.value))
    case Dir(readable, entries) =>
      if !readable then
        var again := Visit(rp, info, true);
        Tour([Called(again)], match f(again) case Continue => Finished case SkipDir => Stopped(Skipped) case Abort(code) => Stopped(Aborted(code)))
      else
        var d := DistOf(entries);
        if d.None? then NaiveAll(f, fs, fuel, entries, rp)
        else
          assert d.value < n by { var i :| 0 <= i < |entries| && entries[i] == Entry("dist", d.value); assert entries[i].node < n; }
          Naive(f, fs, fuel, d.value, info, rp + ["dist"])
  }

  ghost function NaiveAll(f: Visit -> Answer, fs: map<Path, Node>, fuel: nat, entries: seq<Entry>, rp: Path): Tour
    decreases fuel, entries, 0
  {
    if entries == [] then Tour([], Finished)
    else
      var last := entries[|entries| - 1];
      Then(NaiveAll(f, fs, fuel, entries[..|entries| - 1], rp),
           Naive(f, fs, fuel, last.node, InfoOf(last.name, last.node), rp + [last.name]))
  }

  /** The calls among the events. */
  function Visits(events: seq<Event>): seq<Visit> {
    if events == [] then []
    else Visits(events[..|events| - 1]) + if events[|events| - 1].Called? then [events[|events| - 1].visit] else []
  }

  /** The targets among the events. */
  function Followed(events: seq<Event>): seq<Path> {
    if events == [] then []
    else Followed(events[..|events| - 1]) + if events[|events| - 1].Went? then [events[|events| - 1].target] else []
  }

  lemma {:induction false} EventsJoin(a: seq<Event>, b: seq<Event>)
    ensures Visits(a + b) == Visits(a) + Visits(b) && Followed(a + b) == Followed(a) + Followed(b)
  {
    if b == [] {
      assert a + b == a;
    } else {
      assert (a + b)[..|a + b| - 1] == a + b[..|b| - 1];
      EventsJoin(a, b[..|b| - 1]);
    }
  }

  // ---------------------------------------------------------------- stopping before a repeated target

  /** The tour up to the first target that comes up again, counting those already followed. */
  ghost function Guarded(tour: Tour, followed: set<Path>): Tour
    decreases |tour.events|
  {
    if tour.events == [] then tour
    else
      var e, rest := tour.events[0], Tour(tour.events[1..], tour.end);
      match e
      case Called(_) => Then(Tour([e], Finished), Guarded(rest, followed))
      case Went(t) =>
        if t in followed then Tour([], Stopped(PossibleLoop(t)))
        else Then(Tour([e], Finished), Guarded(rest, followed + {t}))
  }

  /** No target comes up twice, counting those already followed. */
  ghost predicate Fresh(targets: seq<Path>, followed: set<Path>) {
    Distinct(targets) && forall t :: t in targets ==> t !in followed
  }

  lemma ThenAssociative(a: Tour, b: Tour, c: Tour)
    ensures Then(Then(a, b), c) == Then(a, Then(b, c))
  {
    assert (a.events + b.events) + c.events == a.events + (b.events + c.events);
  }

  lemma ThenNothing(b: Tour)
    ensures Then(Tour([], Finished), b) == b
  {
    assert [] + b.events == b.events;
  }

  lemma FirstFollowed(events: seq<Event>)
    requires events != []
    ensures Followed(events) == (if events[0].Went? then [events[0].target] else []) + Followed(events[1..])
  {
    assert events == [events[0]] + events[1..];
    EventsJoin([events[0]], events[1..]);
  }

  /** The guard over a tour after a tour. */
  lemma {:induction false} GuardedThen(a: Tour, b: Tour, followed: set<Path>)
    ensures Guarded(Then(a, b), followed)
         == Then(Guarded(a, followed), Guarded(b, followed + Elems(Followed(a.events))))
    decreases |a.events|
  {
    if a.events == [] {
      ThenNothing(b);
      ThenNothing(Guarded(b, followed));
      assert followed + Elems(Followed(a.events)) == followed;
    } else {
      var e, rest := a.events[0], Tour(a.events[1..], a.end);
      FirstFollowed(a.events);
      if e.Went? {
        GuardedThen(rest, b, followed + {e.target});
        assert Elems(Followed(a.events)) == {e.target} + Elems(Followed(a.events[1..]));
        assert followed + Elems(Followed(a.events)) == (followed + {e.target}) + Elems(Followed(a.events[1..]));
        ThenAssociative(Tour([e], Finished), Guarded(rest, followed + {e.target}), Guarded(b, followed + Elems(Followed(a.events))));
      } else {
        GuardedThen(rest, b, followed);
        assert Followed(a.events) == Followed(a.events[1..]);
        ThenAssociative(Tour([e], Finished), Guarded(rest, followed), Guarded(b, followed + Elems(Followed(a.events))));
      }
      SplitFirst(a, b);
    }
  }

  lemma SplitFirst(a: Tour, b: Tour)
    requires a.events != []
    ensures Then(a, b).events != [] && Then(a, b).events[0] == a.events[0]
    ensures Tour(Then(a, b).events[1..], Then(a, b).end) == Then(Tour(a.events[1..], a.end), b)
  {
    assert (a.events + b.events)[1..] == a.events[1..] + b.events;
  }

  /** The guard lets a tour through exactly if it is finished and meets only targets that are new; and then changes nothing. */
  lemma {:induction false} GuardedFinished(tour: Tour, followed: set<Path>)
    ensures Guarded(tour, followed).end.Finished? <==> tour.end.Finished? && Fresh(Followed(tour.events), followed)
    ensures Guarded(tour, followed).end.Finished? ==> Guarded(tour, followed) == tour
    decreases |tour.events|
  {
    if tour.events != [] {
      var e, rest := tour.events[0], Tour(tour.events[1..], tour.end);
      FirstFollowed(tour.events);
      assert tour.events == [e] + tour.events[1..];
      if e.Went? {
        GuardedFinished(rest, followed + {e.target});
        FreshFirst(e.target, Followed(rest.events), followed);
      } else {
        GuardedFinished(rest, followed);
        assert [] + Followed(rest.events) == Followed(rest.events);
      }
    }
  }

  lemma FreshFirst(t: Path, targets: seq<Path>, followed: set<Path>)
    ensures Fresh([t] + targets, followed) <==> t !in followed && Fresh(targets, followed + {t})
  {
    DistinctFirst(t, targets);
    assert t in [t] + targets && forall x :: x in [t] + targets <==> x == t || x in targets;
  }

  lemma DistinctFirst(t: Path, targets: seq<Path>)
    ensures Distinct([t] + targets) <==> t !in targets && Distinct(targets)
  {
    var all := [t] + targets;
    if Distinct(all) {
      forall k | 0 <= k < |targets|
        ensures targets[k] != t
      {
        var m := k + 1;
        assert all[m] == targets[k] && all[0] == t;
      }
      forall i, j | 0 <= i < j < |targets|
        ensures targets[i] != targets[j]
      {
        var m, n := i + 1, j + 1;
        assert all[m] == targets[i] && all[n] == targets[j];
      }
    }
  }

  lemma DistinctLast(targets: seq<Path>, t: Path)
    requires Distinct(targets) && t !in Elems(targets)
    ensures Distinct(targets + [t]) && Elems(targets + [t]) == Elems(targets) + {t}
  {
    forall i | 0 <= i < |targets|
      ensures targets[i] != t
    {
      assert targets[i] in Elems(targets);
    }
  }

  lemma OneFewerLeft(all: set<Path>, followed: set<Path>, t: Path)
    requires t in all && t !in followed
    ensures all - (followed + {t}) < all - followed && |all - (followed + {t})| == |all - followed| - 1
  {
    assert all - followed == (all - (followed + {t})) + {t};
  }

  // ---------------------------------------------------------------- enough fuel is enough

  /** The same tour, or one that goes on where the first was exhausted. */
  ghost predicate GoesOn(a: Tour, b: Tour) {
    a == b || (a.end.Exhausted? && a.events <= b.events)
  }

  lemma ThenGoesOn(a: Tour, a': Tour, b: Tour, b': Tour)
    requires GoesOn(a, a') && GoesOn(b, b')
    ensures GoesOn(Then(a, b), Then(a', b'))
  {
  }

  lemma {:induction false} MoreFuel(f: Visit -> Answer, fs: map<Path, Node>, fuel: nat, more: nat, n: Node, info: Info, rp: Path)
    requires fuel <= more
    ensures GoesOn(Naive(f, fs, fuel, n, info, rp), Naive(f, fs, more, n, info, rp))
    decreases fuel, n, 1
  {
    var first := Tour([Called(Visit(rp, info, false))], Finished);
    MoreFuelInside(f, fs, fuel, more, n, info, rp);
    ThenGoesOn(first, first, Inside(f, fs, fuel, n, info, rp), Inside(f, fs, more, n, info, rp));
  }

  lemma {:induction false} MoreFuelInside(f: Visit -> Answer, fs: map<Path, Node>, fuel: nat, more: nat, n: Node, info: Info, rp: Path)
    requires fuel <= more
    ensures GoesOn(Inside(f, fs, fuel, n, info, rp), Inside(f, fs, more, n, info, rp))
    decreases fuel, n, 0
  {
    match n
    case File =>
    case Link(t) =>
      if t.Some? && fuel > 0 && t.value in fs {
        var went, info2 := Tour([Went(t.value)], Finished), InfoOf(Base(t.value), fs[t.value]);
        MoreFuel(f, fs, fuel - 1, more - 1, fs[t.value], info2, t.value);
        ThenGoesOn(went, went, Naive(f, fs, fuel - 1, fs[t.value], info2, t.value), Naive(f, fs, more - 1, fs[t.value], info2, t.value));
      }
    case Dir(readable, entries) =>
      if readable {
        var d := DistOf(entries);
        if d.None? {
          MoreFuelAll(f, fs, fuel, more, entries, rp);
        } else {
          var i :| 0 <= i < |entries| && entries[i] == Entry("dist", d.value);
          assert entries[i].node < n;
          MoreFuel(f, fs, fuel, more, d.value, info, rp + ["dist"]);
        }
      }
  }

  lemma {:induction false} MoreFuelAll(f: Visit -> Answer, fs: map<Path, Node>, fuel: nat, more: nat, entries: seq<Entry>, rp: Path)
    requires fuel <= more
    ensures GoesOn(NaiveAll(f, fs, fuel, entries, rp), NaiveAll(f, fs, more, entries, rp))
    decreases fuel, entries, 0
  {
    if entries != [] {
      var front, last := entries[..|entries| - 1], entries[|entries| - 1];
      var info, path := InfoOf(last.name, last.node), rp + [last.name];
      MoreFuelAll(f, fs, fuel, more, front, rp);
      MoreFuel(f, fs, fuel, more, last.node, info, path);
      ThenGoesOn(NaiveAll(f, fs, fuel, front, rp), NaiveAll(f, fs, more, front, rp),
                 Naive(f, fs, fuel, last.node, info, path), Naive(f, fs, more, last.node, info, path));
    }
  }

  /** A guarded tour that does not run out of fuel is the guarded tour for any more fuel. */
  lemma {:induction false} GuardedGoesOn(a: Tour, b: Tour, followed: set<Path>)
    requires GoesOn(a, b) && !Guarded(a, followed).end.Exhausted?
    ensures Guarded(b, followed) == Guarded(a, followed)
    decreases |a.events|
  {
    if a.events != [] {
      var rest, rest' := Tour(a.events[1..], a.end), Tour(b.events[1..], b.end);
      assert a.events[0] == b.events[0] && GoesOn(rest, rest');
      var e := a.events[0];
      if e.Called? {
        GuardedGoesOn(rest, rest', followed);
      } else if e.target !in followed {
        GuardedGoesOn(rest, rest', followed + {e.target});
      }
    }
  }

  /** The first entries of a directory, up to one that does not let the walk finish, are all there is of the tour. */
  lemma {:induction false} StopsThere(f: Visit -> Answer, fs: map<Path, Node>, fuel: nat, entries: seq<Entry>, rp: Path, k: nat, followed: set<Path>)
    requires k <= |entries| && !Guarded(NaiveAll(f, fs, fuel, entries[..k], rp), followed).end.Finished?
    ensures Guarded(NaiveAll(f, fs, fuel, entries, rp), followed) == Guarded(NaiveAll(f, fs, fuel, entries[..k], rp), followed)
    decreases |entries|
  {
    if k == |entries| {
      assert entries[..k] == entries;
    } else {
      var front, last := entries[..|entries| - 1], entries[|entries| - 1];
      assert front[..k] == entries[..k];
      StopsThere(f, fs, fuel, front, rp, k, followed);
      GuardedThen(NaiveAll(f, fs, fuel, front, rp), Naive(f, fs, fuel, last.node, InfoOf(last.name, last.node), rp + [last.name]), followed);
    }
  }

  // ---------------------------------------------------------------- plain trees

  function AllCalled(vs: seq<Visit>): seq<Event> {
    seq(|vs|, i requires 0 <= i < |vs| => Called(vs[i]))
  }

  lemma {:induction false} CallsOnly(vs: seq<Visit>)
    ensures Visits(AllCalled(vs)) == vs && Followed(AllCalled(vs)) == []
  {
    if vs != [] {
      assert AllCalled(vs)[..|vs| - 1] == AllCalled(vs[..|vs| - 1]);
      CallsOnly(vs[..|vs| - 1]);
    }
  }

  lemma CalledJoin(a: seq<Visit>, b: seq<Visit>)
    ensures Then(Tour(AllCalled(a), Finished), Tour(AllCalled(b), Finished)) == Tour(AllCalled(a + b), Finished)
  {
    assert AllCalled(a) + AllCalled(b) == AllCalled(a + b);
  }

  /** A tour of a plain tree is the pre-order. */
  lemma {:induction false} PlainTour(f: Visit -> Answer, fs: map<Path, Node>, fuel: nat, n: Node, info: Info, rp: Path)
    requires Plain(n) && LetsAllPass(f)
    ensures Naive(f, fs, fuel, n, info, rp) == Tour(AllCalled(Preorder(n, info, rp)), Finished)
    decreases n
  {
    var first := Visit(rp, info, false);
    assert AllCalled([first]) == [Called(first)] && f(first) == Continue;
    if n.Dir? {
      var d := DistOf(n.entries);
      if d.None? {
        PlainTourAll(f, fs, fuel, n.entries, rp);
        CalledJoin([first], PreorderAll(n.entries, rp));
      } else {
        var i :| 0 <= i < |n.entries| && n.entries[i] == Entry("dist", d.value);
        assert n.entries[i].node < n && Plain(n.entries[i].node);
        PlainTour(f, fs, fuel, d.value, info, rp + ["dist"]);
        CalledJoin([first], Preorder(d.value, info, rp + ["dist"]));
      }
    } else {
      CalledJoin([first], []);
      assert AllCalled([]) == [];
    }
  }

  lemma {:induction false} PlainTourAll(f: Visit -> Answer, fs: map<Path, Node>, fuel: nat, entries: seq<Entry>, rp: Path)
    requires LetsAllPass(f) && forall i :: 0 <= i < |entries| ==> Plain(entries[i].node)
    ensures NaiveAll(f, fs, fuel, entries, rp) == Tour(AllCalled(PreorderAll(entries, rp)), Finished)
    decreases entries
  {
    if entries == [] {
      assert AllCalled([]) == [];
    } else {
      var front, last := entries[..|entries| - 1], entries[|entries| - 1];
      PlainTourAll(f, fs, fuel, front, rp);
      PlainTour(f, fs, fuel, last.node, InfoOf(last.name, last.node), rp + [last.name]);
      CalledJoin(PreorderAll(front, rp), Preorder(last.node, InfoOf(last.name, last.node), rp + [last.name]));
    }
  }

  // ---------------------------------------------------------------- the code

  /** From one list of visits and targets to another exactly this tour was made, with this result. */
  function EndOf(err: Option<Error>): End {
    if err.Some? then Stopped(err.value) else Finished
  }

  ghost predicate IsMade(tour: Tour, visits0: seq<Visit>, log0: seq<Path>, visits: seq<Visit>, log: seq<Path>, err: Option<Error>) {
    && visits == visits0 + Visits(tour.events) && log == log0 + Followed(tour.events)
    && tour.end == EndOf(err)
  }

  lemma MadeThen(a: Tour, b: Tour, v0: seq<Visit>, l0: seq<Path>, v1: seq<Visit>, l1: seq<Path>, v2: seq<Visit>, l2: seq<Path>, err: Option<Error>)
    requires IsMade(a, v0, l0, v1, l1, None) && IsMade(b, v1, l1, v2, l2, err)
    ensures IsMade(Then(a, b), v0, l0, v2, l2, err)
  {
    EventsJoin(a.events, b.events);
  }

  class Walker {
    const fs: map<Path, Node>
    const walkFn: Visit -> Answer
    ghost const all: set<Path>
    var symlinkPathsFollowed: set<Path>
    var visits: seq<Visit>
    /** The targets followed, in order. */
    ghost var log: seq<Path>

    ghost predicate Valid()
      reads this
    {
      && symlinkPathsFollowed <= all
      && Distinct(log) && Elems(log) == symlinkPathsFollowed
      && forall p :: p in fs ==> Targets(fs[p]) <= all
    }

    constructor (fs: map<Path, Node>, root: Node, walkFn: Visit -> Answer)
      ensures Valid() && this.fs == fs && this.walkFn == walkFn && all == AllTargets(fs, root)
      ensures visits == [] && log == []
    {
      this.fs, this.walkFn, this.all := fs, walkFn, AllTargets(fs, root);
      symlinkPathsFollowed, visits, log := {}, [], [];
    }

    method Call(v: Visit) returns (a: Answer)
      modifies this`visits
      ensures visits == old(visits) + [v] && a == walkFn(v)
    {
      a := walkFn(v);
      visits := visits + [v];
    }

    /** The links that are not followed yet can all be nested. */
    ghost predicate Enough(fuel: nat)
      reads this
    {
      fuel > |all - symlinkPathsFollowed|
    }

    /** From one state to another exactly this tour was made, with this result. */
    ghost predicate Made(tour: Tour, visits0: seq<Visit>, log0: seq<Path>, err: Option<Error>)
      reads this
    {
      IsMade(tour, visits0, log0, visits, log, err)
    }

    /**
     * One entry and all below it. Terminates whatever the links do, because each link followed uses up a target
     * and each step down a directory uses up height; no target is ever followed twice. In every case it makes the naive
     * walk up to the first error or the first target that comes up again, and ends in that error.
     */
    method Walk(node: Node, info: Info, resolvedPath: Path, ghost fuel: nat) returns (err: Option<Error>)
      requires Valid() && Targets(node) <= all && Enough(fuel)
      requires info.isDir == node.Dir? && info.isLink == node.Link?
      modifies this
      ensures Valid() && old(symlinkPathsFollowed) <= symlinkPathsFollowed
      ensures Made(Guarded(Naive(walkFn, fs, fuel, node, info, resolvedPath), old(symlinkPathsFollowed)), old(visits), old(log), err)
      decreases all - symlinkPathsFollowed, node, 3
    {
      ghost var first := Tour([Called(Visit(resolvedPath, info, false))], Finished);
      OneCall(Visit(resolvedPath, info, false), symlinkPathsFollowed);
      var answer := Call(Visit(resolvedPath, info, false));
      if answer.SkipDir? {
        return if info.isDir then None else Some(Skipped);
      }
      if answer.Abort? {
        return Some(Aborted(answer.code));
      }
      ghost var inside := Inside(walkFn, fs, fuel, node, info, resolvedPath);
      ghost var followed, called := symlinkPathsFollowed, visits;
      GuardedAfterCall(Visit(resolvedPath, info, false), inside, followed);
      err := Below(node, info, resolvedPath, fuel);
      MadeThen(first, Guarded(inside, followed), old(visits), old(log), called, old(log), visits, log, err);
    }

    /** After the first call. */
    method Below(node: Node, info: Info, resolvedPath: Path, ghost fuel: nat) returns (err: Option<Error>)
      requires Valid() && Targets(node) <= all && Enough(fuel)
      requires info.isDir == node.Dir? && info.isLink == node.Link?
      modifies this
      ensures Valid() && old(symlinkPathsFollowed) <= symlinkPathsFollowed
      ensures Made(Guarded(Inside(walkFn, fs, fuel, node, info, resolvedPath), old(symlinkPathsFollowed)), old(visits), old(log), err)
      decreases all - symlinkPathsFollowed, node, 2
    {
      if info.isLink {
        err := Follow(node, resolvedPath, info, fuel);
        return;
      }
      if info.isDir {
        if !node.readable {
          OneCall(Visit(resolvedPath, info, true), symlinkPathsFollowed);
          var answer := Call(Visit(resolvedPath, info, true));
          return if answer.Continue? then None else if answer.SkipDir? then Some(Skipped) else Some(Aborted(answer.code));
        }
        var dist := DistOf(node.entries);
        if dist.Some? {
          ghost var i :| 0 <= i < |node.entries| && node.entries[i] == Entry("dist", dist.value);
          TargetsOfEntry(node.entries, i);
          assert node.entries[i].node < node;
          err := Walk(dist.value, info, resolvedPath + ["dist"], fuel);
        } else {
          err := EnterAll(node, resolvedPath, fuel);
        }
        return;
      }
      err := None;
    }

    /** Through a link to what it points at. */
    method Follow(node: Node, resolvedPath: Path, info: Info, ghost fuel: nat) returns (err: Option<Error>)
      requires Valid() && node.Link? && Targets(node) <= all && Enough(fuel)
      modifies this
      ensures Valid() && old(symlinkPathsFollowed) <= symlinkPathsFollowed
      ensures Made(Guarded(Inside(walkFn, fs, fuel, node, info, resolvedPath), old(symlinkPathsFollowed)), old(visits), old(log), err)
      decreases all - symlinkPathsFollowed, node, 1
    {
      if node.target.None? {
        return Some(UnreadableLink);
      }
      var path2 := node.target.value;
      if path2 in symlinkPathsFollowed {
        GuardedLink(walkFn, fs, fuel, node, info, resolvedPath, symlinkPathsFollowed);
        return Some(PossibleLoop(path2));
      }
      EnoughForOne(all, symlinkPathsFollowed, path2);
      GuardedLink(walkFn, fs, fuel, node, info, resolvedPath, symlinkPathsFollowed);
      err := GoTo(node, path2, fuel);
    }

    /** To a target that was not followed yet. */
    method GoTo(ghost node: Node, path2: Path, ghost fuel: nat) returns (err: Option<Error>)
      requires Valid() && path2 in all && path2 !in symlinkPathsFollowed && Enough(fuel) && fuel > 0
      modifies this
      ensures Valid() && old(symlinkPathsFollowed) <= symlinkPathsFollowed
      ensures Made(Onward(walkFn, fs, fuel - 1, path2, old(symlinkPathsFollowed)), old(visits), old(log), err)
      decreases all - symlinkPathsFollowed, node, 0
    {
      ghost var visits0, log0, followed0 := visits, log, symlinkPathsFollowed;
      ghost var tour := Onward(walkFn, fs, fuel - 1, path2, followed0);
      Mark(path2, fuel);
      err := Arrive(path2, fuel - 1, followed0, visits0, log0, tour);
    }

    /** At a target that was just followed. */
    method Arrive(path2: Path, ghost fuel: nat, ghost followed0: set<Path>, ghost visits0: seq<Visit>, ghost log0: seq<Path>, ghost tour: Tour)
      returns (err: Option<Error>)
      requires Valid() && Enough(fuel)
      requires tour == Onward(walkFn, fs, fuel, path2, followed0)
      requires symlinkPathsFollowed == followed0 + {path2} && log == log0 + [path2] && visits == visits0
      modifies this
      ensures Valid() && old(symlinkPathsFollowed) <= symlinkPathsFollowed
      ensures Made(tour, visits0, log0, err)
      decreases all - symlinkPathsFollowed, if path2 in fs then fs[path2] else File, 4
    {
      if path2 !in fs {
        WentIsMade(path2, visits0, log0);
        return Some(NotFound(path2));
      }
      OnwardArrives(walkFn, fs, fuel, path2, followed0, symlinkPathsFollowed);
      var info2 := InfoOf(Base(path2), fs[path2]);
      ghost var rest := Guarded(Naive(walkFn, fs, fuel, fs[path2], info2, path2), symlinkPathsFollowed);
      err := Walk(fs[path2], info2, path2, fuel);
      MadeAfterGoing(path2, rest, visits0, log0, visits, log, err);
    }

    /** A target that was not followed yet is now. */
    method Mark(path2: Path, ghost fuel: nat)
      requires Valid() && path2 in all && path2 !in symlinkPathsFollowed && Enough(fuel) && fuel > 0
      modifies this`symlinkPathsFollowed, this`log
      ensures Valid() && symlinkPathsFollowed == old(symlinkPathsFollowed) + {path2} && log == old(log) + [path2]
      ensures Enough(fuel - 1) && all - symlinkPathsFollowed < all - old(symlinkPathsFollowed)
    {
      DistinctLast(log, path2);
      OneFewerLeft(all, symlinkPathsFollowed, path2);
      symlinkPathsFollowed, log := symlinkPathsFollowed + {path2}, log + [path2];
    }

    /** The loop over the entries; the first error ends it. */
    method EnterAll(node: Node, resolvedPath: Path, ghost fuel: nat) returns (err: Option<Error>)
      requires Valid() && node.Dir? && Targets(node) <= all && Enough(fuel)
      modifies this
      ensures Valid() && old(symlinkPathsFollowed) <= symlinkPathsFollowed
      ensures Made(Guarded(NaiveAll(walkFn, fs, fuel, node.entries, resolvedPath), old(symlinkPathsFollowed)), old(visits), old(log), err)
      decreases all - symlinkPathsFollowed, node, 1
    {
      for k := 0 to |node.entries|
        invariant Valid() && old(symlinkPathsFollowed) <= symlinkPathsFollowed && Enough(fuel)
        invariant Made(Guarded(NaiveAll(walkFn, fs, fuel, node.entries[..k], resolvedPath), old(symlinkPathsFollowed)), old(visits), old(log), None)
      {
        err := EnterOne(node, resolvedPath, k, fuel, old(symlinkPathsFollowed), old(visits), old(log));
        if err.Some? {
          StopsThere(walkFn, fs, fuel, node.entries, resolvedPath, k + 1, old(symlinkPathsFollowed));
          return;
        }
      }
      assert node.entries[..|node.entries|] == node.entries;
      err := None;
    }

    /** One round of the loop. */
    method EnterOne(node: Node, resolvedPath: Path, k: nat, ghost fuel: nat, ghost followed0: set<Path>, ghost visits0: seq<Visit>, ghost log0: seq<Path>)
      returns (err: Option<Error>)
      requires Valid() && node.Dir? && Targets(node) <= all && k < |node.entries| && Enough(fuel) && Elems(log0) == followed0
      requires Made(Guarded(NaiveAll(walkFn, fs, fuel, node.entries[..k], resolvedPath), followed0), visits0, log0, None)
      modifies this
      ensures Valid() && old(symlinkPathsFollowed) <= symlinkPathsFollowed && Enough(fuel)
      ensures Made(Guarded(NaiveAll(walkFn, fs, fuel, node.entries[..k + 1], resolvedPath), followed0), visits0, log0, err)
      decreases all - symlinkPathsFollowed, node, 0
    {
      var entry := node.entries[k];
      var info, path := InfoOf(entry.name, entry.node), resolvedPath + [entry.name];
      TargetsOfEntry(node.entries, k);
      assert entry.node < node;
      ghost var before, one := NaiveAll(walkFn, fs, fuel, node.entries[..k], resolvedPath), Naive(walkFn, fs, fuel, entry.node, info, path);
      assert node.entries[..k + 1][..k] == node.entries[..k];
      GuardedThen(before, one, followed0);
      GuardedFinished(before, followed0);
      ElemsJoin(log0, Followed(before.events));
      ghost var followed, visits1, log1 := symlinkPathsFollowed, visits, log;
      err := Walk(entry.node, info, path, fuel);
      MadeThen(Guarded(before, followed0), Guarded(one, followed), visits0, log0, visits1, log1, visits, log, err);
      SubsetCardinality(all - symlinkPathsFollowed, all - followed);
    }
  }

  lemma ElemsJoin(a: seq<Path>, b: seq<Path>)
    ensures Elems(a + b) == Elems(a) + Elems(b)
  {
  }

  lemma GuardedAfterCall(v: Visit, inside: Tour, followed: set<Path>)
    ensures Guarded(Then(Tour([Called(v)], Finished), inside), followed) == Then(Tour([Called(v)], Finished), Guarded(inside, followed))
  {
    OneCall(v, followed);
    GuardedThen(Tour([Called(v)], Finished), inside, followed);
    assert followed + {} == followed;
  }

  lemma OneCall(v: Visit, followed: set<Path>)
    ensures Visits([Called(v)]) == [v] && Followed([Called(v)]) == [] && Elems(Followed([Called(v)])) == {}
    ensures forall end :: Guarded(Tour([Called(v)], end), followed) == Tour([Called(v)], end)
  {
    assert [Called(v)][..0] == [] && [Called(v)][1..] == [];
  }

  lemma WentIsMade(t: Path, visits: seq<Visit>, log: seq<Path>)
    ensures IsMade(Tour([Went(t)], Finished), visits, log, visits, log + [t], None)
    ensures IsMade(Tour([Went(t)], Stopped(NotFound(t))), visits, log, visits, log + [t], Some(NotFound(t)))
  {
    assert [Went(t)][..0] == [];
    assert Visits([Went(t)]) == [] && Followed([Went(t)]) == [t];
  }

  lemma MadeAfterGoing(t: Path, b: Tour, v0: seq<Visit>, l0: seq<Path>, v: seq<Visit>, l: seq<Path>, err: Option<Error>)
    requires IsMade(b, v0, l0 + [t], v, l, err)
    ensures IsMade(Then(Tour([Went(t)], Finished), b), v0, l0, v, l, err)
  {
    WentIsMade(t, v0, l0);
    MadeThen(Tour([Went(t)], Finished), b, v0, l0, v0, l0 + [t], v, l, err);
  }

  lemma EnoughForOne(all: set<Path>, followed: set<Path>, t: Path)
    requires t in all && t !in followed
    ensures |all - followed| > 0
  {
    OneFewerLeft(all, followed, t);
  }

  /** A link to a target that was not followed yet, and what comes after it. */
  ghost function Onward(f: Visit -> Answer, fs: map<Path, Node>, fuel: nat, t: Path, followed: set<Path>): Tour {
    if t !in fs then Tour([Went(t)], Stopped(NotFound(t)))
    else Arrival(f, fs, fuel, t, followed + {t})
  }

  ghost function Arrival(f: Visit -> Answer, fs: map<Path, Node>, fuel: nat, t: Path, followed: set<Path>): Tour
    requires t in fs
  {
    Then(Tour([Went(t)], Finished), Guarded(Naive(f, fs, fuel, fs[t], InfoOf(Base(t), fs[t]), t), followed))
  }

  lemma OnwardArrives(f: Visit -> Answer, fs: map<Path, Node>, fuel: nat, t: Path, followed: set<Path>, now: set<Path>)
    requires t in fs && now == followed + {t}
    ensures Onward(f, fs, fuel, t, followed) == Arrival(f, fs, fuel, t, now)
  {
  }

  /** The guard at a link. */
  lemma GuardedLink(f: Visit -> Answer, fs: map<Path, Node>, fuel: nat, n: Node, info: Info, rp: Path, followed: set<Path>)
    requires n.Link? && n.target.Some? && fuel > 0
    ensures var t, inside := n.target.value, Guarded(Inside(f, fs, fuel, n, info, rp), followed);
            inside == if t in followed then Tour([], Stopped(PossibleLoop(t)))
                      else Onward(f, fs, fuel - 1, t, followed)
  {
    var t := n.target.value;
    assert [Went(t)][1..] == [];
    if t in fs {
      var rest := Naive(f, fs, fuel - 1, fs[t], InfoOf(Base(t), fs[t]), t);
      assert ([Went(t)] + rest.events)[1..] == rest.events;
    }
  }

  /** The naive walk of a path, nesting as many links as there are targets. */
  ghost function NaiveWalk(f: Visit -> Answer, fs: map<Path, Node>, path: Path): Tour
    requires path in fs
  {
    Naive(f, fs, |AllTargets(fs, fs[path])| + 1, fs[path], InfoOf(Base(path), fs[path]), path)
  }

  ghost predicate AllIn(fs: map<Path, Node>, all: set<Path>) {
    forall p :: p in fs ==> Targets(fs[p]) <= all
  }

  /** Under the guard no walk nests more links than there are targets. */
  lemma {:induction false} NeverExhausted(f: Visit -> Answer, fs: map<Path, Node>, fuel: nat, n: Node, info: Info, rp: Path, followed: set<Path>, all: set<Path>)
    requires Targets(n) <= all && AllIn(fs, all) && fuel > |all - followed|
    ensures !Guarded(Naive(f, fs, fuel, n, info, rp), followed).end.Exhausted?
    decreases fuel, n, 1
  {
    OneCall(Visit(rp, info, false), followed);
    GuardedAfterCall(Visit(rp, info, false), Inside(f, fs, fuel, n, info, rp), followed);
    NeverExhaustedInside(f, fs, fuel, n, info, rp, followed, all);
  }

  lemma {:induction false} NeverExhaustedInside(f: Visit -> Answer, fs: map<Path, Node>, fuel: nat, n: Node, info: Info, rp: Path, followed: set<Path>, all: set<Path>)
    requires Targets(n) <= all && AllIn(fs, all) && fuel > |all - followed|
    ensures !Guarded(Inside(f, fs, fuel, n, info, rp), followed).end.Exhausted?
    decreases fuel, n, 0
  {
    match n
    case File =>
    case Link(target) =>
      if target.Some? {
        var t := target.value;
        GuardedLink(f, fs, fuel, n, info, rp, followed);
        if t !in followed && t in fs {
          OneFewerLeft(all, followed, t);
          NeverExhausted(f, fs, fuel - 1, fs[t], InfoOf(Base(t), fs[t]), t, followed + {t}, all);
        }
      }
    case Dir(readable, entries) =>
      OneCall(Visit(rp, info, true), followed);
      if readable {
        var d := DistOf(entries);
        if d.None? {
          NeverExhaustedAll(f, fs, fuel, entries, rp, followed, all);
        } else {
          var i :| 0 <= i < |entries| && entries[i] == Entry("dist", d.value);
          TargetsOfEntry(entries, i);
          assert entries[i].node < n;
          NeverExhausted(f, fs, fuel, d.value, info, rp + ["dist"], followed, all);
        }
      }
  }

  lemma {:induction false} NeverExhaustedAll(f: Visit -> Answer, fs: map<Path, Node>, fuel: nat, entries: seq<Entry>, rp: Path, followed: set<Path>, all: set<Path>)
    requires EntryTargets(entries) <= all && AllIn(fs, all) && fuel > |all - followed|
    ensures !Guarded(NaiveAll(f, fs, fuel, entries, rp), followed).end.Exhausted?
    decreases fuel, entries, 0
  {
    if entries != [] {
      var front, last := entries[..|entries| - 1], entries[|entries| - 1];
      var before, info, path := NaiveAll(f, fs, fuel, front, rp), InfoOf(last.name, last.node), rp + [last.name];
      var later := followed + Elems(Followed(before.events));
      TargetsOfEntry(entries, |entries| - 1);
      FrontTargets(entries);
      SubsetCardinality(all - later, all - followed);
      GuardedThen(before, Naive(f, fs, fuel, last.node, info, path), followed);
      NeverExhaustedAll(f, fs, fuel, front, rp, followed, all);
      NeverExhausted(f, fs, fuel, last.node, info, path, later, all);
    }
  }

  lemma {:induction false} FrontTargets(entries: seq<Entry>)
    requires entries != []
    ensures EntryTargets(entries[..|entries| - 1]) <= EntryTargets(entries)
  {
    if |entries| > 1 {
      assert entries[1..][..|entries| - 2] == entries[..|entries| - 1][1..];
      FrontTargets(entries[1..]);
    }
  }

  /** As many links nested as there are targets are enough: with more, the guarded walk is the same. */
  lemma FuelDoesNotMatter(f: Visit -> Answer, fs: map<Path, Node>, path: Path, more: nat)
    requires path in fs && more > |AllTargets(fs, fs[path])|
    ensures Guarded(Naive(f, fs, more, fs[path], InfoOf(Base(path), fs[path]), path), {}) == Guarded(NaiveWalk(f, fs, path), {})
  {
    var all := AllTargets(fs, fs[path]);
    var enough := |all| + 1;
    assert all - {} == all;
    NeverExhausted(f, fs, enough, fs[path], InfoOf(Base(path), fs[path]), path, {}, all);
    MoreFuel(f, fs, enough, more, fs[path], InfoOf(Base(path), fs[path]), path);
    GuardedGoesOn(NaiveWalk(f, fs, path), Naive(f, fs, more, fs[path], InfoOf(Base(path), fs[path]), path), {});
  }

  /**
   * The walk of a path: fails if there is nothing there. Otherwise it makes the naive walk up to the first error of the
   * callback, dead link, or target that comes up again, and ends in that error; it succeeds exactly if the naive walk
   * finishes without meeting a target twice.
   */
  method WalkPath(fs: map<Path, Node>, path: Path, walkFn: Visit -> Answer) returns (err: Option<Error>, visits: seq<Visit>, ghost followed: seq<Path>)
    ensures path !in fs ==> err == Some(NotFound(path)) && visits == []
    ensures Distinct(followed)
    ensures path in fs ==> Elems(followed) <= AllTargets(fs, fs[path])
    ensures path in fs ==>
              var tour := Guarded(NaiveWalk(walkFn, fs, path), {});
              && visits == Visits(tour.events) && followed == Followed(tour.events)
              && tour.end == EndOf(err)
    ensures path in fs
            ==> (err.None? <==> NaiveWalk(walkFn, fs, path).end.Finished? && Distinct(Followed(NaiveWalk(walkFn, fs, path).events)))
    ensures path in fs && Plain(fs[path]) && LetsAllPass(walkFn)
            ==> err.None? && visits == Preorder(fs[path], InfoOf(Base(path), fs[path]), path) && followed == []
  {
    if path !in fs {
      return Some(NotFound(path)), [], [];
    }
    var walker := new Walker(fs, fs[path], walkFn);
    var info := InfoOf(Base(path), fs[path]);
    ghost var all := AllTargets(fs, fs[path]);
    assert all - {} == all;
    err := walker.Walk(fs[path], info, path, |all| + 1);
    visits, followed := walker.visits, walker.log;
    ghost var tour := NaiveWalk(walkFn, fs, path);
    assert [] + Visits(Guarded(tour, {}).events) == Visits(Guarded(tour, {}).events);
    assert [] + Followed(Guarded(tour, {}).events) == Followed(Guarded(tour, {}).events);
    GuardedFinished(tour, {});
    if Plain(fs[path]) && LetsAllPass(walkFn) {
      PlainTour(walkFn, fs, |all| + 1, fs[path], info, path);
      CallsOnly(Preorder(fs[path], info, path));
    }
  }

  // ---------------------------------------------------------------- each entry exactly once

  /** Entries of one directory have different names, and none is a `dist` directory, all the way down. */
  ghost predicate Proper(n: Node)
    decreases n
  {
    n.Dir? ==> DistOf(n.entries).None? && ProperAll(n.entries)
  }

  ghost predicate ProperAll(entries: seq<Entry>)
    decreases entries
  {
    entries != [] ==>
      && Proper(entries[|entries| - 1].node)
      && ProperAll(entries[..|entries| - 1])
      && forall i :: 0 <= i < |entries| - 1 ==> entries[i].name != entries[|entries| - 1].name
  }

  /** The node at a path below another, name by name. */
  ghost function NodeAt(n: Node, rel: Path): Option<Node>
    decreases n, 1
  {
    if rel == [] then Some(n) else if n.Dir? then EntryAt(n.entries, rel) else None
  }

  ghost function EntryAt(entries: seq<Entry>, rel: Path): Option<Node>
    requires rel != []
    decreases entries, 0
  {
    if entries == [] then None
    else if entries[|entries| - 1].name == rel[0] then NodeAt(entries[|entries| - 1].node, rel[1..])
    else EntryAt(entries[..|entries| - 1], rel)
  }

  /** There is an entry at this path below the node. */
  ghost predicate Exists(n: Node, rel: Path) {
    NodeAt(n, rel).Some?
  }

  ghost predicate ExistsIn(entries: seq<Entry>, rel: Path)
    requires rel != []
  {
    EntryAt(entries, rel).Some?
  }

  ghost predicate VisitedAt(vs: seq<Visit>, p: Path) {
    exists i :: 0 <= i < |vs| && vs[i].resolvedPath == p
  }

  ghost predicate DistinctPaths(vs: seq<Visit>) {
    forall i, j :: 0 <= i < j < |vs| ==> vs[i].resolvedPath != vs[j].resolvedPath
  }

  /** The visits below `rp` are exactly the paths that exist there, each once. */
  ghost predicate Covers(vs: seq<Visit>, rp: Path, below: iset<Path>) {
    DistinctPaths(vs) && AllUnder(vs, rp, below) && AllVisited(vs, rp, below)
  }

  ghost predicate Under(p: Path, rp: Path, below: iset<Path>) {
    rp <= p && p[|rp|..] in below
  }

  ghost predicate AllUnder(vs: seq<Visit>, rp: Path, below: iset<Path>) {
    forall i :: 0 <= i < |vs| ==> Under(vs[i].resolvedPath, rp, below)
  }

  ghost predicate AllVisited(vs: seq<Visit>, rp: Path, below: iset<Path>) {
    forall rel :: rel in below ==> VisitedAt(vs, rp + rel)
  }

  lemma VisitedInFront(a: seq<Visit>, b: seq<Visit>, p: Path)
    ensures VisitedAt(a, p) ==> VisitedAt(a + b, p)
    ensures VisitedAt(b, p) ==> VisitedAt(a + b, p)
  {
    if i :| 0 <= i < |a| && a[i].resolvedPath == p {
      assert (a + b)[i].resolvedPath == p;
    }
    if i :| 0 <= i < |b| && b[i].resolvedPath == p {
      assert (a + b)[|a| + i].resolvedPath == p;
    }
  }

  lemma DistinctJoin(a: seq<Visit>, b: seq<Visit>)
    requires DistinctPaths(a) && DistinctPaths(b)
    requires forall i, j :: 0 <= i < |a| && 0 <= j < |b| ==> a[i].resolvedPath != b[j].resolvedPath
    ensures DistinctPaths(a + b)
  {
  }

  ghost function Below(n: Node): iset<Path> {
    iset rel: Path | Exists(n, rel)
  }

  ghost function BelowAll(entries: seq<Entry>): iset<Path> {
    iset rel: Path | rel != [] && ExistsIn(entries, rel)
  }

  /** The pre-order visits each entry below a directory exactly once, under its own path. */
  lemma {:induction false} PreorderCovers(n: Node, info: Info, rp: Path)
    requires Proper(n)
    ensures Covers(Preorder(n, info, rp), rp, Below(n))
    decreases n
  {
    var first := Visit(rp, info, false);
    if n.Dir? {
      PreorderAllCovers(n.entries, rp);
      assert forall rel :: rel in Below(n) <==> rel == [] || rel in BelowAll(n.entries);
      RootCovered(first, PreorderAll(n.entries, rp), rp, BelowAll(n.entries), Below(n));
    } else {
      assert forall rel :: rel in Below(n) <==> rel == [];
      RootCovered(first, [], rp, iset{}, Below(n));
    }
  }

  lemma RootCovered(first: Visit, rest: seq<Visit>, rp: Path, inner: iset<Path>, below: iset<Path>)
    requires first.resolvedPath == rp && Covers(rest, rp, inner) && [] !in inner
    requires forall rel :: rel in below <==> rel == [] || rel in inner
    ensures Covers([first] + rest, rp, below)
  {
    forall j | 0 <= j < |rest|
      ensures rest[j].resolvedPath != rp && Under(rest[j].resolvedPath, rp, below)
    {
      assert Under(rest[j].resolvedPath, rp, inner);
    }
    DistinctJoin([first], rest);
    assert rp[|rp|..] == [];
    forall rel | rel in below
      ensures VisitedAt([first] + rest, rp + rel)
    {
      VisitedInFront([first], rest, rp + rel);
      if rel == [] {
        assert rp + rel == rp && [first][0].resolvedPath == rp;
      } else {
        assert VisitedAt(rest, rp + rel);
      }
    }
  }

  lemma {:induction false} PreorderAllCovers(entries: seq<Entry>, rp: Path)
    requires ProperAll(entries)
    ensures Covers(PreorderAll(entries, rp), rp, BelowAll(entries))
    decreases entries
  {
    if entries != [] {
      var last := entries[|entries| - 1];
      var front := entries[..|entries| - 1];
      PreorderAllCovers(front, rp);
      PreorderCovers(last.node, InfoOf(last.name, last.node), rp + [last.name]);
      OneMoreCovered(front, last, rp, PreorderAll(front, rp), Preorder(last.node, InfoOf(last.name, last.node), rp + [last.name]));
    }
  }

  lemma {:induction false} NameOfExisting(entries: seq<Entry>, rel: Path)
    requires rel != [] && ExistsIn(entries, rel)
    ensures exists i :: 0 <= i < |entries| && entries[i].name == rel[0]
  {
    if entries[|entries| - 1].name != rel[0] {
      NameOfExisting(entries[..|entries| - 1], rel);
    }
  }

  lemma OneMoreCovered(front: seq<Entry>, last: Entry, rp: Path, a: seq<Visit>, b: seq<Visit>)
    requires forall i :: 0 <= i < |front| ==> front[i].name != last.name
    requires Covers(a, rp, BelowAll(front)) && Covers(b, rp + [last.name], Below(last.node))
    ensures Covers(a + b, rp, BelowAll(front + [last]))
  {
    var all := front + [last];
    assert all[..|all| - 1] == front;
    forall i | 0 <= i < |a|
      ensures Under(a[i].resolvedPath, rp, BelowAll(all))
      ensures |a[i].resolvedPath| > |rp| && a[i].resolvedPath[|rp|] != last.name
    {
      var p := a[i].resolvedPath;
      assert Under(p, rp, BelowAll(front));
      NameOfExisting(front, p[|rp|..]);
    }
    forall i | 0 <= i < |b|
      ensures Under(b[i].resolvedPath, rp, BelowAll(all))
      ensures |b[i].resolvedPath| > |rp| && b[i].resolvedPath[|rp|] == last.name
    {
      var p := b[i].resolvedPath;
      assert Under(p, rp + [last.name], Below(last.node));
      assert p[..|rp| + 1] == rp + [last.name];
      assert p[..|rp|] == rp && p[|rp|] == last.name;
      assert p[|rp|..][1..] == p[|rp + [last.name]|..];
    }
    DistinctJoin(a, b);
    forall rel | rel in BelowAll(all)
      ensures VisitedAt(a + b, rp + rel)
    {
      VisitedInFront(a, b, rp + rel);
      if rel[0] == last.name {
        assert rel[1..] in Below(last.node);
        assert rp + [last.name] + rel[1..] == rp + rel;
        assert VisitedAt(b, rp + [last.name] + rel[1..]);
      } else {
        assert rel in BelowAll(front);
      }
    }
  }

  // ---------------------------------------------------------------- what a walk reaches

  /** All trees of the file system have distinct names and no `dist` directories. */
  ghost predicate AllProper(fs: map<Path, Node>) {
    forall p :: p in fs ==> Proper(fs[p])
  }

  /** What is reported of the node at `rel` below `base`: the last name on the way there, and its kind. */
  ghost function InfoAt(base: Path, rel: Path, n: Node): Info {
    Info(if rel != [] then rel[|rel| - 1] else if base != [] then base[|base| - 1] else "/", n.Dir?, n.Link?)
  }

  ghost predicate IsSpot(fs: map<Path, Node>, base: Path, rel: Path, n: Node, info: Info, rp: Path) {
    base in fs && NodeAt(fs[base], rel) == Some(n) && info == InfoAt(base, rel, n) && rp == base + rel
  }

  lemma {:induction false} NodeAtBelow(n: Node, rel: Path, more: Path)
    requires NodeAt(n, rel).Some?
    ensures NodeAt(n, rel + more) == NodeAt(NodeAt(n, rel).value, more)
    decreases n, 1
  {
    if rel == [] {
      assert rel + more == more;
    } else {
      EntryAtBelow(n.entries, rel, more);
    }
  }

  lemma {:induction false} EntryAtBelow(entries: seq<Entry>, rel: Path, more: Path)
    requires rel != [] && EntryAt(entries, rel).Some?
    ensures EntryAt(entries, rel + more) == NodeAt(EntryAt(entries, rel).value, more)
    decreases entries, 0
  {
    var last := entries[|entries| - 1];
    if last.name == rel[0] {
      assert (rel + more)[1..] == rel[1..] + more;
      NodeAtBelow(last.node, rel[1..], more);
    } else {
      EntryAtBelow(entries[..|entries| - 1], rel, more);
    }
  }

  lemma {:induction false} ProperBelow(n: Node, rel: Path)
    requires Proper(n) && NodeAt(n, rel).Some?
    ensures Proper(NodeAt(n, rel).value)
    decreases n, 1
  {
    if rel != [] {
      ProperEntry(n.entries, rel);
    }
  }

  lemma {:induction false} ProperEntry(entries: seq<Entry>, rel: Path)
    requires ProperAll(entries) && rel != [] && EntryAt(entries, rel).Some?
    ensures Proper(EntryAt(entries, rel).value)
    decreases entries, 0
  {
    var last := entries[|entries| - 1];
    if last.name == rel[0] {
      ProperBelow(last.node, rel[1..]);
    } else {
      ProperEntry(entries[..|entries| - 1], rel);
    }
  }

  lemma {:induction false} EntryOfName(entries: seq<Entry>, k: nat)
    requires ProperAll(entries) && k < |entries|
    ensures EntryAt(entries, [entries[k].name]) == Some(entries[k].node)
    decreases entries
  {
    assert [entries[k].name][1..] == [];
    if k < |entries| - 1 {
      EntryOfName(entries[..|entries| - 1], k);
    }
  }

  lemma ChildSpot(fs: map<Path, Node>, base: Path, rel: Path, n: Node, info: Info, rp: Path, k: nat)
    requires AllProper(fs) && IsSpot(fs, base, rel, n, info, rp) && n.Dir? && k < |n.entries|
    ensures var e := n.entries[k]; IsSpot(fs, base, rel + [e.name], e.node, InfoOf(e.name, e.node), rp + [e.name])
    ensures DistOf(n.entries).None?
  {
    ProperBelow(fs[base], rel);
    EntryOfName(n.entries, k);
    NodeAtBelow(fs[base], rel, [n.entries[k].name]);
    assert base + (rel + [n.entries[k].name]) == rp + [n.entries[k].name];
  }

  /** The event is about a node below one of the bases: a call told what is there, or the target of a link that is there. */
  ghost predicate Explained(fs: map<Path, Node>, bases: set<Path>, e: Event) {
    exists base, rel :: base in bases && base in fs && NodeAt(fs[base], rel).Some? && Explains(fs, base, rel, e)
  }

  ghost predicate Explains(fs: map<Path, Node>, base: Path, rel: Path, e: Event)
    requires base in fs && NodeAt(fs[base], rel).Some?
  {
    var n := NodeAt(fs[base], rel).value;
    match e
    case Called(v) => v.resolvedPath == base + rel && v.info == InfoAt(base, rel, n)
    case Went(t) => n == Link(Some(t))
  }

  ghost predicate AllExplained(fs: map<Path, Node>, bases: set<Path>, events: seq<Event>) {
    forall i :: 0 <= i < |events| ==> Explained(fs, bases, events[i])
  }

  lemma ExplainedByMore(fs: map<Path, Node>, bases: set<Path>, more: set<Path>, events: seq<Event>)
    requires AllExplained(fs, bases, events) && bases <= more
    ensures AllExplained(fs, more, events)
  {
    forall i | 0 <= i < |events|
      ensures Explained(fs, more, events[i])
    {
      assert Explained(fs, bases, events[i]);
    }
  }

  lemma ExplainedJoin(fs: map<Path, Node>, bases: set<Path>, a: seq<Event>, b: seq<Event>)
    requires AllExplained(fs, bases, a) && AllExplained(fs, bases, b)
    ensures AllExplained(fs, bases, a + b)
  {
    forall i | 0 <= i < |a + b|
      ensures Explained(fs, bases, (a + b)[i])
    {
      if i >= |a| {
        assert (a + b)[i] == b[i - |a|];
      }
    }
  }

  lemma ExplainedThen(fs: map<Path, Node>, base: Path, a: Tour, b: Tour)
    requires AllExplained(fs, {base} + Elems(Followed(a.events)), a.events) && AllExplained(fs, {base} + Elems(Followed(b.events)), b.events)
    ensures AllExplained(fs, {base} + Elems(Followed(Then(a, b).events)), Then(a, b).events)
  {
    if a.end.Finished? {
      EventsJoin(a.events, b.events);
      ElemsJoin(Followed(a.events), Followed(b.events));
      var all := {base} + Elems(Followed(a.events + b.events));
      ExplainedByMore(fs, {base} + Elems(Followed(a.events)), all, a.events);
      ExplainedByMore(fs, {base} + Elems(Followed(b.events)), all, b.events);
      ExplainedJoin(fs, all, a.events, b.events);
    }
  }

  lemma OneExplained(fs: map<Path, Node>, base: Path, rel: Path, e: Event, end: End)
    requires base in fs && NodeAt(fs[base], rel).Some? && Explains(fs, base, rel, e)
    ensures AllExplained(fs, {base} + Elems(Followed([e])), [e])
  {
    assert Explained(fs, {base} + Elems(Followed([e])), e);
  }

  lemma {:induction false} NaiveExplained(f: Visit -> Answer, fs: map<Path, Node>, fuel: nat, n: Node, info: Info, rp: Path, base: Path, rel: Path)
    requires AllProper(fs) && IsSpot(fs, base, rel, n, info, rp)
    ensures var events := Naive(f, fs, fuel, n, info, rp).events; AllExplained(fs, {base} + Elems(Followed(events)), events)
    decreases fuel, n, 2
  {
    var first := Visit(rp, info, false);
    OneExplained(fs, base, rel, Called(first), Finished);
    if f(first).Continue? {
      InsideExplained(f, fs, fuel, n, info, rp, base, rel);
      ExplainedThen(fs, base, Tour([Called(first)], Finished), Inside(f, fs, fuel, n, info, rp));
    }
  }

  lemma {:induction false} InsideExplained(f: Visit -> Answer, fs: map<Path, Node>, fuel: nat, n: Node, info: Info, rp: Path, base: Path, rel: Path)
    requires AllProper(fs) && IsSpot(fs, base, rel, n, info, rp)
    ensures var events := Inside(f, fs, fuel, n, info, rp).events; AllExplained(fs, {base} + Elems(Followed(events)), events)
    decreases fuel, n, 1
  {
    match n
    case File =>
    case Link(target) =>
      if target.Some? && fuel > 0 {
        LinkExplained(f, fs, fuel, n, info, rp, base, rel);
      }
    case Dir(readable, entries) =>
      if !readable {
        OneExplained(fs, base, rel, Called(Visit(rp, info, true)), Finished);
      } else {
        AllEntriesExplained(f, fs, fuel, n, info, rp, base, rel, |entries|);
        assert entries[..|entries|] == entries;
        ProperBelow(fs[base], rel);
      }
  }

  lemma {:induction false} LinkExplained(f: Visit -> Answer, fs: map<Path, Node>, fuel: nat, n: Node, info: Info, rp: Path, base: Path, rel: Path)
    requires AllProper(fs) && IsSpot(fs, base, rel, n, info, rp) && n.Link? && n.target.Some? && fuel > 0
    ensures var events := Inside(f, fs, fuel, n, info, rp).events; AllExplained(fs, {base} + Elems(Followed(events)), events)
    decreases fuel, n, 0
  {
    var t := n.target.value;
    OneExplained(fs, base, rel, Went(t), Finished);
    if t in fs {
      var to := Naive(f, fs, fuel - 1, fs[t], InfoOf(Base(t), fs[t]), t);
      assert t + [] == t;
      NaiveExplained(f, fs, fuel - 1, fs[t], InfoOf(Base(t), fs[t]), t, t, []);
      LinkJoin(fs, base, t, to.events);
    }
  }

  lemma LinkJoin(fs: map<Path, Node>, base: Path, t: Path, events: seq<Event>)
    requires AllExplained(fs, {base} + Elems(Followed([Went(t)])), [Went(t)]) && AllExplained(fs, {t} + Elems(Followed(events)), events)
    ensures AllExplained(fs, {base} + Elems(Followed([Went(t)] + events)), [Went(t)] + events)
  {
    FollowedAfter(t, events);
    var all := {base} + Elems(Followed([Went(t)] + events));
    ExplainedByMore(fs, {t} + Elems(Followed(events)), all, events);
    ExplainedByMore(fs, {base} + Elems(Followed([Went(t)])), all, [Went(t)]);
    ExplainedJoin(fs, all, [Went(t)], events);
  }

  lemma FollowedAfter(t: Path, events: seq<Event>)
    ensures Elems(Followed([Went(t)])) == {t} && Elems(Followed([Went(t)] + events)) == {t} + Elems(Followed(events))
  {
    assert [Went(t)][..0] == [];
    assert Followed([Went(t)]) == [t];
    EventsJoin([Went(t)], events);
    ElemsJoin([t], Followed(events));
  }

  lemma {:induction false} AllEntriesExplained(f: Visit -> Answer, fs: map<Path, Node>, fuel: nat, n: Node, info: Info, rp: Path, base: Path, rel: Path, k: nat)
    requires AllProper(fs) && IsSpot(fs, base, rel, n, info, rp) && n.Dir? && k <= |n.entries|
    ensures var events := NaiveAll(f, fs, fuel, n.entries[..k], rp).events; AllExplained(fs, {base} + Elems(Followed(events)), events)
    decreases fuel, n, 0, k
  {
    if k > 0 {
      var front, e := n.entries[..k][..k - 1], n.entries[k - 1];
      assert front == n.entries[..k - 1] && e.node < n;
      AllEntriesExplained(f, fs, fuel, n, info, rp, base, rel, k - 1);
      ChildSpot(fs, base, rel, n, info, rp, k - 1);
      NaiveExplained(f, fs, fuel, e.node, InfoOf(e.name, e.node), rp + [e.name], base, rel + [e.name]);
      ExplainedThen(fs, base, NaiveAll(f, fs, fuel, front, rp), Naive(f, fs, fuel, e.node, InfoOf(e.name, e.node), rp + [e.name]));
    }
  }

  // ---------------------------------------------------------------- all that is there is reached

  /** All directories can be listed. */
  ghost predicate Listable(n: Node) {
    n.Dir? ==> n.readable && forall i :: 0 <= i < |n.entries| ==> Listable(n.entries[i].node)
  }

  ghost predicate AllListable(fs: map<Path, Node>) {
    forall p :: p in fs ==> Listable(fs[p])
  }

  /** The node was reported, and its target gone to if it is a link. */
  ghost predicate Told(base: Path, rel: Path, n: Node, events: seq<Event>) {
    && Called(Visit(base + rel, InfoAt(base, rel, n), false)) in events
    && (n.Link? && n.target.Some? ==> Went(n.target.value) in events)
  }

  /** So was all below it. */
  ghost predicate AllTold(base: Path, rel: Path, n: Node, events: seq<Event>) {
    forall more :: NodeAt(n, more).Some? ==> Told(base, rel + more, NodeAt(n, more).value, events)
  }

  /** And all below each target gone to. */
  ghost predicate TargetsTold(fs: map<Path, Node>, events: seq<Event>) {
    forall t :: Went(t) in events ==> t in fs && AllTold(t, [], fs[t], events)
  }

  lemma ToldByMore(base: Path, rel: Path, n: Node, events: seq<Event>, more: seq<Event>)
    requires AllTold(base, rel, n, events) && forall e :: e in events ==> e in more
    ensures AllTold(base, rel, n, more)
  {
  }

  lemma TargetsToldJoin(fs: map<Path, Node>, a: seq<Event>, b: seq<Event>)
    requires TargetsTold(fs, a) && TargetsTold(fs, b)
    ensures TargetsTold(fs, a + b)
  {
    forall t | Went(t) in a + b
      ensures t in fs && AllTold(t, [], fs[t], a + b)
    {
      if Went(t) in a {
        ToldByMore(t, [], fs[t], a, a + b);
      } else {
        ToldByMore(t, [], fs[t], b, a + b);
      }
    }
  }

  lemma {:induction false} EntryAtIs(entries: seq<Entry>, rel: Path) returns (k: nat)
    requires rel != [] && EntryAt(entries, rel).Some?
    ensures k < |entries| && entries[k].name == rel[0] && EntryAt(entries, rel) == NodeAt(entries[k].node, rel[1..])
  {
    if entries[|entries| - 1].name == rel[0] {
      k := |entries| - 1;
    } else {
      k := EntryAtIs(entries[..|entries| - 1], rel);
    }
  }

  /** A directory is told of with all below it if it is, and each entry with all below that. */
  lemma DirTold(base: Path, rel: Path, n: Node, events: seq<Event>)
    requires Told(base, rel, n, events)
    requires n.Dir? ==> forall k :: 0 <= k < |n.entries| ==> AllTold(base, rel + [n.entries[k].name], n.entries[k].node, events)
    ensures AllTold(base, rel, n, events)
  {
    forall more | NodeAt(n, more).Some?
      ensures Told(base, rel + more, NodeAt(n, more).value, events)
    {
      if more == [] {
        assert rel + more == rel;
      } else {
        var k := EntryAtIs(n.entries, more);
        assert AllTold(base, rel + [n.entries[k].name], n.entries[k].node, events);
        assert (rel + [n.entries[k].name]) + more[1..] == rel + more;
      }
    }
  }

  lemma {:induction false} NaiveTold(f: Visit -> Answer, fs: map<Path, Node>, fuel: nat, n: Node, info: Info, rp: Path, base: Path, rel: Path)
    requires AllProper(fs) && AllListable(fs) && LetsAllPass(f) && IsSpot(fs, base, rel, n, info, rp) && Listable(n)
    requires Naive(f, fs, fuel, n, info, rp).end.Finished?
    ensures AllTold(base, rel, n, Naive(f, fs, fuel, n, info, rp).events) && TargetsTold(fs, Naive(f, fs, fuel, n, info, rp).events)
    decreases fuel, n, 2
  {
    var first, inside := Visit(rp, info, false), Inside(f, fs, fuel, n, info, rp);
    assert f(first) == Continue;
    var events := [Called(first)] + inside.events;
    assert Naive(f, fs, fuel, n, info, rp).events == events;
    assert TargetsTold(fs, [Called(first)]);
    if n.Link? {
      LinkTold(f, fs, fuel, n, info, rp, base, rel);
    } else if n.Dir? {
      ProperBelow(fs[base], rel);
      assert n.entries[..|n.entries|] == n.entries;
      EntriesTold(f, fs, fuel, n, info, rp, base, rel, |n.entries|);
      forall k | 0 <= k < |n.entries|
        ensures AllTold(base, rel + [n.entries[k].name], n.entries[k].node, events)
      {
        ToldByMore(base, rel + [n.entries[k].name], n.entries[k].node, inside.events, events);
      }
    }
    TargetsToldJoin(fs, [Called(first)], inside.events);
    assert Called(first) in events;
    DirTold(base, rel, n, events);
  }

  lemma {:induction false} LinkTold(f: Visit -> Answer, fs: map<Path, Node>, fuel: nat, n: Node, info: Info, rp: Path, base: Path, rel: Path)
    requires AllProper(fs) && AllListable(fs) && LetsAllPass(f) && n.Link? && Inside(f, fs, fuel, n, info, rp).end.Finished?
    ensures n.target.Some? && Went(n.target.value) in Inside(f, fs, fuel, n, info, rp).events
    ensures TargetsTold(fs, Inside(f, fs, fuel, n, info, rp).events)
    decreases fuel, n, 0
  {
    var t := n.target.value;
    var to := Naive(f, fs, fuel - 1, fs[t], InfoOf(Base(t), fs[t]), t);
    var events := [Went(t)] + to.events;
    assert t + [] == t;
    NaiveTold(f, fs, fuel - 1, fs[t], InfoOf(Base(t), fs[t]), t, t, []);
    forall u | Went(u) in events
      ensures u in fs && AllTold(u, [], fs[u], events)
    {
      ToldByMore(u, [], fs[u], to.events, events);
    }
  }

  lemma {:induction false} EntriesTold(f: Visit -> Answer, fs: map<Path, Node>, fuel: nat, n: Node, info: Info, rp: Path, base: Path, rel: Path, k: nat)
    requires AllProper(fs) && AllListable(fs) && LetsAllPass(f) && IsSpot(fs, base, rel, n, info, rp) && Listable(n)
    requires n.Dir? && k <= |n.entries| && NaiveAll(f, fs, fuel, n.entries[..k], rp).end.Finished?
    ensures var events := NaiveAll(f, fs, fuel, n.entries[..k], rp).events;
            && TargetsTold(fs, events)
            && forall j :: 0 <= j < k ==> AllTold(base, rel + [n.entries[j].name], n.entries[j].node, events)
    decreases fuel, n, 0, k
  {
    if k > 0 {
      var e := n.entries[k - 1];
      assert n.entries[..k][..k - 1] == n.entries[..k - 1] && e.node < n;
      var before, one := NaiveAll(f, fs, fuel, n.entries[..k - 1], rp), Naive(f, fs, fuel, e.node, InfoOf(e.name, e.node), rp + [e.name]);
      EntriesTold(f, fs, fuel, n, info, rp, base, rel, k - 1);
      ChildSpot(fs, base, rel, n, info, rp, k - 1);
      NaiveTold(f, fs, fuel, e.node, InfoOf(e.name, e.node), rp + [e.name], base, rel + [e.name]);
      TargetsToldJoin(fs, before.events, one.events);
      forall j | 0 <= j < k
        ensures AllTold(base, rel + [n.entries[j].name], n.entries[j].node, before.events + one.events)
      {
        ToldByMore(base, rel + [n.entries[j].name], n.entries[j].node, if j < k - 1 then before.events else one.events, before.events + one.events);
      }
    }
  }

  /** The start, or a target the tour goes to. */
  ghost predicate Reached(start: Path, events: seq<Event>, base: Path) {
    base == start || Went(base) in events
  }

  /** Something reached that is an event: a call telling what is there, or the target of a link that is there. */
  ghost predicate ThereIs(fs: map<Path, Node>, start: Path, events: seq<Event>, e: Event) {
    exists base, rel :: Reached(start, events, base) && base in fs && NodeAt(fs[base], rel).Some? && Explains(fs, base, rel, e)
  }

  lemma {:induction false} WentIffFollowed(events: seq<Event>, t: Path)
    ensures Went(t) in events <==> t in Followed(events)
  {
    if events != [] {
      var front, last := events[..|events| - 1], events[|events| - 1];
      WentIffFollowed(front, t);
      assert events == front + [last];
    }
  }

  /** Whatever the callback answers, a walk tells only what is there, below the start or a target it went to. */
  lemma OnlyWhatIsThere(f: Visit -> Answer, fs: map<Path, Node>, path: Path, e: Event)
    requires AllProper(fs) && path in fs && e in NaiveWalk(f, fs, path).events
    ensures ThereIs(fs, path, NaiveWalk(f, fs, path).events, e)
  {
    var events := NaiveWalk(f, fs, path).events;
    assert path + [] == path;
    NaiveExplained(f, fs, |AllTargets(fs, fs[path])| + 1, fs[path], InfoOf(Base(path), fs[path]), path, path, []);
    ExplainedIsThere(fs, path, events, e);
  }

  lemma ExplainedIsThere(fs: map<Path, Node>, path: Path, events: seq<Event>, e: Event)
    requires AllExplained(fs, {path} + Elems(Followed(events)), events) && e in events
    ensures ThereIs(fs, path, events, e)
  {
    var i :| 0 <= i < |events| && events[i] == e;
    assert Explained(fs, {path} + Elems(Followed(events)), events[i]);
    var base, rel :| base in {path} + Elems(Followed(events)) && base in fs && NodeAt(fs[base], rel).Some? && Explains(fs, base, rel, e);
    WentIffFollowed(events, base);
    assert Reached(path, events, base);
  }

  /** A walk that finishes, all being let pass and listed, tells all that is there: exactly the calls and targets there are. */
  lemma AllThatIsThere(f: Visit -> Answer, fs: map<Path, Node>, path: Path, e: Event)
    requires AllProper(fs) && AllListable(fs) && LetsAllPass(f) && path in fs && NaiveWalk(f, fs, path).end.Finished?
    requires e.Called? ==> !e.visit.failed
    ensures e in NaiveWalk(f, fs, path).events <==> ThereIs(fs, path, NaiveWalk(f, fs, path).events, e)
  {
    var events := NaiveWalk(f, fs, path).events;
    if e in events {
      OnlyWhatIsThere(f, fs, path, e);
    }
    if ThereIs(fs, path, events, e) {
      var base, rel :| Reached(path, events, base) && base in fs && NodeAt(fs[base], rel).Some? && Explains(fs, base, rel, e);
      assert path + [] == path;
      NaiveTold(f, fs, |AllTargets(fs, fs[path])| + 1, fs[path], InfoOf(Base(path), fs[path]), path, path, []);
      assert AllTold(base, [], fs[base], events);
      assert [] + rel == rel;
      assert Told(base, [] + rel, NodeAt(fs[base], rel).value, events);
    }
  }
}
