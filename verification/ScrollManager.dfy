/**
 * Scrolling a trace to the previous or next visible span
 * (packages/jaeger-ui-components/src/ScrollManager.tsx). A span is hidden when one of its ancestors is
 * collapsed; the search remembers the ancestors of hidden spans so that later walks stop sooner.
 */
module ScrollManager {
  import opened Prelude

  datatype Reference = Reference(refType: string, spanID: string)

  datatype Span = Span(spanID: string, startTime: real, duration: real, references: seq<Reference>)

  datatype Trace = Trace(spans: seq<Span>, startTime: real, duration: real)

  type SpansMap = map<string, Span>

  predicate IsParentRef(r: Reference) {
    r.refType == "CHILD_OF" || r.refType == "FOLLOWS_FROM"
  }

  /** The ids of the references that name a parent. */
  ghost function ParentIDs(refs: seq<Reference>): set<string> {
    set r | r in refs && IsParentRef(r) :: r.spanID
  }

  /** The last of them, which is where the walk goes on. */
  function LastParent(refs: seq<Reference>): Option<string> {
    if refs == [] then None
    else if IsParentRef(refs[|refs| - 1]) then Some(refs[|refs| - 1].spanID)
    else LastParent(refs[..|refs| - 1])
  }

  /** The walk continues at `p`: an empty id reads as absent, and so does an unknown one. */
  predicate LeadsOn(spansMap: SpansMap, p: Option<string>) {
    p.Some? && p.value != "" && p.value in spansMap
  }

  /** Parents are well-founded: `rank` drops at every step of a walk. */
  ghost predicate Ranked(spansMap: SpansMap, rank: string -> nat) {
    forall id :: id in spansMap && LeadsOn(spansMap, LastParent(spansMap[id].references))
                 ==> rank(LastParent(spansMap[id].references).value) < rank(id)
  }

  ghost function StepsLeft(spansMap: SpansMap, rank: string -> nat, refs: seq<Reference>): nat {
    if LeadsOn(spansMap, LastParent(refs)) then rank(LastParent(refs).value) + 1 else 0
  }

  /** All ids a walk starting from these references comes across. */
  ghost function Ancestors(spansMap: SpansMap, rank: string -> nat, refs: seq<Reference>): set<string>
    requires Ranked(spansMap, rank)
    decreases StepsLeft(spansMap, rank, refs)
  {
    var p := LastParent(refs);
    ParentIDs(refs) + if LeadsOn(spansMap, p) then Ancestors(spansMap, rank, spansMap[p.value].references) else {}
  }

  /** Some ancestor is in the set. */
  ghost predicate Hidden(spansMap: SpansMap, rank: string -> nat, refs: seq<Reference>, collapsed: set<string>)
    requires Ranked(spansMap, rank)
  {
    exists a :: a in Ancestors(spansMap, rank, refs) && a in collapsed
  }

  /** A chain of spans, each the parent the walk takes from the one before. */
  ghost predicate IsChain(spansMap: SpansMap, refs: seq<Reference>, c: seq<string>)
    decreases |c|
  {
    c == []
    || (|c| == 1 && c[0] in ParentIDs(refs))
    || (LeadsOn(spansMap, LastParent(refs)) && c[0] == LastParent(refs).value && IsChain(spansMap, spansMap[c[0]].references, c[1..]))
  }

  lemma {:induction false} LastParentIsParent(refs: seq<Reference>)
    ensures LastParent(refs).Some? <==> ParentIDs(refs) != {}
    ensures LastParent(refs).Some? ==> LastParent(refs).value in ParentIDs(refs)
  {
    if refs != [] {
      var last := refs[|refs| - 1];
      if IsParentRef(last) {
        assert last.spanID in ParentIDs(refs);
      } else {
        LastParentIsParent(refs[..|refs| - 1]);
        assert refs == refs[..|refs| - 1] + [last];
        assert ParentIDs(refs) == ParentIDs(refs[..|refs| - 1]);
      }
    }
  }

  lemma {:induction false} ChainTo(spansMap: SpansMap, rank: string -> nat, refs: seq<Reference>, a: string) returns (c: seq<string>)
    requires Ranked(spansMap, rank)
    requires a in Ancestors(spansMap, rank, refs)
    ensures IsChain(spansMap, refs, c) && c != [] && c[|c| - 1] == a
    decreases StepsLeft(spansMap, rank, refs)
  {
    var p := LastParent(refs);
    if a in ParentIDs(refs) {
      c := [a];
    } else {
      var rest := ChainTo(spansMap, rank, spansMap[p.value].references, a);
      c := [p.value] + rest;
      assert c[1..] == rest;
    }
  }

  lemma {:induction false} ChainEnd(spansMap: SpansMap, rank: string -> nat, refs: seq<Reference>, c: seq<string>)
    requires Ranked(spansMap, rank)
    requires IsChain(spansMap, refs, c) && c != []
    ensures c[|c| - 1] in Ancestors(spansMap, rank, refs)
    decreases |c|
  {
    LastParentIsParent(refs);
    if c[0] !in ParentIDs(refs) || |c| > 1 {
      ChainEnd(spansMap, rank, spansMap[c[0]].references, c[1..]);
    }
  }

  /** Being an ancestor means being the end of a chain of parents, whatever rank shows well-foundedness. */
  lemma AncestorIffChain(spansMap: SpansMap, rank: string -> nat, refs: seq<Reference>, a: string)
    requires Ranked(spansMap, rank)
    ensures a in Ancestors(spansMap, rank, refs) <==> exists c :: IsChain(spansMap, refs, c) && c != [] && c[|c| - 1] == a
  {
    if a in Ancestors(spansMap, rank, refs) {
      var c := ChainTo(spansMap, rank, refs, a);
    }
    if c :| IsChain(spansMap, refs, c) && c != [] && c[|c| - 1] == a {
      ChainEnd(spansMap, rank, refs, c);
    }
  }

  /** Place `i` of the references names a parent. */
  ghost predicate ParentAt(refs: seq<Reference>, i: nat) {
    i < |refs| && (refs[i].refType == "CHILD_OF" || refs[i].refType == "FOLLOWS_FROM")
  }

  /** It is the last place that does. */
  ghost predicate LastParentAt(refs: seq<Reference>, i: nat) {
    ParentAt(refs, i) && forall j: nat :: i < j ==> !ParentAt(refs, j)
  }

  /** The parents are named by two kinds of references. */
  lemma ParentsAre(refs: seq<Reference>, id: string)
    ensures id in ParentIDs(refs) <==> exists i: nat :: ParentAt(refs, i) && refs[i].spanID == id
  {
    if id in ParentIDs(refs) {
      var r :| r in refs && IsParentRef(r) && r.spanID == id;
      var i: nat :| i < |refs| && refs[i] == r;
      assert ParentAt(refs, i);
    }
  }

  /** The walk takes the last of them. */
  lemma {:induction false} LastParentIs(refs: seq<Reference>)
    ensures if LastParent(refs).Some? then exists i: nat :: LastParentAt(refs, i) && refs[i].spanID == LastParent(refs).value
            else forall i: nat :: !ParentAt(refs, i)
  {
    if refs != [] {
      var n: nat := |refs| - 1;
      if IsParentRef(refs[n]) {
        assert LastParentAt(refs, n);
      } else {
        LastParentIs(refs[..n]);
        forall i: nat
          ensures ParentAt(refs, i) <==> ParentAt(refs[..n], i)
        {
        }
        if LastParent(refs).Some? {
          var i: nat :| LastParentAt(refs[..n], i) && refs[..n][i].spanID == LastParent(refs).value;
          assert LastParentAt(refs, i);
        }
      }
    }
  }

  // ---------------------------------------------------------------- the order of a walk

  /** The parents among the references, in their order. */
  ghost function ParentList(refs: seq<Reference>): seq<string> {
    if refs == [] then []
    else ParentList(refs[..|refs| - 1]) + if IsParentRef(refs[|refs| - 1]) then [refs[|refs| - 1].spanID] else []
  }

  /** The ids a walk comes across, in their order. */
  ghost function Met(spansMap: SpansMap, rank: string -> nat, refs: seq<Reference>): seq<string>
    requires Ranked(spansMap, rank)
    decreases StepsLeft(spansMap, rank, refs)
  {
    var p := LastParent(refs);
    ParentList(refs) + if LeadsOn(spansMap, p) then Met(spansMap, rank, spansMap[p.value].references) else []
  }

  /** The ids up to and with the first that is in the set. */
  ghost function UpToHit(ids: seq<string>, collapsed: set<string>): set<string> {
    if ids == [] then {}
    else {ids[0]} + if ids[0] in collapsed then {} else UpToHit(ids[1..], collapsed)
  }

  lemma {:induction false} ParentListIs(refs: seq<Reference>)
    ensures forall a :: a in ParentList(refs) <==> a in ParentIDs(refs)
  {
    if refs != [] {
      var front, last := refs[..|refs| - 1], refs[|refs| - 1];
      ParentListIs(front);
      assert refs == front + [last];
      assert forall a :: a in ParentIDs(refs) <==> a in ParentIDs(front) || (IsParentRef(last) && a == last.spanID);
    }
  }

  lemma {:induction false} MetAreAncestors(spansMap: SpansMap, rank: string -> nat, refs: seq<Reference>)
    requires Ranked(spansMap, rank)
    ensures forall a :: a in Met(spansMap, rank, refs) <==> a in Ancestors(spansMap, rank, refs)
    decreases StepsLeft(spansMap, rank, refs)
  {
    ParentListIs(refs);
    var p := LastParent(refs);
    if LeadsOn(spansMap, p) {
      MetAreAncestors(spansMap, rank, spansMap[p.value].references);
    }
  }

  lemma {:induction false} HitInFirst(a: seq<string>, b: seq<string>, collapsed: set<string>)
    requires exists x :: x in a && x in collapsed
    ensures UpToHit(a + b, collapsed) == UpToHit(a, collapsed)
  {
    assert (a + b)[1..] == a[1..] + b;
    if a[0] !in collapsed {
      HitInFirst(a[1..], b, collapsed);
    }
  }

  lemma {:induction false} NoHitInFirst(a: seq<string>, b: seq<string>, collapsed: set<string>)
    requires forall x :: x in a ==> x !in collapsed
    ensures UpToHit(a + b, collapsed) == Elems(a) + UpToHit(b, collapsed)
  {
    if a == [] {
      assert a + b == b;
    } else {
      assert (a + b)[1..] == a[1..] + b;
      NoHitInFirst(a[1..], b, collapsed);
      assert Elems(a) == {a[0]} + Elems(a[1..]);
    }
  }

  /** The first hit is at place `j`. */
  lemma HitAt(ids: seq<string>, collapsed: set<string>, j: nat)
    requires j < |ids| && ids[j] in collapsed && forall i :: 0 <= i < j ==> ids[i] !in collapsed
    ensures UpToHit(ids, collapsed) == Elems(ids[..j]) + {ids[j]}
  {
    assert ids == ids[..j] + ids[j..];
    NoHitInFirst(ids[..j], ids[j..], collapsed);
  }

  lemma {:induction false} FirstHit(ids: seq<string>, collapsed: set<string>) returns (j: nat)
    requires exists a :: a in ids && a in collapsed
    ensures j < |ids| && ids[j] in collapsed && forall i :: 0 <= i < j ==> ids[i] !in collapsed
  {
    if ids[0] in collapsed {
      j := 0;
    } else {
      j := FirstHit(ids[1..], collapsed);
      assert forall i :: 1 <= i < j + 1 ==> ids[i] == ids[1..][i - 1];
      j := j + 1;
    }
  }

  // ---------------------------------------------------------------- isSpanHidden

  lemma OneMoreParent(refs: seq<Reference>, k: nat)
    requires k < |refs|
    ensures ParentList(refs[..k + 1]) == ParentList(refs[..k]) + if IsParentRef(refs[k]) then [refs[k].spanID] else []
    ensures LastParent(refs[..k + 1]) == if IsParentRef(refs[k]) then Some(refs[k].spanID) else LastParent(refs[..k])
  {
    assert refs[..k + 1][..k] == refs[..k];
  }

  lemma {:induction false} ParentListFrom(refs: seq<Reference>, k: nat) returns (rest: seq<string>)
    requires k <= |refs|
    ensures ParentList(refs) == ParentList(refs[..k]) + rest
  {
    if k == |refs| {
      rest := [];
      assert refs[..k] == refs;
    } else {
      var front := refs[..|refs| - 1];
      assert front[..k] == refs[..k];
      rest := ParentListFrom(front, k);
      rest := rest + if IsParentRef(refs[|refs| - 1]) then [refs[|refs| - 1].spanID] else [];
    }
  }

  /** The callback loop over one span's references: stops at the first parent in the set. */
  method CheckRefs(refs: seq<Reference>, childrenAreHidden: set<string>, known: set<string>)
    returns (isHidden: bool, parentID: Option<string>, parentIDs: set<string>)
    ensures isHidden <==> exists a :: a in ParentList(refs) && a in childrenAreHidden
    ensures !isHidden ==> parentIDs == known + Elems(ParentList(refs)) && parentID == LastParent(refs)
    ensures isHidden ==> parentIDs == known + UpToHit(ParentList(refs), childrenAreHidden)
  {
    parentIDs, parentID := known, None;
    assert refs[..0] == [];
    for k := 0 to |refs|
      invariant parentIDs == known + Elems(ParentList(refs[..k]))
      invariant parentID == LastParent(refs[..k])
      invariant forall a :: a in ParentList(refs[..k]) ==> a !in childrenAreHidden
    {
      var ref := refs[k];
      OneMoreParent(refs, k);
      if IsParentRef(ref) {
        parentID := Some(ref.spanID);
        parentIDs := parentIDs + {ref.spanID};
        if ref.spanID in childrenAreHidden {
          HitAtReference(refs, k, childrenAreHidden);
          return true, parentID, parentIDs;
        }
      }
    }
    assert refs[..|refs|] == refs;
    return false, parentID, parentIDs;
  }

  lemma HitAtReference(refs: seq<Reference>, k: nat, collapsed: set<string>)
    requires k < |refs| && IsParentRef(refs[k]) && refs[k].spanID in collapsed
    requires forall a :: a in ParentList(refs[..k]) ==> a !in collapsed
    ensures refs[k].spanID in ParentList(refs)
    ensures UpToHit(ParentList(refs), collapsed) == Elems(ParentList(refs[..k])) + {refs[k].spanID}
  {
    OneMoreParent(refs, k);
    var before, id := ParentList(refs[..k]), refs[k].spanID;
    var rest := ParentListFrom(refs, k + 1);
    assert ParentList(refs) == before + ([id] + rest);
    NoHitInFirst(before, [id] + rest, collapsed);
  }

  /**
   * The walk. Hidden exactly if some ancestor is in the set; what is collected then is what the walk met up to the first
   * that is.
   */
  method IsSpanHidden(span: Span, childrenAreHidden: set<string>, spansMap: SpansMap, ghost rank: string -> nat)
    returns (isHidden: bool, parentIDs: set<string>)
    requires Ranked(spansMap, rank)
    ensures isHidden <==> Hidden(spansMap, rank, span.references, childrenAreHidden)
    ensures isHidden ==> parentIDs == UpToHit(Met(spansMap, rank, span.references), childrenAreHidden)
  {
    MetAreAncestors(spansMap, rank, span.references);
    parentIDs := {};
    var references := span.references;
    ghost var above: seq<string> := [];
    while references != []
      invariant parentIDs == Elems(above)
      invariant Met(spansMap, rank, span.references) == above + Met(spansMap, rank, references)
      invariant forall a :: a in above ==> a !in childrenAreHidden
      decreases StepsLeft(spansMap, rank, references), |references|
    {
      ghost var here := Met(spansMap, rank, references);
      var parentID;
      isHidden, parentID, parentIDs := CheckRefs(references, childrenAreHidden, parentIDs);
      LastParentIsParent(references);
      ParentListIs(references);
      if isHidden {
        HitOnTheWay(spansMap, rank, references, above, childrenAreHidden);
        return;
      }
      if parentID.None? || parentID.value == "" || parentID.value !in spansMap {
        assert here == ParentList(references);
        return false, parentIDs;
      }
      above := above + ParentList(references);
      references := spansMap[parentID.value].references;
    }
    isHidden := false;
  }

  lemma HitOnTheWay(spansMap: SpansMap, rank: string -> nat, refs: seq<Reference>, above: seq<string>, collapsed: set<string>)
    requires Ranked(spansMap, rank)
    requires (forall a :: a in above ==> a !in collapsed) && exists a :: a in ParentList(refs) && a in collapsed
    ensures exists a :: a in Met(spansMap, rank, refs) && a in collapsed
    ensures UpToHit(above + Met(spansMap, rank, refs), collapsed) == Elems(above) + UpToHit(ParentList(refs), collapsed)
  {
    var met, list := Met(spansMap, rank, refs), ParentList(refs);
    NoHitInFirst(above, met, collapsed);
    var a :| a in list && a in collapsed;
    assert met == list + met[|list|..] && a in met;
    HitInFirst(list, met[|list|..], collapsed);
  }

  // ---------------------------------------------------------------- the memo

  /** The parents of the trace are well-founded. */
  ghost predicate Rooted(trace: Trace, rank: string -> nat) {
    Ranked(SpansByID(trace.spans), rank)
  }

  ghost function MetBy(trace: Trace, rank: string -> nat, s: Span): seq<string>
    requires Rooted(trace, rank)
  {
    Met(SpansByID(trace.spans), rank, s.references)
  }

  ghost predicate IsHidden(trace: Trace, rank: string -> nat, s: Span, collapsed: set<string>)
    requires Rooted(trace, rank)
  {
    Hidden(SpansByID(trace.spans), rank, s.references, collapsed)
  }

  lemma HiddenIsMet(trace: Trace, rank: string -> nat, s: Span, collapsed: set<string>)
    requires Rooted(trace, rank)
    ensures IsHidden(trace, rank, s, collapsed) <==> exists a :: a in MetBy(trace, rank, s) && a in collapsed
  {
    MetAreAncestors(SpansByID(trace.spans), rank, s.references);
  }

  /** Every span that has the ancestor `x` has the ancestor `a` as well. */
  ghost predicate Entails(trace: Trace, rank: string -> nat, x: string, a: string)
    requires Rooted(trace, rank)
  {
    forall t :: t in trace.spans && x in MetBy(trace, rank, t) ==> a in MetBy(trace, rank, t)
  }

  /** What a walk meets before an id, and so remembers if that is collapsed, entails it. */
  ghost predicate Nested(trace: Trace, rank: string -> nat)
    requires Rooted(trace, rank)
  {
    forall s :: s in trace.spans ==> NestedWalk(trace, rank, MetBy(trace, rank, s))
  }

  ghost predicate NestedWalk(trace: Trace, rank: string -> nat, met: seq<string>)
    requires Rooted(trace, rank)
  {
    forall i, j :: 0 <= i <= j < |met| && met[j] !in met[..j] ==> Entails(trace, rank, met[i], met[j])
  }

  /** What the grown set may hold beyond the collapsed ids: ids that entail one of them. */
  ghost predicate Faithful(trace: Trace, rank: string -> nat, collapsed: set<string>, grown: set<string>)
    requires Rooted(trace, rank)
  {
    collapsed <= grown && forall id :: id in grown ==> id in collapsed || EntailsSome(trace, rank, id, collapsed)
  }

  ghost predicate EntailsSome(trace: Trace, rank: string -> nat, id: string, collapsed: set<string>)
    requires Rooted(trace, rank)
  {
    exists c :: c in collapsed && Entails(trace, rank, id, c)
  }

  /** A faithful grown set gives every span of the trace the verdict the collapsed set gives it. */
  lemma MemoKeepsVerdicts(trace: Trace, rank: string -> nat, collapsed: set<string>, grown: set<string>, s: Span)
    requires Rooted(trace, rank) && s in trace.spans && Faithful(trace, rank, collapsed, grown)
    ensures IsHidden(trace, rank, s, grown) <==> IsHidden(trace, rank, s, collapsed)
  {
    HiddenIsMet(trace, rank, s, grown);
    HiddenIsMet(trace, rank, s, collapsed);
    if a :| a in MetBy(trace, rank, s) && a in grown {
      if a !in collapsed {
        assert EntailsSome(trace, rank, a, collapsed);
        var c :| c in collapsed && Entails(trace, rank, a, c);
        assert c in MetBy(trace, rank, s);
      }
    }
  }

  /** Adding the ids collected on the way to a hidden verdict keeps the set faithful. */
  lemma GrowingStaysFaithful(trace: Trace, rank: string -> nat, collapsed: set<string>, grown: set<string>, s: Span)
    requires Rooted(trace, rank) && Nested(trace, rank) && s in trace.spans
    requires Faithful(trace, rank, collapsed, grown) && IsHidden(trace, rank, s, grown)
    ensures Faithful(trace, rank, collapsed, grown + UpToHit(MetBy(trace, rank, s), grown))
  {
    HiddenIsMet(trace, rank, s, grown);
    var met := MetBy(trace, rank, s);
    var j := FirstHit(met, grown);
    HitAt(met, grown, j);
    assert NestedWalk(trace, rank, met);
    var c := Entailed(trace, rank, collapsed, grown, met[j]);
    forall id | id in Elems(met[..j]) + {met[j]}
      ensures EntailsSome(trace, rank, id, collapsed)
    {
      var i :| 0 <= i <= j && met[i] == id;
      assert Entails(trace, rank, met[i], met[j]);
      assert Entails(trace, rank, id, c);
    }
  }

  lemma Entailed(trace: Trace, rank: string -> nat, collapsed: set<string>, grown: set<string>, id: string) returns (c: string)
    requires Rooted(trace, rank) && Faithful(trace, rank, collapsed, grown) && id in grown
    ensures c in collapsed && Entails(trace, rank, id, c)
  {
    if id in collapsed {
      c := id;
    } else {
      assert EntailsSome(trace, rank, id, collapsed);
      c :| c in collapsed && Entails(trace, rank, id, c);
    }
  }

  /** One hidden verdict after which the set has grown, and still gives every verdict the collapsed set gives. */
  ghost predicate StepExact(trace: Trace, rank: string -> nat, collapsed: set<string>, s: Span)
    requires Rooted(trace, rank)
  {
    IsHidden(trace, rank, s, collapsed) ==>
      forall t :: t in trace.spans && IsHidden(trace, rank, t, collapsed + UpToHit(MetBy(trace, rank, s), collapsed))
                  ==> IsHidden(trace, rank, t, collapsed)
  }

  ghost predicate MemoExact(trace: Trace, rank: string -> nat)
    requires Rooted(trace, rank)
  {
    forall collapsed: set<string>, s :: s in trace.spans ==> StepExact(trace, rank, collapsed, s)
  }

  lemma ExactMeansEntails(trace: Trace, rank: string -> nat, s: Span, i: nat, j: nat)
    requires Rooted(trace, rank) && MemoExact(trace, rank) && s in trace.spans
    requires i <= j < |MetBy(trace, rank, s)| && MetBy(trace, rank, s)[j] !in MetBy(trace, rank, s)[..j]
    ensures Entails(trace, rank, MetBy(trace, rank, s)[i], MetBy(trace, rank, s)[j])
  {
    var met := MetBy(trace, rank, s);
    var only := {met[j]};
    assert forall k :: 0 <= k < j ==> met[k] == met[..j][k];
    HitAt(met, only, j);
    HiddenIsMet(trace, rank, s, only);
    assert StepExact(trace, rank, only, s);
    assert i < j ==> met[..j][i] in Elems(met[..j]);
    forall t | t in trace.spans && met[i] in MetBy(trace, rank, t)
      ensures met[j] in MetBy(trace, rank, t)
    {
      HiddenIsMet(trace, rank, t, only + UpToHit(met, only));
      HiddenIsMet(trace, rank, t, only);
    }
  }

  /**
   * The memo changes no verdict, whatever is collapsed and whichever hidden span it learns from, exactly if what every
   * walk meets before an id entails that id.
   */
  lemma MemoExactIff(trace: Trace, rank: string -> nat)
    requires Rooted(trace, rank)
    ensures MemoExact(trace, rank) <==> Nested(trace, rank)
  {
    if MemoExact(trace, rank) {
      forall s | s in trace.spans
        ensures NestedWalk(trace, rank, MetBy(trace, rank, s))
      {
        var met := MetBy(trace, rank, s);
        forall i, j | 0 <= i <= j < |met| && met[j] !in met[..j]
          ensures Entails(trace, rank, met[i], met[j])
        {
          ExactMeansEntails(trace, rank, s, i, j);
        }
      }
    }
    if Nested(trace, rank) {
      forall collapsed: set<string>, s | s in trace.spans
        ensures StepExact(trace, rank, collapsed, s)
      {
        NestedMeansExact(trace, rank, collapsed, s);
      }
    }
  }

  lemma NestedMeansExact(trace: Trace, rank: string -> nat, collapsed: set<string>, s: Span)
    requires Rooted(trace, rank) && Nested(trace, rank) && s in trace.spans
    ensures StepExact(trace, rank, collapsed, s)
  {
    if IsHidden(trace, rank, s, collapsed) {
      assert Faithful(trace, rank, collapsed, collapsed);
      GrowingStaysFaithful(trace, rank, collapsed, collapsed, s);
      var grown := collapsed + UpToHit(MetBy(trace, rank, s), collapsed);
      forall t | t in trace.spans && IsHidden(trace, rank, t, grown)
        ensures IsHidden(trace, rank, t, collapsed)
      {
        MemoKeepsVerdicts(trace, rank, collapsed, grown, t);
      }
    }
  }

  // ---------------------------------------------------------------- single parents

  /** At most one reference of the list names a parent. */
  ghost predicate SingleParent(refs: seq<Reference>) {
    forall i, j :: 0 <= i < j < |refs| ==> !(IsParentRef(refs[i]) && IsParentRef(refs[j]))
  }

  ghost predicate SingleParents(spansMap: SpansMap) {
    forall id :: id in spansMap ==> SingleParent(spansMap[id].references)
  }

  lemma {:induction false} OneParent(refs: seq<Reference>)
    requires SingleParent(refs)
    ensures ParentList(refs) == if LastParent(refs).Some? then [LastParent(refs).value] else []
  {
    if refs != [] {
      var last := refs[|refs| - 1];
      var rest := refs[..|refs| - 1];
      OneParent(rest);
      if IsParentRef(last) {
        assert forall k :: 0 <= k < |rest| ==> !IsParentRef(refs[k]);
        NoParents(rest);
      }
    }
  }

  lemma {:induction false} NoParents(refs: seq<Reference>)
    requires forall k :: 0 <= k < |refs| ==> !IsParentRef(refs[k])
    ensures ParentList(refs) == []
  {
    if refs != [] {
      NoParents(refs[..|refs| - 1]);
    }
  }

  /** With single parents, what is met later is met by the walk from what is met earlier. */
  lemma {:induction false} LaterIsAbove(spansMap: SpansMap, rank: string -> nat, refs: seq<Reference>, i: nat, j: nat)
    requires Ranked(spansMap, rank) && SingleParents(spansMap) && SingleParent(refs)
    requires i < j < |Met(spansMap, rank, refs)|
    ensures var met := Met(spansMap, rank, refs);
            met[i] != "" && met[i] in spansMap && met[j] in Met(spansMap, rank, spansMap[met[i]].references)
    decreases StepsLeft(spansMap, rank, refs)
  {
    OneParent(refs);
    var p := LastParent(refs);
    var next := spansMap[p.value].references;
    var met := Met(spansMap, rank, refs);
    assert met == [p.value] + Met(spansMap, rank, next);
    if i > 0 {
      LaterIsAbove(spansMap, rank, next, i - 1, j - 1);
    }
  }

  lemma {:induction false} MetFromMet(spansMap: SpansMap, rank: string -> nat, refs: seq<Reference>, x: string, a: string)
    requires Ranked(spansMap, rank) && SingleParents(spansMap) && SingleParent(refs)
    requires x in Met(spansMap, rank, refs) && x != "" && x in spansMap && a in Met(spansMap, rank, spansMap[x].references)
    ensures a in Met(spansMap, rank, refs)
    decreases StepsLeft(spansMap, rank, refs)
  {
    OneParent(refs);
    var p := LastParent(refs);
    if p.Some? && x != p.value {
      MetFromMet(spansMap, rank, spansMap[p.value].references, x, a);
    }
  }

  /** Where every span has at most one parent, the memo is exact. */
  lemma SingleParentsNest(trace: Trace, rank: string -> nat)
    requires Rooted(trace, rank) && forall s :: s in trace.spans ==> SingleParent(s.references)
    ensures Nested(trace, rank)
  {
    var spansMap := SpansByID(trace.spans);
    forall id | id in spansMap
      ensures SingleParent(spansMap[id].references)
    {
      SpansByIDOrigin(trace.spans, id);
    }
    forall s | s in trace.spans
      ensures NestedWalk(trace, rank, MetBy(trace, rank, s))
    {
      var met := MetBy(trace, rank, s);
      forall i, j | 0 <= i <= j < |met|
        ensures Entails(trace, rank, met[i], met[j])
      {
        if i < j {
          LaterIsAbove(spansMap, rank, s.references, i, j);
          forall t | t in trace.spans && met[i] in MetBy(trace, rank, t)
            ensures met[j] in MetBy(trace, rank, t)
          {
            MetFromMet(spansMap, rank, t.references, met[i], met[j]);
          }
        }
      }
    }
  }

  // ---------------------------------------------------------------- _scrollToVisibleSpan

  /** Nothing to do, a span to scroll to, or the failure of indexing before the first span. */
  datatype Target = Stay | ScrollTo(index: nat) | NoSuchSpan

  datatype View = View(start: real, end: real)

  predicate OutOfView(trace: Trace, view: View, s: Span) {
    (view.start != 0.0 || view.end != 1.0)
    && (s.startTime > trace.startTime + trace.duration * view.end
        || s.startTime + s.duration < trace.startTime + trace.duration * view.start)
  }

  /** Searching with no matches set accepts every span. */
  predicate Matches(findMatches: Option<set<string>>, s: Span) {
    findMatches.None? || s.spanID in findMatches.value
  }

  ghost predicate InBoth(t: real, s: Span, from: real, to: real) {
    s.startTime <= t <= s.startTime + s.duration && from <= t <= to
  }

  ghost predicate Meets(s: Span, from: real, to: real) {
    exists t :: InBoth(t, s, from, to)
  }

  lemma Scaled(d: real, a: real, b: real)
    requires d >= 0.0 && a <= b
    ensures d * a <= d * b
  {
  }

  /** A span is in view if the view is whole, or some moment is both in the span and in the window. */
  lemma InViewIff(trace: Trace, view: View, s: Span)
    requires trace.duration >= 0.0 && s.duration >= 0.0 && view.start <= view.end
    ensures !OutOfView(trace, view, s)
       <==> || (view.start == 0.0 && view.end == 1.0)
            || Meets(s, trace.startTime + trace.duration * view.start, trace.startTime + trace.duration * view.end)
  {
    var from, to := trace.startTime + trace.duration * view.start, trace.startTime + trace.duration * view.end;
    Scaled(trace.duration, view.start, view.end);
    if !OutOfView(trace, view, s) && !(view.start == 0.0 && view.end == 1.0) {
      assert InBoth(if s.startTime >= from then s.startTime else from, s, from, to);
    }
  }

  /** The map from ids to spans; a repeated id keeps its last span. */
  function SpansByID(spans: seq<Span>): SpansMap {
    if spans == [] then map[]
    else SpansByID(spans[..|spans| - 1])[spans[|spans| - 1].spanID := spans[|spans| - 1]]
  }

  /** The span under an id is the last of the trace that has it. */
  lemma {:induction false} SpansByIDAre(spans: seq<Span>, i: nat)
    requires i < |spans| && forall j :: i < j < |spans| ==> spans[j].spanID != spans[i].spanID
    ensures spans[i].spanID in SpansByID(spans) && SpansByID(spans)[spans[i].spanID] == spans[i]
  {
    var n := |spans| - 1;
    if i < n {
      assert spans[n].spanID != spans[i].spanID;
      SpansByIDAre(spans[..n], i);
    }
  }

  lemma {:induction false} SpansByIDOrigin(spans: seq<Span>, id: string)
    requires id in SpansByID(spans)
    ensures SpansByID(spans)[id] in spans && SpansByID(spans)[id].spanID == id
  {
    if spans[|spans| - 1].spanID != id {
      SpansByIDOrigin(spans[..|spans| - 1], id);
    }
  }

  /** The trace hypotheses: well-founded parents, and walks on which the memo is exact. */
  ghost predicate WellFormed(trace: Trace, rank: string -> nat) {
    Rooted(trace, rank) && Nested(trace, rank)
  }

  ghost predicate SpanHidden(trace: Trace, rank: string -> nat, collapsed: Option<set<string>>, i: nat)
    requires WellFormed(trace, rank) && i < |trace.spans|
  {
    collapsed.Some? && IsHidden(trace, rank, trace.spans[i], collapsed.value)
  }

  /** A span the search may stop at. */
  ghost predicate Eligible(trace: Trace, rank: string -> nat, view: View, findMatches: Option<set<string>>,
                           collapsed: Option<set<string>>, i: nat)
    requires WellFormed(trace, rank) && i < |trace.spans|
  {
    && !OutOfView(trace, view, trace.spans[i])
    && Matches(findMatches, trace.spans[i])
    && !SpanHidden(trace, rank, collapsed, i)
  }

  ghost predicate NoneCollapsed(spansMap: SpansMap, refs: seq<Reference>, collapsed: set<string>) {
    forall c :: IsChain(spansMap, refs, c) && c != [] ==> c[|c| - 1] !in collapsed
  }

  /** A span the search may stop at, told by itself: in view, a match if there is a search, and with no collapsed span up its chains of parents. */
  lemma EligibleIs(trace: Trace, rank: string -> nat, view: View, findMatches: Option<set<string>>, collapsed: Option<set<string>>, i: nat)
    requires WellFormed(trace, rank) && i < |trace.spans|
    ensures Eligible(trace, rank, view, findMatches, collapsed, i)
       <==> && !OutOfView(trace, view, trace.spans[i])
            && (findMatches.Some? ==> trace.spans[i].spanID in findMatches.value)
            && (collapsed.Some? ==> NoneCollapsed(SpansByID(trace.spans), trace.spans[i].references, collapsed.value))
  {
    var s, spansMap := trace.spans[i], SpansByID(trace.spans);
    if collapsed.Some? {
      forall c | IsChain(spansMap, s.references, c) && c != []
        ensures c[|c| - 1] in Ancestors(spansMap, rank, s.references)
      {
        AncestorIffChain(spansMap, rank, s.references, c[|c| - 1]);
      }
      if a :| a in Ancestors(spansMap, rank, s.references) && a in collapsed.value {
        AncestorIffChain(spansMap, rank, s.references, a);
      }
    }
  }

  /** The first index looked at: one row inside the view window, then one step in the direction. */
  function FirstIndex(direction: int, spanIndex: nat, n: nat): int {
    (if spanIndex != 0 && spanIndex != n - 1 then spanIndex - direction else spanIndex) + direction
  }

  /** `i` lies at or beyond `from` in the direction of the search. */
  predicate Ahead(direction: int, from: int, i: int) {
    if direction < 0 then i <= from else from <= i
  }

  /** An acceptable span with no acceptable span between it and the start of the search. */
  ghost predicate Nearest(trace: Trace, rank: string -> nat, view: View, findMatches: Option<set<string>>,
                          collapsed: Option<set<string>>, direction: int, from: int, r: nat)
    requires WellFormed(trace, rank) && r < |trace.spans|
  {
    && Ahead(direction, from, r)
    && Eligible(trace, rank, view, findMatches, collapsed, r)
    && forall i: nat :: i < |trace.spans| && Ahead(direction, from, i) && Ahead(direction, i, r) && i != r
         ==> !Eligible(trace, rank, view, findMatches, collapsed, i)
  }

  ghost predicate NoneEligible(trace: Trace, rank: string -> nat, view: View, findMatches: Option<set<string>>,
                               collapsed: Option<set<string>>, direction: int, from: int)
    requires WellFormed(trace, rank)
  {
    forall i: nat :: i < |trace.spans| && Ahead(direction, from, i) ==> !Eligible(trace, rank, view, findMatches, collapsed, i)
  }

  /** The greatest index up to `top` that is not hidden. */
  ghost predicate LastShown(trace: Trace, rank: string -> nat, collapsed: Option<set<string>>, top: int, r: nat)
    requires WellFormed(trace, rank) && top < |trace.spans|
  {
    && r <= top && !SpanHidden(trace, rank, collapsed, r)
    && forall i: nat :: r < i <= top ==> SpanHidden(trace, rank, collapsed, i)
  }

  /** The do-while loop: back from `start` over hidden spans. */
  method Fallback(trace: Trace, start: nat, collapsed: set<string>, memo: set<string>, ghost rank: string -> nat)
    returns (r: Target)
    requires WellFormed(trace, rank) && start < |trace.spans|
    requires Faithful(trace, rank, collapsed, memo)
    ensures r != Stay
    ensures r.ScrollTo? ==> LastShown(trace, rank, Some(collapsed), start, r.index)
    ensures r.NoSuchSpan? ==> forall i: nat :: i <= start ==> SpanHidden(trace, rank, Some(collapsed), i)
  {
    var spansMap := SpansByID(trace.spans);
    var childrenAreHidden := memo;
    var nextSpanIndex: int := start;
    while true
      invariant -1 <= nextSpanIndex <= start
      invariant Faithful(trace, rank, collapsed, childrenAreHidden)
      invariant forall i: nat :: nextSpanIndex < i <= start ==> SpanHidden(trace, rank, Some(collapsed), i)
      decreases nextSpanIndex
    {
      if nextSpanIndex < 0 {
        return NoSuchSpan;
      }
      var span := trace.spans[nextSpanIndex];
      var isHidden, parentIDs := IsSpanHidden(span, childrenAreHidden, spansMap, rank);
      MemoKeepsVerdicts(trace, rank, collapsed, childrenAreHidden, span);
      if !isHidden {
        return ScrollTo(nextSpanIndex);
      }
      GrowingStaysFaithful(trace, rank, collapsed, childrenAreHidden, span);
      childrenAreHidden := childrenAreHidden + parentIDs;
      nextSpanIndex := nextSpanIndex - 1;
    }
  }

  /** One round of the search: whether the span will do, and the hidden parents known by then. */
  method CheckSpan(trace: Trace, i: nat, view: View, findMatches: Option<set<string>>, collapsed: Option<set<string>>,
                   childrenAreHidden: set<string>, spansMap: SpansMap, ghost rank: string -> nat)
    returns (eligible: bool, known: set<string>)
    requires WellFormed(trace, rank) && i < |trace.spans| && spansMap == SpansByID(trace.spans)
    requires collapsed.Some? ==> Faithful(trace, rank, collapsed.value, childrenAreHidden)
    ensures eligible <==> Eligible(trace, rank, view, findMatches, collapsed, i)
    ensures collapsed.Some? ==> Faithful(trace, rank, collapsed.value, known)
  {
    var span := trace.spans[i];
    known := childrenAreHidden;
    if OutOfView(trace, view, span) || !Matches(findMatches, span) {
      return false, known;
    }
    if collapsed.Some? {
        var isHidden, parentIDs := IsSpanHidden(span, childrenAreHidden, spansMap, rank);
      MemoKeepsVerdicts(trace, rank, collapsed.value, childrenAreHidden, span);
      if isHidden {
        GrowingStaysFaithful(trace, rank, collapsed.value, childrenAreHidden, span);
        return false, childrenAreHidden + parentIDs;
      }
    }
    return true, known;
  }

  /**
   * The index to scroll to. Terminates on every well-formed trace. If the spans ahead hold an acceptable one
   * it is the nearest such; otherwise the search falls back to the last shown span at or before the end it
   * was heading for, and fails only when all of those are hidden.
   */
  method ScrollToVisibleSpan(trace: Trace, direction: int, spanIndex: nat, view: View, findMatches: Option<set<string>>,
                             collapsed: Option<set<string>>, ghost rank: string -> nat)
    returns (r: Target)
    requires direction == 1 || direction == -1
    requires spanIndex < |trace.spans|
    requires WellFormed(trace, rank)
    ensures r.Stay? <==> (spanIndex == 0 && direction < 0) || (spanIndex == |trace.spans| - 1 && direction > 0)
    ensures !r.Stay? ==>
              var from := if 0 < spanIndex < |trace.spans| - 1 then spanIndex else spanIndex + direction;
              var top := if direction < 0 then 0 else |trace.spans| - 1;
              && (r.ScrollTo? ==>
                    && r.index < |trace.spans|
                    && (Nearest(trace, rank, view, findMatches, collapsed, direction, from, r.index)
                        || (NoneEligible(trace, rank, view, findMatches, collapsed, direction, from)
                            && LastShown(trace, rank, collapsed, top, r.index))))
              && (r.NoSuchSpan? ==>
                    && NoneEligible(trace, rank, view, findMatches, collapsed, direction, from)
                    && forall i: nat :: i <= top ==> SpanHidden(trace, rank, collapsed, i))
    ensures ParentIDs(trace.spans[0].references) == {} ==> !r.NoSuchSpan?
  {
    if ParentIDs(trace.spans[0].references) == {} {
      RootIsNeverHidden(trace, rank, collapsed);
    }
    var spans := trace.spans;
    var isUp := direction < 0;
    if (spanIndex == 0 && isUp) || (spanIndex == |spans| - 1 && !isUp) {
      return Stay;
    }
    var spansMap := SpansByID(spans);
    var childrenAreHidden: set<string> := if collapsed.Some? then collapsed.value else {};
    var boundary := if isUp then -1 else |spans|;
    var nextSpanIndex: Option<nat> := None;
    var i := FirstIndex(direction, spanIndex, |spans|);
    ghost var from := i;
    assert from == if 0 < spanIndex < |spans| - 1 then spanIndex else spanIndex + direction;
    while i != boundary
      invariant if isUp then -1 <= i <= from < |spans| else 1 <= from <= i <= |spans|
      invariant collapsed.Some? ==> Faithful(trace, rank, collapsed.value, childrenAreHidden)
      invariant forall k: nat :: k < |spans| && Ahead(direction, from, k) && Ahead(direction, k, i) && k != i
                  ==> !Eligible(trace, rank, view, findMatches, collapsed, k)
      decreases if isUp then i - boundary else boundary - i
    {
      var eligible;
      eligible, childrenAreHidden := CheckSpan(trace, i, view, findMatches, collapsed, childrenAreHidden, spansMap, rank);
      if eligible {
        nextSpanIndex := Some(i);
        break;
      }
      i := i + direction;
    }
    // index 0 reads as "nothing found" here
    if nextSpanIndex.None? || nextSpanIndex.value == 0 {
      var last := boundary - direction;
      if collapsed.None? {
        return ScrollTo(last);
      }
      r := Fallback(trace, last, collapsed.value, childrenAreHidden, rank);
    } else {
      r := ScrollTo(nextSpanIndex.value);
    }
  }

  /** A root has no ancestors, so with a root as first span the search always ends at a span. */
  lemma RootIsNeverHidden(trace: Trace, rank: string -> nat, collapsed: Option<set<string>>)
    requires WellFormed(trace, rank) && trace.spans != [] && ParentIDs(trace.spans[0].references) == {}
    ensures !SpanHidden(trace, rank, collapsed, 0)
  {
    LastParentIsParent(trace.spans[0].references);
  }

  /**
   * Two parents break the memo: after the hidden span with parents `q` and `p` (only `p` collapsed), the
   * sibling `q` is in the set, and `q`'s other child, which has no collapsed ancestor, reads as hidden.
   */
  lemma SecondParentBreaksMemo() returns (spansMap: SpansMap, rank: string -> nat, collapsed: set<string>, both: Span, other: Span)
    ensures Ranked(spansMap, rank) && !SingleParent(both.references) && SingleParent(other.references)
    ensures Hidden(spansMap, rank, both.references, collapsed) && !Hidden(spansMap, rank, other.references, collapsed)
    ensures Hidden(spansMap, rank, other.references, collapsed + ParentIDs(both.references))
  {
    var p := Reference("CHILD_OF", "p");
    var q := Reference("FOLLOWS_FROM", "q");
    spansMap, rank, collapsed := map[], (s: string) => 0, {"p"};
    both := Span("b", 0.0, 1.0, [q, p]);
    other := Span("o", 0.0, 1.0, [q]);
    assert p in both.references && q in both.references && q in other.references;
    assert "p" in Ancestors(spansMap, rank, both.references);
    assert Ancestors(spansMap, rank, other.references) == {"q"};
    assert "q" in collapsed + ParentIDs(both.references);
  }
}
