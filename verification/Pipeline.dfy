/**
 * The data pipeline (pkg/expr/graph.go): queries become nodes of a dependency graph, the graph is
 * sorted, and the nodes run in that order against a growing map of results.
 */
module Pipeline {
  import opened Prelude
  import opened MathExpr
  import opened Commands
  import opened Nodes
  import Topo

  // ---------------------------------------------------------------- what a good order is

  ghost predicate DistinctRefIDs(ns: set<Node>) {
    forall a, b :: a in ns && b in ns && a.refID == b.refID ==> a == b
  }

  /** The refID `v` is delivered by one of the first `k` nodes of the order. */
  ghost predicate DeliveredBefore(order: seq<Node>, k: int, v: string) {
    exists j :: 0 <= j < k && j < |order| && order[j].refID == v
  }

  ghost predicate DependenciesEarlier(order: seq<Node>) {
    forall i, v :: 0 <= i < |order| && v in Needs(order[i]) ==> DeliveredBefore(order, i, v)
  }

  /** A permutation of the nodes in which every dependency comes earlier. */
  ghost predicate ValidOrder(ns: set<Node>, order: seq<Node>) {
    Distinct(order) && Elems(order) == ns && DependenciesEarlier(order)
  }

  /** The dependency relation on refIDs. */
  ghost function Dependencies(ns: set<Node>): Topo.Edges<string> {
    set n, v | n in ns && v in Needs(n) :: (v, n.refID)
  }

  /** Every needed name is a node's, nobody needs itself, and the dependencies have no cycle. */
  ghost predicate Resolvable(ns: set<Node>) {
    && (forall n, v :: n in ns && v in Needs(n) ==> v != n.refID && exists m :: m in ns && m.refID == v)
    && Topo.Acyclic(Dependencies(ns))
  }

  // ---------------------------------------------------------------- the graph

  /** The library's directed graph: nodes under their ids and a set of id pairs. */
  class DirectedGraph {
    var nodes: map<nat, Node>
    var edges: set<(nat, nat)>
    var unusedID: nat

    ghost predicate Valid()
      reads this
    {
      && (forall i :: i in nodes ==> nodes[i].id == i < unusedID)
      && (forall e :: e in edges ==> e.0 in nodes && e.1 in nodes)
    }

    ghost function Members(): set<Node>
      reads this
    {
      set i | i in nodes :: nodes[i]
    }

    constructor ()
      ensures Valid() && nodes == map[] && edges == {} && unusedID == 0
    {
      nodes, edges, unusedID := map[], {}, 0;
    }

    /** An id no node has; the node itself is added separately. */
    method NewNode() returns (id: nat)
      requires Valid()
      ensures id !in nodes && id == unusedID
    {
      id := unusedID;
    }

    method AddNode(n: Node)
      requires Valid() && n.id !in nodes
      modifies this
      ensures Valid() && nodes == old(nodes)[n.id := n] && edges == old(edges)
      ensures unusedID == if n.id < old(unusedID) then old(unusedID) else n.id + 1
    {
      nodes := nodes[n.id := n];
      if unusedID <= n.id {
        unusedID := n.id + 1;
      }
    }

    method SetEdge(from: Node, to: Node)
      requires Valid() && from.id in nodes && to.id in nodes && from.id != to.id
      modifies this`edges
      ensures Valid() && edges == old(edges) + {(from.id, to.id)}
    {
      edges := edges + {(from.id, to.id)};
    }
  }

  /** The nodes of a request, when every query builds. */
  ghost predicate Buildable(ps: Parsers, orgID: int, queries: seq<Query>) {
    forall i :: 0 <= i < |queries| ==> BuildNode(ps, orgID, i, queries[i]).Ok?
  }

  ghost function NodesOf(ps: Parsers, orgID: int, queries: seq<Query>): set<Node>
    requires Buildable(ps, orgID, queries)
  {
    set i | 0 <= i < |queries| :: BuildNode(ps, orgID, i, queries[i]).value
  }

  method BuildGraph(ps: Parsers, orgID: int, queries: seq<Query>) returns (r: Result<DirectedGraph, Error>)
    ensures r.Ok? <==> Buildable(ps, orgID, queries)
    ensures r.Ok? ==> fresh(r.value) && r.value.Valid() && r.value.edges == {}
    ensures r.Ok? ==> r.value.Members() == NodesOf(ps, orgID, queries)
    ensures r.Err? ==> exists i :: 0 <= i < |queries| && BuildNode(ps, orgID, i, queries[i]) == Err(r.error)
                                   && Buildable(ps, orgID, queries[..i])
  {
    var dp := new DirectedGraph();
    for i := 0 to |queries|
      invariant fresh(dp) && dp.Valid() && dp.edges == {} && dp.unusedID == i
      invariant forall k :: k in dp.nodes <==> 0 <= k < i
      invariant forall k :: 0 <= k < i ==> BuildNode(ps, orgID, k, queries[k]) == Ok(dp.nodes[k])
    {
      var id := dp.NewNode();
      var node := BuildNode(ps, orgID, id, queries[i]);
      if node.Err? {
        return Err(node.error);
      }
      dp.AddNode(node.value);
    }
    assert dp.Members() == NodesOf(ps, orgID, queries) by {
      forall n | n in NodesOf(ps, orgID, queries)
        ensures n in dp.Members()
      {
        var k :| 0 <= k < |queries| && BuildNode(ps, orgID, k, queries[k]).value == n;
        assert k in dp.nodes;
      }
    }
    return Ok(dp);
  }

  // ---------------------------------------------------------------- registry and edges

  /** Each refID in use is mapped to some node that carries it. */
  ghost predicate IsRegistry(reg: map<string, Node>, ns: set<Node>) {
    && (forall n :: n in ns ==> n.refID in reg)
    && (forall k :: k in reg ==> reg[k] in ns && reg[k].refID == k)
  }

  /** Visits the nodes in an arbitrary order, so a repeated refID keeps an arbitrary one of its nodes. */
  method BuildNodeRegistry(g: DirectedGraph) returns (reg: map<string, Node>)
    requires g.Valid()
    ensures IsRegistry(reg, g.Members())
  {
    reg := map[];
    var left := g.nodes.Keys;
    while left != {}
      invariant left <= g.nodes.Keys
      invariant forall i :: i in g.nodes && i !in left ==> g.nodes[i].refID in reg
      invariant forall k :: k in reg ==> reg[k] in g.Members() && reg[k].refID == k
    {
      var i :| i in left;
      reg := reg[g.nodes[i].refID := g.nodes[i]];
      left := left - {i};
    }
  }

  /** The edge a needed name gives rise to. */
  ghost function EdgesInto(reg: map<string, Node>, n: Node): set<(nat, nat)> {
    set v | v in Needs(n) && v in reg :: (reg[v].id, n.id)
  }

  ghost function AllEdges(reg: map<string, Node>, ns: set<Node>): set<(nat, nat)> {
    set n, e | n in ns && e in EdgesInto(reg, n) :: e
  }

  /** The name cannot be linked: nobody has it, or it leads back to the node itself. */
  ghost predicate Unlinkable(reg: map<string, Node>, n: Node, v: string) {
    v !in reg || reg[v].id == n.id
  }

  ghost predicate AllLinkable(reg: map<string, Node>, ns: set<Node>) {
    forall n, v :: n in ns && v in Needs(n) ==> !Unlinkable(reg, n, v)
  }

  /** The inner loop of buildGraphEdges. */
  method LinkNode(dp: DirectedGraph, reg: map<string, Node>, n: Node) returns (err: Option<Error>)
    requires dp.Valid() && IsRegistry(reg, dp.Members()) && n in dp.Members()
    modifies dp`edges
    ensures dp.Valid()
    ensures err.None? <==> forall v :: v in Needs(n) ==> !Unlinkable(reg, n, v)
    ensures err.None? ==> dp.edges == old(dp.edges) + EdgesInto(reg, n)
  {
    var needs := Needs(n);
    for k := 0 to |needs|
      invariant dp.Valid()
      invariant forall j :: 0 <= j < k ==> !Unlinkable(reg, n, needs[j])
      invariant dp.edges == old(dp.edges) + (set j | 0 <= j < k && needs[j] in reg :: (reg[needs[j]].id, n.id))
    {
      var v := needs[k];
      if v !in reg {
        assert Unlinkable(reg, n, v);
        return Some(Error("unable to find dependent node"));
      }
      var needed := reg[v];
      if needed.id == n.id {
        assert Unlinkable(reg, n, v);
        return Some(Error("can not add self referencing node"));
      }
      assert needed in dp.Members();
      ghost var before := dp.edges;
      dp.SetEdge(needed, n);
      assert (set j | 0 <= j < k + 1 && needs[j] in reg :: (reg[needs[j]].id, n.id))
          == (set j | 0 <= j < k && needs[j] in reg :: (reg[needs[j]].id, n.id)) + {(needed.id, n.id)};
    }
    assert EdgesInto(reg, n) == (set j | 0 <= j < |needs| && needs[j] in reg :: (reg[needs[j]].id, n.id));
    return None;
  }

  method BuildGraphEdges(dp: DirectedGraph, reg: map<string, Node>) returns (err: Option<Error>)
    requires dp.Valid() && dp.edges == {} && IsRegistry(reg, dp.Members())
    modifies dp`edges
    ensures dp.Valid()
    ensures err.None? <==> AllLinkable(reg, dp.Members())
    ensures err.None? ==> dp.edges == AllEdges(reg, dp.Members())
  {
    var left := dp.nodes.Keys;
    ghost var done: set<Node> := {};
    while left != {}
      invariant dp.Valid()
      invariant left <= dp.nodes.Keys
      invariant done == set i | i in dp.nodes && i !in left :: dp.nodes[i]
      invariant AllLinkable(reg, done)
      invariant dp.edges == AllEdges(reg, done)
    {
      var i :| i in left;
      var node := dp.nodes[i];
      assert node in dp.Members();
      left := left - {i};
      assert (set k | k in dp.nodes && k !in left :: dp.nodes[k]) == done + {node};
      if node.CMDNode? {
        err := LinkNode(dp, reg, node);
        if err.Some? {
          return;
        }
      }
      assert AllEdges(reg, done + {node}) == AllEdges(reg, done) + EdgesInto(reg, node);
      done := done + {node};
    }
    assert done == dp.Members();
    err := None;
  }

  // ---------------------------------------------------------------- sorting

  /** The order of nodes behind an order of ids. */
  method BuildExecutionOrder(g: DirectedGraph, ghost reg: map<string, Node>) returns (r: Option<seq<Node>>)
    requires g.Valid() && IsRegistry(reg, g.Members()) && AllLinkable(reg, g.Members())
    requires g.edges == AllEdges(reg, g.Members())
    ensures r.Some? <==> Topo.Acyclic(g.edges)
    ensures r.Some? ==> ValidOrder(g.Members(), r.value)
  {
    var sorted := Topo.Sort(g.nodes.Keys, g.edges);
    if sorted.None? {
      return None;
    }
    var ids := sorted.value;
    forall k | 0 <= k < |ids|
      ensures ids[k] in g.nodes
    {
      assert ids[k] in Elems(ids);
    }
    var order: seq<Node> := [];
    for k := 0 to |ids|
      invariant |order| == k && forall j :: 0 <= j < k ==> order[j] == g.nodes[ids[j]]
    {
      order := order + [g.nodes[ids[k]]];
    }
    assert Elems(order) == g.Members() by {
      forall n | n in g.Members()
        ensures n in order
      {
        assert n.id in Elems(ids);
        var k :| 0 <= k < |ids| && ids[k] == n.id;
        assert order[k] == n;
      }
    }
    ForwardIdsAreValid(reg, g.Members(), g.edges, ids, order);
    return Some(order);
  }

  /** Forward edges between ids say that dependencies come earlier among the nodes. */
  lemma ForwardIdsAreValid(reg: map<string, Node>, ns: set<Node>, edges: set<(nat, nat)>, ids: seq<nat>, order: seq<Node>)
    requires IsRegistry(reg, ns) && AllLinkable(reg, ns) && edges == AllEdges(reg, ns)
    requires Distinct(ids) && Topo.Forward(edges, ids)
    requires |ids| == |order| && forall k :: 0 <= k < |ids| ==> order[k].id == ids[k]
    requires Elems(order) == ns
    ensures ValidOrder(ns, order)
  {
    forall i, v | 0 <= i < |order| && v in Needs(order[i])
      ensures DeliveredBefore(order, i, v)
    {
      assert order[i] in Elems(order);
      assert !Unlinkable(reg, order[i], v);
      assert reg[v] in Elems(order);
      var j :| 0 <= j < |order| && order[j] == reg[v];
      assert (ids[j], ids[i]) in EdgesInto(reg, order[i]);
      assert (ids[j], ids[i]) in edges;
    }
  }

  lemma EdgeOrigin(reg: map<string, Node>, ns: set<Node>, e: (nat, nat)) returns (n: Node, v: string)
    requires e in AllEdges(reg, ns)
    ensures n in ns && v in Needs(n) && v in reg && e == (reg[v].id, n.id)
  {
    n :| n in ns && e in EdgesInto(reg, n);
    v :| v in Needs(n) && v in reg && e == (reg[v].id, n.id);
  }

  ghost predicate DistinctIDs(ns: set<Node>) {
    forall a, b :: a in ns && b in ns && a.id == b.id ==> a == b
  }

  ghost function ByID(ns: set<Node>, i: nat): string {
    if exists n :: n in ns && n.id == i then (var n :| n in ns && n.id == i; n.refID) else ""
  }

  ghost function ByRefID(ns: set<Node>, r: string): nat {
    if exists n :: n in ns && n.refID == r then (var n :| n in ns && n.refID == r; n.id) else 0
  }

  /** With distinct refIDs, what the builder checks on ids is resolvability on refIDs. */
  lemma LinkableAcyclicIffResolvable(reg: map<string, Node>, ns: set<Node>)
    requires IsRegistry(reg, ns) && DistinctIDs(ns) && DistinctRefIDs(ns)
    ensures AllLinkable(reg, ns) && Topo.Acyclic(AllEdges(reg, ns)) <==> Resolvable(ns)
  {
    if AllLinkable(reg, ns) && Topo.Acyclic(AllEdges(reg, ns)) {
      LinkableIsResolvable(reg, ns);
    }
    if Resolvable(ns) {
      ResolvableIsLinkable(reg, ns);
    }
  }

  lemma LinkableIsResolvable(reg: map<string, Node>, ns: set<Node>)
    requires IsRegistry(reg, ns) && DistinctIDs(ns) && DistinctRefIDs(ns)
    requires AllLinkable(reg, ns) && Topo.Acyclic(AllEdges(reg, ns))
    ensures Resolvable(ns)
  {
    forall n, v | n in ns && v in Needs(n)
      ensures v != n.refID && (exists m :: m in ns && m.refID == v)
    {
      assert !Unlinkable(reg, n, v);
      assert reg[v] in ns;
    }
    forall e | e in Dependencies(ns)
      ensures (ByRefID(ns, e.0), ByRefID(ns, e.1)) in AllEdges(reg, ns)
    {
      var n, v :| n in ns && v in Needs(n) && e == (v, n.refID);
      assert !Unlinkable(reg, n, v) && reg[v] in ns;
      assert (reg[v].id, n.id) in EdgesInto(reg, n);
    }
    Topo.AcyclicPullback(Dependencies(ns), AllEdges(reg, ns), r => ByRefID(ns, r));
  }

  lemma ResolvableIsLinkable(reg: map<string, Node>, ns: set<Node>)
    requires IsRegistry(reg, ns) && DistinctIDs(ns) && DistinctRefIDs(ns) && Resolvable(ns)
    ensures AllLinkable(reg, ns) && Topo.Acyclic(AllEdges(reg, ns))
  {
    forall n, v | n in ns && v in Needs(n)
      ensures !Unlinkable(reg, n, v)
    {
      var m :| m in ns && m.refID == v;
      assert m.refID in reg;
    }
    forall e | e in AllEdges(reg, ns)
      ensures (ByID(ns, e.0), ByID(ns, e.1)) in Dependencies(ns)
    {
      var n, v := EdgeOrigin(reg, ns, e);
      assert reg[v] in ns;
      assert (v, n.refID) in Dependencies(ns);
    }
    Topo.AcyclicPullback(AllEdges(reg, ns), Dependencies(ns), i => ByID(ns, i));
  }

  /**
   * Success always delivers a valid order. With distinct refIDs it happens exactly when the nodes build and
   * their dependencies resolve.
   */
  method BuildPipeline(ps: Parsers, orgID: int, queries: seq<Query>) returns (r: Result<seq<Node>, Error>)
    ensures r.Ok? ==> Buildable(ps, orgID, queries) && ValidOrder(NodesOf(ps, orgID, queries), r.value)
    ensures Buildable(ps, orgID, queries) && DistinctRefIDs(NodesOf(ps, orgID, queries))
            ==> (r.Ok? <==> Resolvable(NodesOf(ps, orgID, queries)))
  {
    var built := BuildGraph(ps, orgID, queries);
    if built.Err? {
      return Err(built.error);
    }
    var g := built.value;
    var reg := BuildNodeRegistry(g);
    ghost var ns := NodesOf(ps, orgID, queries);
    if DistinctRefIDs(ns) {
      LinkableAcyclicIffResolvable(reg, ns);
    }
    var err := BuildGraphEdges(g, reg);
    if err.Some? {
      return Err(err.value);
    }
    var order := BuildExecutionOrder(g, reg);
    if order.None? {
      return Err(Error("cyclic components"));
    }
    return Ok(order.value);
  }

  // ---------------------------------------------------------------- running

  /** The results after running the nodes from left to right, or the error that stopped the run. */
  ghost function Run(b: Backend, order: seq<Node>): Result<Vars, Error> {
    if order == [] then Ok(map[])
    else
      var last := order[|order| - 1];
      match Run(b, order[..|order| - 1])
      case Err(e) => Err(e)
      case Ok(vars) =>
        match NodeOutcome(b, last, vars)
        case Err(e) => Err(e)
        case Ok(res) => Ok(vars[last.refID := res])
  }

  lemma {:induction false} ErrorStopsRun(b: Backend, order: seq<Node>, k: nat)
    requires k <= |order| && Run(b, order[..k]).Err?
    ensures Run(b, order) == Run(b, order[..k])
  {
    if k == |order| {
      assert order[..k] == order;
    } else {
      var shorter := order[..|order| - 1];
      assert shorter[..k] == order[..k];
      ErrorStopsRun(b, shorter, k);
    }
  }

  method Execute(b: Backend, dp: seq<Node>) returns (r: Result<Vars, Error>)
    ensures r == Run(b, dp)
  {
    var vars: Vars := map[];
    for i := 0 to |dp|
      invariant Run(b, dp[..i]) == Ok(vars)
    {
      var node := dp[i];
      assert dp[..i + 1][..i] == dp[..i];
      var res := ExecuteNode(b, node, vars);
      if res.Err? {
        ErrorStopsRun(b, dp, i + 1);
        return Err(res.error);
      }
      vars := vars[node.refID := res.value];
    }
    assert dp[..|dp|] == dp;
    return Ok(vars);
  }

  lemma {:induction false} RunKeys(b: Backend, order: seq<Node>)
    requires Run(b, order).Ok?
    ensures forall v :: v in Run(b, order).value <==> DeliveredBefore(order, |order|, v)
  {
    if order != [] {
      var shorter := order[..|order| - 1];
      RunKeys(b, shorter);
      forall v
        ensures v in Run(b, order).value <==> DeliveredBefore(order, |order|, v)
      {
        if DeliveredBefore(order, |order|, v) && v != order[|order| - 1].refID {
          var j :| 0 <= j < |order| && order[j].refID == v;
          assert shorter[j].refID == v;
        }
        if DeliveredBefore(shorter, |shorter|, v) {
          var j :| 0 <= j < |shorter| && shorter[j].refID == v;
          assert order[j].refID == v;
        }
        assert order[|order| - 1].refID == v ==> DeliveredBefore(order, |order|, v);
      }
    }
  }

  /** When node `k` of a valid order is reached, everything it needs is already there. */
  lemma NeedsAreReady(b: Backend, ns: set<Node>, order: seq<Node>, k: nat, v: string)
    requires ValidOrder(ns, order) && k < |order| && v in Needs(order[k])
    requires Run(b, order[..k]).Ok?
    ensures v in Run(b, order[..k]).value
  {
    RunKeys(b, order[..k]);
    assert DeliveredBefore(order, k, v);
    var j :| 0 <= j < k && order[j].refID == v;
    assert order[..k][j].refID == v;
  }

  // ---------------------------------------------------------------- confluence

  /** Results that satisfy every node at once: each entry is its node's outcome against the whole map. */
  ghost predicate Solves(b: Backend, ns: set<Node>, vars: Vars) {
    && (forall v :: v in vars <==> exists n :: n in ns && n.refID == v)
    && forall n :: n in ns ==> NodeOutcome(b, n, vars) == Ok(Lookup(vars, n.refID))
  }

  lemma PrefixOfValid(ns: set<Node>, order: seq<Node>, k: nat)
    requires ValidOrder(ns, order) && k <= |order|
    ensures ValidOrder(Elems(order[..k]), order[..k])
  {
    forall i, v | 0 <= i < k && v in Needs(order[..k][i])
      ensures DeliveredBefore(order[..k], i, v)
    {
      assert DeliveredBefore(order, i, v);
      var j :| 0 <= j < i && order[j].refID == v;
      assert order[..k][j].refID == v;
    }
  }

  /** Two maps that agree on what is delivered before place `k` are the same to the node at `k`. */
  lemma AgreeingOutcome(b: Backend, ns: set<Node>, order: seq<Node>, k: nat, v1: Vars, v2: Vars)
    requires ValidOrder(ns, order) && k < |order|
    requires forall j :: 0 <= j < k ==> Lookup(v1, order[j].refID) == Lookup(v2, order[j].refID)
    ensures NodeOutcome(b, order[k], v1) == NodeOutcome(b, order[k], v2)
  {
    forall v | v in Needs(order[k])
      ensures Lookup(v1, v) == Lookup(v2, v)
    {
      assert DeliveredBefore(order, k, v);
    }
    NodeReadsOnlyNeeds(b, order[k], v1, v2);
  }

  lemma RefIDsDiffer(ns: set<Node>, order: seq<Node>, i: nat, j: nat)
    requires ValidOrder(ns, order) && DistinctRefIDs(ns) && i < j < |order|
    ensures order[i].refID != order[j].refID
  {
    assert order[i] in Elems(order) && order[j] in Elems(order);
  }

  /** A successful run ends in a solution. */
  lemma {:induction false} RunSolves(b: Backend, ns: set<Node>, order: seq<Node>)
    requires ValidOrder(ns, order) && DistinctRefIDs(ns)
    requires Run(b, order).Ok?
    ensures Solves(b, ns, Run(b, order).value)
  {
    var vars := Run(b, order).value;
    if order != [] {
      var k := |order| - 1;
      var shorter := order[..k];
      PrefixOfValid(ns, order, k);
      RunSolves(b, Elems(shorter), shorter);
      var before := Run(b, shorter).value;
      forall j | 0 <= j < k
        ensures Lookup(before, order[j].refID) == Lookup(vars, order[j].refID)
      {
        RefIDsDiffer(ns, order, j, k);
      }
      forall n | n in ns
        ensures NodeOutcome(b, n, vars) == Ok(Lookup(vars, n.refID))
      {
        assert n in Elems(order);
        var i :| 0 <= i < |order| && order[i] == n;
        AgreeingOutcome(b, ns, order, i, before, vars);
        assert i < k ==> shorter[i] in Elems(shorter);
      }
    }
    RunKeys(b, order);
    forall v
      ensures v in vars <==> exists n :: n in ns && n.refID == v
    {
      if n :| n in ns && n.refID == v {
        assert n in Elems(order);
      }
      if DeliveredBefore(order, |order|, v) {
        var j :| 0 <= j < |order| && order[j].refID == v;
        assert order[j] in Elems(order);
      }
    }
  }

  /** Running any valid order rebuilds a given solution, node by node. */
  lemma {:induction false} SolutionRuns(b: Backend, ns: set<Node>, order: seq<Node>, sol: Vars, k: nat)
    requires ValidOrder(ns, order) && Solves(b, ns, sol) && k <= |order|
    ensures Run(b, order[..k]).Ok?
    ensures forall v :: v in Run(b, order[..k]).value ==> Run(b, order[..k]).value[v] == Lookup(sol, v)
  {
    if k > 0 {
      SolutionRuns(b, ns, order, sol, k - 1);
      assert order[..k][..k - 1] == order[..k - 1];
      var before := Run(b, order[..k - 1]).value;
      RunKeys(b, order[..k - 1]);
      forall j | 0 <= j < k - 1
        ensures Lookup(before, order[j].refID) == Lookup(sol, order[j].refID)
      {
        assert order[..k - 1][j].refID == order[j].refID;
        assert DeliveredBefore(order[..k - 1], k - 1, order[j].refID);
      }
      AgreeingOutcome(b, ns, order, k - 1, before, sol);
      assert order[k - 1] in Elems(order);
    }
  }

  /** A run of a valid order succeeds with `vars` exactly when `vars` is the solution. */
  lemma RunIffSolves(b: Backend, ns: set<Node>, order: seq<Node>, vars: Vars)
    requires ValidOrder(ns, order) && DistinctRefIDs(ns)
    ensures Run(b, order) == Ok(vars) <==> Solves(b, ns, vars)
  {
    if Run(b, order) == Ok(vars) {
      RunSolves(b, ns, order);
    }
    if Solves(b, ns, vars) {
      SolutionRuns(b, ns, order, vars, |order|);
      assert order[..|order|] == order;
      RunSolves(b, ns, order);
      SameSolution(b, ns, Run(b, order).value, vars);
    }
  }

  lemma SameSolution(b: Backend, ns: set<Node>, v1: Vars, v2: Vars)
    requires Solves(b, ns, v1) && Solves(b, ns, v2) && forall v :: v in v1 ==> v1[v] == Lookup(v2, v)
    ensures v1 == v2
  {
    assert forall v :: v in v1 <==> v in v2;
  }

  /** Confluence: any two valid orders of the same nodes both fail, or both end with the same results. */
  lemma Confluence(b: Backend, ns: set<Node>, p: seq<Node>, q: seq<Node>)
    requires DistinctRefIDs(ns) && ValidOrder(ns, p) && ValidOrder(ns, q)
    ensures Run(b, p) == Run(b, q) || (Run(b, p).Err? && Run(b, q).Err?)
  {
    if Run(b, p).Ok? {
      RunIffSolves(b, ns, p, Run(b, p).value);
      RunIffSolves(b, ns, q, Run(b, p).value);
    } else if Run(b, q).Ok? {
      RunIffSolves(b, ns, q, Run(b, q).value);
      RunIffSolves(b, ns, p, Run(b, q).value);
    }
  }

  /** The order with `first` and `last` in the places of the nodes at `i` and `j`, moved to the front and to the end. */
  ghost function MovedApart(order: seq<Node>, i: nat, j: nat, first: Node, last: Node): (p: seq<Node>)
    requires i < j < |order|
    ensures |p| == |order| && p[0] == first && p[|p| - 1] == last
    ensures forall k :: 1 <= k < |p| - 1 ==> p[k] == order[Origin(i, j, k)]
    ensures forall n :: 0 <= n < |order| && n != i && n != j ==> p[Destination(i, j, n)] == order[n]
  {
    var n := |order| - 1;
    seq(|order|, k requires 0 <= k < |order| => if k == 0 then first else if k == n then last else order[Origin(i, j, k)])
  }

  ghost function Origin(i: nat, j: nat, k: int): int {
    if k - 1 < i then k - 1 else if k < j then k else k + 1
  }

  ghost function Destination(i: nat, j: nat, n: int): int {
    if n < i then n + 1 else if n < j then n else n - 1
  }

  ghost predicate Twins(order: seq<Node>, i: nat, j: nat, first: Node, last: Node) {
    && i < j < |order| && order[i].DSNode? && order[j].DSNode? && order[i].refID == order[j].refID
    && ((first == order[i] && last == order[j]) || (first == order[j] && last == order[i]))
  }

  lemma MovedElements(ns: set<Node>, order: seq<Node>, i: nat, j: nat, first: Node, last: Node)
    requires ValidOrder(ns, order) && Twins(order, i, j, first, last)
    ensures Elems(MovedApart(order, i, j, first, last)) == ns
  {
    var p := MovedApart(order, i, j, first, last);
    forall n | n in ns
      ensures n in p
    {
      assert n in Elems(order);
      var k :| 0 <= k < |order| && order[k] == n;
      if k != i && k != j {
        assert p[Destination(i, j, k)] == n;
      }
    }
    forall k | 0 <= k < |p|
      ensures p[k] in ns
    {
      var m := if 1 <= k < |p| - 1 then Origin(i, j, k) else if p[k] == order[i] then i else j;
      assert p[k] == order[m] && order[m] in Elems(order);
    }
  }

  lemma MovedDistinct(ns: set<Node>, order: seq<Node>, i: nat, j: nat, first: Node, last: Node)
    requires ValidOrder(ns, order) && Twins(order, i, j, first, last)
    ensures Distinct(MovedApart(order, i, j, first, last))
  {
    var p := MovedApart(order, i, j, first, last);
    forall k, l | 0 <= k < l < |p|
      ensures p[k] != p[l]
    {
      var m := if k == 0 then (if first == order[i] then i else j) else Origin(i, j, k);
      var n := if l == |p| - 1 then (if last == order[i] then i else j) else Origin(i, j, l);
      assert p[k] == order[m] && p[l] == order[n] && m != n;
    }
  }

  lemma DestinationIsEarlier(i: nat, j: nat, k: nat, n: nat)
    requires i < j && 1 <= k && n < Origin(i, j, k) && n != i && n != j
    ensures 0 <= Destination(i, j, n) < k
  {
  }

  /** What was delivered before a node in the middle still is. */
  lemma StillDelivered(order: seq<Node>, i: nat, j: nat, first: Node, last: Node, k: nat, v: string)
    requires Twins(order, i, j, first, last) && 1 <= k < |order| && DeliveredBefore(order, Origin(i, j, k), v)
    ensures DeliveredBefore(MovedApart(order, i, j, first, last), k, v)
  {
    var p := MovedApart(order, i, j, first, last);
    var n: nat :| n < Origin(i, j, k) && n < |order| && order[n].refID == v;
    if n == i || n == j {
      assert p[0].refID == v;
    } else {
      DestinationIsEarlier(i, j, k, n);
      assert p[Destination(i, j, n)].refID == v;
    }
  }

  /** Two data source queries of one refID, wherever they stand, can be moved to the front and to the end. */
  lemma MovedIsValid(ns: set<Node>, order: seq<Node>, i: nat, j: nat, first: Node, last: Node)
    requires ValidOrder(ns, order) && Twins(order, i, j, first, last)
    ensures ValidOrder(ns, MovedApart(order, i, j, first, last))
  {
    MovedElements(ns, order, i, j, first, last);
    MovedDistinct(ns, order, i, j, first, last);
    var p := MovedApart(order, i, j, first, last);
    forall k, v | 0 <= k < |p| && v in Needs(p[k])
      ensures DeliveredBefore(p, k, v)
    {
      assert p[k] == order[Origin(i, j, k)];
      assert DeliveredBefore(order, Origin(i, j, k), v);
      StillDelivered(order, i, j, first, last, k, v);
    }
  }

  /**
   * Without distinct refIDs the order matters: whatever the other nodes, two data source queries of one refID that are
   * answered differently have two valid orders that do not end in the same results.
   */
  lemma DuplicatesDiverge(b: Backend, ns: set<Node>, order: seq<Node>, x: Node, y: Node) returns (p: seq<Node>, q: seq<Node>)
    requires ValidOrder(ns, order) && x in ns && y in ns && x != y && x.DSNode? && y.DSNode? && x.refID == y.refID
    requires b.fetch(x) != b.fetch(y)
    ensures ValidOrder(ns, p) && ValidOrder(ns, q)
    ensures Run(b, p).Ok? && Run(b, q).Ok? ==> Run(b, p) != Run(b, q)
    ensures NothingFails(b, ns) ==> Run(b, p).Ok? && Run(b, q).Ok?
  {
    assert x in Elems(order) && y in Elems(order);
    var i :| 0 <= i < |order| && order[i] == x;
    var j :| 0 <= j < |order| && order[j] == y;
    var m, n := if i < j then i else j, if i < j then j else i;
    p, q := MovedApart(order, m, n, x, y), MovedApart(order, m, n, y, x);
    MovedIsValid(ns, order, m, n, x, y);
    MovedIsValid(ns, order, m, n, y, x);
    LastIsKept(b, p);
    LastIsKept(b, q);
    if NothingFails(b, ns) {
      AllRun(b, ns, p);
      AllRun(b, ns, q);
    }
  }

  /** The nodes succeed on any variables. */
  ghost predicate NothingFails(b: Backend, ns: set<Node>) {
    forall n, vars :: n in ns ==> NodeOutcome(b, n, vars).Ok?
  }

  lemma {:induction false} AllRun(b: Backend, ns: set<Node>, order: seq<Node>)
    requires NothingFails(b, ns) && Elems(order) <= ns
    ensures Run(b, order).Ok?
  {
    if order != [] {
      var front, last := order[..|order| - 1], order[|order| - 1];
      assert last in Elems(order);
      AllRun(b, ns, front);
    }
  }

  lemma LastIsKept(b: Backend, order: seq<Node>)
    requires order != [] && order[|order| - 1].DSNode?
    ensures var last, r := order[|order| - 1], Run(b, order);
            r.Ok? ==> last.refID in r.value && b.fetch(last) == Ok(r.value[last.refID])
  {
  }

  /** Such a case: two queries called A, each answering with its own id. */
  lemma DuplicateRefIDsDiverge() returns (b: Backend, p: seq<Node>, q: seq<Node>)
    ensures ValidOrder(Elems(p), p) && ValidOrder(Elems(p), q)
    ensures Run(b, p).Ok? && Run(b, q).Ok? && Run(b, p) != Run(b, q)
  {
    var arith := Arith((_, _) => [], (_, _, r) => Ok(r), (_, _, r, _) => Ok(r), (_, _, _) => Ok([]));
    b := Backend(Engine(arith, (_, v) => Ok(v), (_, v) => Ok(v)), (n: Node) => Ok([Scalar(n.id)]));
    var first := DSNode(0, "A", map[], 1, "", 1, "", TimeRange(0, 1), 64, 5000);
    var second := DSNode(1, "A", map[], 1, "", 1, "", TimeRange(0, 1), 64, 5000);
    p, q := [first, second], [second, first];
    assert Elems(p) == Elems(q);
    assert p[..1] == [first] && q[..1] == [second];
    RunOfTwo(b, first, second);
    RunOfTwo(b, second, first);
    assert Run(b, p).value["A"] == [Scalar(1)] && Run(b, q).value["A"] == [Scalar(0)];
  }

  lemma RunOfTwo(b: Backend, first: Node, second: Node)
    requires first.refID == second.refID
    requires NodeOutcome(b, first, map[]).Ok? && forall vars :: NodeOutcome(b, second, vars).Ok?
    ensures var r := Run(b, [first, second]);
            r.Ok? && second.refID in r.value
            && r.value[second.refID] == NodeOutcome(b, second, map[first.refID := NodeOutcome(b, first, map[]).value]).value
  {
    assert [first, second][..1] == [first] && [first][..0] == [];
    assert Run(b, [first]) == Ok(map[first.refID := NodeOutcome(b, first, map[]).value]);
  }

  /** What a node's own command or data source says about a result, against all results. */
  ghost predicate Answers(b: Backend, n: Node, vars: Vars) {
    n.refID in vars && if n.CMDNode? then Yields(b.engine, n.command, vars, Ok(vars[n.refID])) else b.fetch(n) == Ok(vars[n.refID])
  }

  /** Query `i` fits, and its result is what the node it becomes says. */
  ghost predicate Answered(ps: Parsers, b: Backend, orgID: int, i: nat, q: Query, vars: Vars) {
    QueryFits(ps, q) && exists n: Node :: n.id == i && n.refID == q.refID && Becomes(ps, orgID, q, n) && Answers(b, n, vars)
  }

  lemma SolutionSatisfies(b: Backend, ns: set<Node>, vars: Vars, n: Node)
    requires Solves(b, ns, vars) && n in ns
    ensures Answers(b, n, vars)
  {
    assert n.refID in vars && NodeOutcome(b, n, vars) == Ok(Lookup(vars, n.refID));
    if n.CMDNode? {
      OutcomeYields(b.engine, n.command, vars);
    }
  }

  lemma BecomesAnswered(ps: Parsers, b: Backend, orgID: int, i: nat, q: Query, vars: Vars)
    requires BuildNode(ps, orgID, i, q).Ok? && Answers(b, BuildNode(ps, orgID, i, q).value, vars)
    ensures Answered(ps, b, orgID, i, q, vars)
  {
    BuildsIffFits(ps, orgID, i, q);
    var n := BuildNode(ps, orgID, i, q).value;
    assert n.id == i && n.refID == q.refID && Becomes(ps, orgID, q, n);
  }

  /** A solution answers every query, and has nothing else. */
  lemma SolutionAnswers(ps: Parsers, b: Backend, orgID: int, queries: seq<Query>, vars: Vars)
    requires Buildable(ps, orgID, queries) && Solves(b, NodesOf(ps, orgID, queries), vars)
    ensures forall i :: 0 <= i < |queries| ==> Answered(ps, b, orgID, i, queries[i], vars)
    ensures forall v :: v in vars <==> exists i :: 0 <= i < |queries| && queries[i].refID == v
  {
    forall i | 0 <= i < |queries|
      ensures Answered(ps, b, orgID, i, queries[i], vars)
      ensures queries[i].refID in vars
    {
      var n := BuildNode(ps, orgID, i, queries[i]).value;
      assert n in NodesOf(ps, orgID, queries);
      SolutionSatisfies(b, NodesOf(ps, orgID, queries), vars, n);
      BecomesAnswered(ps, b, orgID, i, queries[i], vars);
    }
    forall v | v in vars
      ensures exists i :: 0 <= i < |queries| && queries[i].refID == v
    {
      var n :| n in NodesOf(ps, orgID, queries) && n.refID == v;
      var i :| 0 <= i < |queries| && BuildNode(ps, orgID, i, queries[i]).value == n;
      assert queries[i].refID == v;
    }
  }

  /**
   * Building and then running a request whose refIDs are distinct. The answer does not depend on any choice
   * made on the way: it is the solution if the request resolves and has one, and an error otherwise.
   */
  method Transform(ps: Parsers, b: Backend, orgID: int, queries: seq<Query>) returns (r: Result<Vars, Error>)
    ensures r.Ok? ==> Buildable(ps, orgID, queries)
                      && exists order :: ValidOrder(NodesOf(ps, orgID, queries), order) && Run(b, order) == r
    ensures Buildable(ps, orgID, queries) && DistinctRefIDs(NodesOf(ps, orgID, queries)) ==>
              var ns := NodesOf(ps, orgID, queries);
              && (r.Ok? ==> Resolvable(ns) && Solves(b, ns, r.value))
              && (r.Err? ==> !Resolvable(ns) || forall vars :: !Solves(b, ns, vars))
    ensures r.Ok? && DistinctRefIDs(NodesOf(ps, orgID, queries)) ==>
              && (forall i :: 0 <= i < |queries| ==> Answered(ps, b, orgID, i, queries[i], r.value))
              && forall v :: v in r.value <==> exists i :: 0 <= i < |queries| && queries[i].refID == v
  {
    var dp := BuildPipeline(ps, orgID, queries);
    if dp.Err? {
      return Err(dp.error);
    }
    r := Execute(b, dp.value);
    ghost var ns := NodesOf(ps, orgID, queries);
    if DistinctRefIDs(ns) {
      if r.Ok? {
        RunIffSolves(b, ns, dp.value, r.value);
        SolutionAnswers(ps, b, orgID, queries, r.value);
      } else {
        forall vars
          ensures !Solves(b, ns, vars)
        {
          RunIffSolves(b, ns, dp.value, vars);
        }
      }
    }
  }
}
