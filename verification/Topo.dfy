/**
 * Topological sorting of a finite directed graph, as a reference implementation of the library call
 * pkg/expr/graph.go makes. The choice among ready vertices is left open.
 */
module Topo {
  import opened Prelude

  type Edges<V(==)> = set<(V, V)>

  /** A closed walk of at least one edge. */
  ghost predicate IsCycle<V>(edges: Edges<V>, p: seq<V>) {
    && |p| >= 2
    && p[0] == p[|p| - 1]
    && forall i :: 0 <= i < |p| - 1 ==> (p[i], p[i + 1]) in edges
  }

  /** Some member of `s` has an edge to `v`. */
  ghost predicate HasSource<V>(edges: Edges<V>, s: set<V>, v: V) {
    exists u :: u in s && (u, v) in edges
  }

  ghost predicate Acyclic<V(!new)>(edges: Edges<V>) {
    forall p: seq<V> :: !IsCycle(edges, p)
  }

  /** Every edge between listed vertices points from an earlier to a later place. */
  ghost predicate Forward<V>(edges: Edges<V>, order: seq<V>) {
    forall i, j :: 0 <= i < |order| && 0 <= j < |order| && (order[i], order[j]) in edges ==> i < j
  }

  lemma {:induction false} BackwardWalk<V>(edges: Edges<V>, s: set<V>, n: nat) returns (p: seq<V>)
    requires s != {}
    requires forall v :: v in s ==> HasSource(edges, s, v)
    ensures |p| == n + 1 && forall x :: x in p ==> x in s
    ensures forall i :: 0 <= i < n ==> (p[i], p[i + 1]) in edges
  {
    if n == 0 {
      var v :| v in s;
      p := [v];
    } else {
      var q := BackwardWalk(edges, s, n - 1);
      assert HasSource(edges, s, q[0]);
      var u :| u in s && (u, q[0]) in edges;
      p := [u] + q;
    }
  }

  /** A nonempty set in which every vertex has a predecessor contains a cycle. */
  lemma NoSourceMeansCycle<V(!new)>(edges: Edges<V>, s: set<V>)
    requires s != {}
    requires forall v :: v in s ==> HasSource(edges, s, v)
    ensures !Acyclic(edges)
  {
    var p := BackwardWalk(edges, s, |s|);
    var i, j := Pigeonhole(p, s);
    var c := p[i..j + 1];
    assert IsCycle(edges, c);
  }

  lemma {:induction false} WalkAdvances<V>(edges: Edges<V>, order: seq<V>, p: seq<V>, at: seq<nat>)
    requires Forward(edges, order)
    requires |p| == |at| >= 1 && forall k :: 0 <= k < |p| ==> at[k] < |order| && order[at[k]] == p[k]
    requires forall i :: 0 <= i < |p| - 1 ==> (p[i], p[i + 1]) in edges
    ensures at[0] + (|p| - 1) <= at[|p| - 1]
  {
    if |p| > 1 {
      WalkAdvances(edges, order, p[..|p| - 1], at[..|p| - 1]);
      assert (p[|p| - 2], p[|p| - 1]) in edges;
    }
  }

  /** A graph that has an order has no cycle. */
  lemma OrderMeansAcyclic<V(!new)>(edges: Edges<V>, order: seq<V>)
    requires Distinct(order) && Forward(edges, order)
    requires forall e :: e in edges ==> e.0 in order && e.1 in order
    ensures Acyclic(edges)
  {
    forall p: seq<V> | IsCycle(edges, p)
      ensures false
    {
      forall k | 0 <= k < |p|
        ensures p[k] in order
      {
        if k < |p| - 1 {
          assert (p[k], p[k + 1]) in edges;
        } else {
          assert (p[k - 1], p[k]) in edges;
        }
      }
      var at := seq(|p|, k requires 0 <= k < |p| => PlaceOf(order, p[k]));
      WalkAdvances(edges, order, p, at);
    }
  }

  /** Acyclicity can be pulled back along any map that carries edges to edges. */
  lemma AcyclicPullback<U(!new), V(!new)>(e1: Edges<U>, e2: Edges<V>, f: U -> V)
    requires forall e :: e in e1 ==> (f(e.0), f(e.1)) in e2
    requires Acyclic(e2)
    ensures Acyclic(e1)
  {
    forall p: seq<U> | IsCycle(e1, p)
      ensures false
    {
      var q := seq(|p|, k requires 0 <= k < |p| => f(p[k]));
      forall i | 0 <= i < |q| - 1
        ensures (q[i], q[i + 1]) in e2
      {
        var e := (p[i], p[i + 1]);
        assert e in e1;
        assert (f(e.0), f(e.1)) in e2;
      }
      assert IsCycle(e2, q);
    }
  }

  ghost function PlaceOf<V>(order: seq<V>, v: V): (i: nat)
    requires v in order
    ensures i < |order| && order[i] == v
  {
    var i :| 0 <= i < |order| && order[i] == v;
    i
  }

  /**
   * Repeatedly emits a vertex none of whose predecessors is still waiting. Succeeds exactly on acyclic
   * graphs, and then lists every vertex once with every edge pointing forward.
   */
  method Sort<V(==, !new)>(vertices: set<V>, edges: Edges<V>) returns (r: Option<seq<V>>)
    requires forall e :: e in edges ==> e.0 in vertices && e.1 in vertices
    ensures r.Some? <==> Acyclic(edges)
    ensures r.Some? ==> Distinct(r.value) && Elems(r.value) == vertices && Forward(edges, r.value)
  {
    var waiting := vertices;
    var order: seq<V> := [];
    while waiting != {}
      invariant waiting <= vertices
      invariant Distinct(order) && Elems(order) == vertices - waiting
      invariant Forward(edges, order)
      invariant forall e :: e in edges && e.1 in order ==> e.0 in order
    {
      var ready := set v | v in waiting && forall u :: u in waiting ==> (u, v) !in edges;
      if ready == {} {
        forall v | v in waiting
          ensures HasSource(edges, waiting, v)
        {
          assert v !in ready;
        }
        NoSourceMeansCycle(edges, waiting);
        return None;
      }
      var v :| v in ready;
      assert v !in order by {
        assert v in order ==> v in Elems(order);
      }
      forall e | e in edges && e.1 == v
        ensures e.0 in order
      {
        assert (e.0, v) in edges;
        assert e.0 in Elems(order);
      }
      var longer := order + [v];
      assert Elems(longer) == Elems(order) + {v};
      order, waiting := longer, waiting - {v};
    }
    forall e | e in edges
      ensures e.0 in order && e.1 in order
    {
      assert e.0 in Elems(order) && e.1 in Elems(order);
    }
    OrderMeansAcyclic(edges, order);
    return Some(order);
  }
}
