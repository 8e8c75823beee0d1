/** Reachability, cycles and linear orders over a finite set of directed edges. */
module Digraph {

  ghost predicate IsPath<V(!new)>(edges: set<(V, V)>, p: seq<V>) {
    |p| >= 1 && forall i :: 0 <= i < |p| - 1 ==> (p[i], p[i + 1]) in edges
  }

  ghost predicate PathBetween<V(!new)>(edges: set<(V, V)>, p: seq<V>, a: V, b: V) {
    IsPath(edges, p) && p[0] == a && p[|p| - 1] == b
  }

  /** `b` can be reached from `a` by zero or more edges. */
  ghost predicate Reach<V(!new)>(edges: set<(V, V)>, a: V, b: V) {
    exists p :: PathBetween(edges, p, a, b)
  }

  /** Some edge closes a directed cycle. */
  ghost predicate Cyclic<V(!new)>(edges: set<(V, V)>) {
    exists a, b :: (a, b) in edges && Reach(edges, b, a)
  }

  lemma ReachRefl<V(!new)>(edges: set<(V, V)>, a: V)
    ensures Reach(edges, a, a)
  {
    assert PathBetween(edges, [a], a, a);
  }

  lemma ReachTrans<V(!new)>(edges: set<(V, V)>, a: V, b: V, c: V)
    requires Reach(edges, a, b) && Reach(edges, b, c)
    ensures Reach(edges, a, c)
  {
    var p :| PathBetween(edges, p, a, b);
    var q :| PathBetween(edges, q, b, c);
    var r := p + q[1..];
    forall i | 0 <= i < |r| - 1
      ensures (r[i], r[i + 1]) in edges
    {
      if i >= |p| - 1 {
        assert r[i] == q[i - (|p| - 1)] && r[i + 1] == q[i + 1 - (|p| - 1)];
      }
    }
    assert PathBetween(edges, r, a, c);
  }

  lemma ReachEdge<V(!new)>(edges: set<(V, V)>, a: V, b: V)
    requires (a, b) in edges
    ensures Reach(edges, a, b)
  {
    assert PathBetween(edges, [a, b], a, b);
  }

  lemma ReachMono<V(!new)>(edges: set<(V, V)>, more: set<(V, V)>, a: V, b: V)
    requires edges <= more && Reach(edges, a, b)
    ensures Reach(more, a, b)
  {
    var p :| PathBetween(edges, p, a, b);
    assert PathBetween(more, p, a, b);
  }

  /** A non-trivial walk starts with an edge. */
  lemma ReachFirstEdge<V(!new)>(edges: set<(V, V)>, a: V, b: V) returns (c: V)
    requires Reach(edges, a, b) && a != b
    ensures (a, c) in edges && Reach(edges, c, b)
  {
    var p :| PathBetween(edges, p, a, b);
    c := p[1];
    assert (p[0], p[0 + 1]) in edges;
    var q := p[1..];
    forall i | 0 <= i < |q| - 1
      ensures (q[i], q[i + 1]) in edges
    {
      assert (p[i + 1], p[i + 1 + 1]) in edges;
    }
    assert PathBetween(edges, q, c, b);
  }

  /** Whatever is closed under the edges contains all that is reachable from it. */
  lemma {:induction false} ReachClosed<V(!new)>(edges: set<(V, V)>, closed: set<V>, a: V, b: V)
    requires Reach(edges, a, b) && a in closed
    requires forall x, y :: (x, y) in edges && x in closed ==> y in closed
    ensures b in closed
  {
    var p :| PathBetween(edges, p, a, b);
    var i := 0;
    while i < |p| - 1
      invariant 0 <= i < |p| && p[i] in closed
    {
      assert (p[i], p[i + 1]) in edges;
      i := i + 1;
    }
  }

  /** A walk that uses new edges, all leaving `u`, splits at its first visit to `u`. */
  lemma {:induction false} ReachSplit<V(!new)>(edges: set<(V, V)>, more: set<(V, V)>, u: V, a: V, b: V)
    requires Reach(more, a, b)
    requires forall x, y :: (x, y) in more && (x, y) !in edges ==> x == u
    ensures Reach(edges, a, b) || Reach(edges, a, u)
  {
    var p :| PathBetween(more, p, a, b);
    var i := 0;
    ReachRefl(edges, a);
    while i < |p| - 1 && p[i] != u
      invariant 0 <= i < |p| && Reach(edges, a, p[i])
    {
      assert (p[i], p[i + 1]) in more;
      ReachEdge(edges, p[i], p[i + 1]);
      ReachTrans(edges, a, p[i], p[i + 1]);
      i := i + 1;
    }
  }

  /** The mirror image of ReachSplit for one new edge: cut at the last visit to its target. */
  lemma {:induction false} ReachAdd<V(!new)>(edges: set<(V, V)>, u: V, v: V, a: V, b: V)
    requires Reach(edges + {(u, v)}, a, b)
    ensures Reach(edges, a, b) || (Reach(edges, a, u) && Reach(edges, v, b))
  {
    var more := edges + {(u, v)};
    ReachSplit(edges, more, u, a, b);
    var p :| PathBetween(more, p, a, b);
    var i := |p| - 1;
    ReachRefl(edges, b);
    while 0 < i && (p[i - 1], p[i]) != (u, v)
      invariant 0 <= i < |p| && Reach(edges, p[i], b)
    {
      assert (p[i - 1], p[i - 1 + 1]) in more;
      ReachEdge(edges, p[i - 1], p[i]);
      ReachTrans(edges, p[i - 1], p[i], b);
      i := i - 1;
    }
    if i == 0 {
    } else {
      assert Reach(edges, v, b);
      if Reach(edges, a, b) {
      } else {
        assert Reach(edges, a, u);
      }
    }
  }

  lemma CyclicMono<V(!new)>(edges: set<(V, V)>, more: set<(V, V)>)
    requires edges <= more && Cyclic(edges)
    ensures Cyclic(more)
  {
    var a, b :| (a, b) in edges && Reach(edges, b, a);
    ReachMono(edges, more, b, a);
  }

  /** One more edge makes a cycle exactly when its target already reached its source. */
  lemma AddEdgeCyclic<V(!new)>(edges: set<(V, V)>, u: V, v: V)
    ensures Cyclic(edges + {(u, v)}) <==> Cyclic(edges) || Reach(edges + {(u, v)}, v, u)
  {
    var more := edges + {(u, v)};
    if Cyclic(edges) {
      CyclicMono(edges, more);
    }
    if Reach(more, v, u) {
      assert (u, v) in more;
    }
    if Cyclic(more) && !Cyclic(edges) {
      var a, b :| (a, b) in more && Reach(more, b, a);
      if (a, b) in edges {
        ReachAdd(edges, u, v, b, a);
        assert !Reach(edges, b, a);
        ReachEdge(edges, a, b);
        ReachTrans(edges, a, b, u);
        ReachTrans(edges, v, a, u);
        ReachMono(edges, more, v, u);
      }
    }
  }

  /** New edges out of `u` make no cycle when nothing they lead to gets back to `u`. */
  lemma FanOutAcyclic<V(!new)>(edges: set<(V, V)>, more: set<(V, V)>, u: V)
    requires edges <= more
    requires forall x, y :: (x, y) in more && (x, y) !in edges ==> x == u && !Reach(edges, y, u)
    ensures Cyclic(more) <==> Cyclic(edges)
  {
    if Cyclic(edges) {
      CyclicMono(edges, more);
    }
    if Cyclic(more) {
      var a, b :| (a, b) in more && Reach(more, b, a);
      ReachSplit(edges, more, u, b, a);
      if (a, b) in edges && !Reach(edges, b, a) {
        // the walk back from b visits u, and leaves it by a new edge
        ReachEdge(edges, a, b);
        ReachTrans(edges, a, b, u);
        var p :| PathBetween(more, p, b, a);
        LeaveAndReturn(edges, more, u, p);
        assert PathBetween(edges, p, b, a);
      }
      assert (a, b) in edges && Reach(edges, b, a);
    }
  }

  /** A walk with a new edge out of `u`, whose end gets back to `u`, contradicts the fan-out condition. */
  lemma {:induction false} LeaveAndReturn<V(!new)>(edges: set<(V, V)>, more: set<(V, V)>, u: V, p: seq<V>)
    requires IsPath(more, p)
    requires Reach(edges, p[|p| - 1], u)
    requires forall x, y :: (x, y) in more && (x, y) !in edges ==> x == u && !Reach(edges, y, u)
    ensures IsPath(edges, p)
  {
    var i := |p| - 1;
    while 0 < i
      invariant 0 <= i < |p| && Reach(edges, p[i], u)
      invariant forall j :: i <= j < |p| - 1 ==> (p[j], p[j + 1]) in edges
    {
      assert (p[i - 1], p[i - 1 + 1]) in more;
      ReachEdge(edges, p[i - 1], p[i]);
      ReachTrans(edges, p[i - 1], p[i], u);
      i := i - 1;
    }
  }

  /** After its last visit to `u`, a walk uses none of the new edges that leave `u`. */
  lemma {:induction false} ReachLastExit<V(!new)>(edges: set<(V, V)>, more: set<(V, V)>, u: V, b: V) returns (y: V)
    requires Reach(more, u, b) && u != b
    requires forall x, z :: (x, z) in more && (x, z) !in edges ==> x == u
    ensures (u, y) in more && Reach(edges, y, b)
  {
    var p :| PathBetween(more, p, u, b);
    var i := |p| - 1;
    ReachRefl(edges, b);
    while p[i - 1] != u
      invariant 0 < i < |p| && Reach(edges, p[i], b)
      decreases i
    {
      assert (p[i - 1], p[i - 1 + 1]) in more;
      ReachEdge(edges, p[i - 1], p[i]);
      ReachTrans(edges, p[i - 1], p[i], b);
      i := i - 1;
    }
    y := p[i];
    assert (p[i - 1], p[i - 1 + 1]) in more;
  }
}
