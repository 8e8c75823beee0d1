/**
 * Total orders, written as sequences, and the construction of one in which
 * chosen pairs stand next to each other.
 */
module LinearOrders {
  import opened Collections
  import opened Digraph

  ghost predicate Before<V(!new)>(ord: seq<V>, a: V, b: V) {
    exists i, j :: 0 <= i < j < |ord| && ord[i] == a && ord[j] == b
  }

  /** Nothing stands between `w` and `r`. */
  ghost predicate Adjacent<V(!new)>(ord: seq<V>, w: V, r: V) {
    exists i :: 0 <= i < |ord| - 1 && ord[i] == w && ord[i + 1] == r
  }

  lemma AdjacentIsBefore<V(!new)>(ord: seq<V>, w: V, r: V)
    requires Adjacent(ord, w, r)
    ensures Before(ord, w, r)
  {
    var i :| 0 <= i < |ord| - 1 && ord[i] == w && ord[i + 1] == r;
    assert 0 <= i < i + 1 < |ord| && ord[i] == w && ord[i + 1] == r;
  }

  /** What comes after `w` comes after the element adjacent to it. */
  lemma AfterAdjacent<V(!new)>(ord: seq<V>, w: V, r: V, x: V)
    requires Distinct(ord) && Adjacent(ord, w, r) && Before(ord, w, x) && x != r
    ensures Before(ord, r, x)
  {
    var i :| 0 <= i < |ord| - 1 && ord[i] == w && ord[i + 1] == r;
    var k, j :| 0 <= k < j < |ord| && ord[k] == w && ord[j] == x;
    assert k == i;
    assert 0 <= i + 1 < j < |ord| && ord[i + 1] == r;
  }

  lemma AdjacentUnique<V(!new)>(ord: seq<V>, w: V, r: V, q: V)
    requires Distinct(ord) && Adjacent(ord, w, r) && Adjacent(ord, w, q)
    ensures r == q
  {
  }

  lemma BeforeTrans<V(!new)>(ord: seq<V>, a: V, b: V, c: V)
    requires Distinct(ord) && Before(ord, a, b) && Before(ord, b, c)
    ensures Before(ord, a, c)
  {
    var i, j :| 0 <= i < j < |ord| && ord[i] == a && ord[j] == b;
    var k, l :| 0 <= k < l < |ord| && ord[k] == b && ord[l] == c;
    assert k == j;
    assert 0 <= i < l < |ord|;
  }

  /** An order that respects the edges also respects the walks. */
  lemma {:induction false} BeforeAlongPath<V(!new)>(ord: seq<V>, edges: set<(V, V)>, a: V, b: V)
    requires Distinct(ord) && Reach(edges, a, b)
    requires forall x, y :: (x, y) in edges ==> Before(ord, x, y)
    ensures a == b || Before(ord, a, b)
  {
    var p :| PathBetween(edges, p, a, b);
    var i := 0;
    while i < |p| - 1
      invariant 0 <= i < |p|
      invariant p[i] == a || Before(ord, a, p[i])
    {
      assert (p[i], p[i + 1]) in edges;
      if p[i] != a {
        BeforeTrans(ord, a, p[i], p[i + 1]);
      }
      i := i + 1;
    }
  }

  /** Edges that a total order respects have no cycle. */
  lemma OrderedIsAcyclic<V(!new)>(ord: seq<V>, edges: set<(V, V)>)
    requires Distinct(ord)
    requires forall x, y :: (x, y) in edges ==> Before(ord, x, y)
    ensures !Cyclic(edges)
  {
    if Cyclic(edges) {
      var a, b :| (a, b) in edges && Reach(edges, b, a);
      BeforeAlongPath(ord, edges, b, a);
      if a != b {
        BeforeTrans(ord, a, b, a);
      }
    }
  }

  ghost predicate Within<V(!new)>(edges: set<(V, V)>, nodes: set<V>) {
    forall a, b :: (a, b) in edges ==> a in nodes && b in nodes
  }

  ghost predicate Sink<V(!new)>(edges: set<(V, V)>, e: V) {
    forall b :: (e, b) !in edges
  }

  ghost function Descendants<V(!new)>(nodes: set<V>, edges: set<(V, V)>, v: V): set<V> {
    set x | x in nodes && Reach(edges, v, x)
  }

  /** Every walk in a finite acyclic graph can be continued to a node without edges. */
  lemma {:induction false} SinkBelow<V(!new)>(nodes: set<V>, edges: set<(V, V)>, v: V) returns (e: V)
    requires v in nodes && Within(edges, nodes) && !Cyclic(edges)
    ensures e in nodes && Sink(edges, e)
    decreases Descendants(nodes, edges, v)
  {
    if Sink(edges, v) {
      e := v;
    } else {
      var u :| (v, u) in edges;
      ReachEdge(edges, v, u);
      ReachRefl(edges, v);
      assert !Reach(edges, u, v);
      forall x | x in Descendants(nodes, edges, u)
        ensures x in Descendants(nodes, edges, v)
      {
        ReachTrans(edges, v, u, x);
      }
      assert v in Descendants(nodes, edges, v) && v !in Descendants(nodes, edges, u);
      e := SinkBelow(nodes, edges, u);
    }
  }

  /** Every successor of a paired node is its partner or can be reached from it. */
  ghost predicate Chained<V(!new)>(edges: set<(V, V)>, partner: map<V, V>) {
    forall w, x :: w in partner && (w, x) in edges ==> Reach(edges, partner[w], x)
  }

  ghost predicate Injective<V(!new)>(partner: map<V, V>) {
    forall v, w :: v in partner && w in partner && partner[v] == partner[w] ==> v == w
  }

  ghost predicate PairsAreEdges<V(!new)>(edges: set<(V, V)>, partner: map<V, V>) {
    forall w :: w in partner ==> (w, partner[w]) in edges
  }

  ghost predicate Fits<V(!new)>(ord: seq<V>, nodes: set<V>, edges: set<(V, V)>, partner: map<V, V>) {
    && Distinct(ord)
    && (forall x :: x in ord <==> x in nodes)
    && (forall a, b :: (a, b) in edges ==> Before(ord, a, b))
    && (forall w :: w in partner ==> Adjacent(ord, w, partner[w]))
  }

  /** Walks that end elsewhere never visit a sink. */
  lemma ReachAvoidsSink<V(!new)>(edges: set<(V, V)>, fewer: set<(V, V)>, e: V, a: V, b: V)
    requires Sink(edges, e) && b != e && Reach(edges, a, b)
    requires forall x, y :: (x, y) in edges && y != e ==> (x, y) in fewer
    ensures Reach(fewer, a, b)
  {
    var p :| PathBetween(edges, p, a, b);
    forall i | 0 <= i < |p| - 1
      ensures (p[i], p[i + 1]) in fewer
    {
      assert (p[i], p[i + 1]) in edges;
      if i + 1 < |p| - 1 {
        assert (p[i + 1], p[i + 1 + 1]) in edges;
      }
    }
    assert PathBetween(fewer, p, a, b);
  }

  /** Taking a sink away keeps everything the construction needs. */
  lemma DropSink<V(!new)>(edges: set<(V, V)>, partner: map<V, V>, e: V)
    returns (fewer: set<(V, V)>, rest: map<V, V>)
    requires !Cyclic(edges) && Sink(edges, e)
    requires PairsAreEdges(edges, partner) && Injective(partner) && Chained(edges, partner)
    ensures fewer == set p | p in edges && p.1 != e
    ensures rest == map w | w in partner && partner[w] != e :: partner[w]
    ensures !Cyclic(fewer)
    ensures PairsAreEdges(fewer, rest) && Injective(rest) && Chained(fewer, rest)
    ensures forall w :: w in partner && partner[w] == e ==> Sink(fewer, w)
  {
    fewer := set p | p in edges && p.1 != e;
    rest := map w | w in partner && partner[w] != e :: partner[w];
    if Cyclic(fewer) {
      CyclicMono(fewer, edges);
    }
    forall w, x | w in partner && (w, x) in fewer
      ensures Reach(fewer, partner[w], x)
    {
      ReachAvoidsSink(edges, fewer, e, partner[w], x);
    }
    forall w, x | w in partner && partner[w] == e
      ensures (w, x) !in fewer
    {
      if (w, x) in fewer {
        var c := ReachFirstEdge(edges, e, x);
      }
    }
  }

  lemma AppendFits<V(!new)>(ord: seq<V>, nodes: set<V>, edges: set<(V, V)>, partner: map<V, V>, e: V,
                            fewer: set<(V, V)>, rest: map<V, V>)
    requires e in nodes && Sink(edges, e) && Within(edges, nodes)
    requires fewer == set p | p in edges && p.1 != e
    requires rest == map w | w in partner && partner[w] != e :: partner[w]
    requires Fits(ord, nodes - {e}, fewer, rest)
    requires forall w :: w in partner && partner[w] == e ==> |ord| > 0 && ord[|ord| - 1] == w
    ensures Fits(ord + [e], nodes, edges, partner)
  {
    var long := ord + [e];
    forall a, b | (a, b) in edges
      ensures Before(long, a, b)
    {
      assert a != e;
      if b == e {
        assert a in ord;
        var i :| 0 <= i < |ord| && ord[i] == a;
        assert 0 <= i < |ord| < |long| && long[i] == a && long[|ord|] == e;
      } else {
        assert (a, b) in fewer;
        var i, j :| 0 <= i < j < |ord| && ord[i] == a && ord[j] == b;
        assert 0 <= i < j < |long| && long[i] == a && long[j] == b;
      }
    }
    forall w | w in partner
      ensures Adjacent(long, w, partner[w])
    {
      if partner[w] == e {
        var i := |ord| - 1;
        assert 0 <= i < |long| - 1 && long[i] == w && long[i + 1] == e;
      } else {
        assert Adjacent(ord, w, rest[w]);
        var i :| 0 <= i < |ord| - 1 && ord[i] == w && ord[i + 1] == rest[w];
        assert 0 <= i < |long| - 1 && long[i] == w && long[i + 1] == partner[w];
      }
    }
    assert forall x :: x in long <==> x in nodes;
  }

  /** A total order that ends in the sink `e`, respects the edges and keeps partners together. */
  lemma {:induction false} OrderEndingIn<V(!new)>(nodes: set<V>, edges: set<(V, V)>, partner: map<V, V>, e: V)
    returns (ord: seq<V>)
    requires e in nodes && Sink(edges, e) && Within(edges, nodes) && !Cyclic(edges)
    requires PairsAreEdges(edges, partner) && Injective(partner) && Chained(edges, partner)
    ensures Fits(ord, nodes, edges, partner)
    ensures |ord| > 0 && ord[|ord| - 1] == e
    decreases nodes
  {
    var fewer, rest := DropSink(edges, partner, e);
    var left := nodes - {e};
    assert Within(fewer, left);
    var ord' := [];
    if w :| w in partner && partner[w] == e {
      assert (w, e) in edges && w != e;
      ord' := OrderEndingIn(left, fewer, rest, w);
    } else if v :| v in left {
      var e' := SinkBelow(left, fewer, v);
      ord' := OrderEndingIn(left, fewer, rest, e');
    } else {
      assert left == {};
    }
    AppendFits(ord', nodes, edges, partner, e, fewer, rest);
    ord := ord' + [e];
  }

  /**
   * In an acyclic graph where each paired node's successors lie behind its
   * partner, some total order respects every edge and keeps partners adjacent.
   */
  lemma OrderExists<V(!new)>(nodes: set<V>, edges: set<(V, V)>, partner: map<V, V>)
    requires Within(edges, nodes) && !Cyclic(edges)
    requires PairsAreEdges(edges, partner) && Injective(partner) && Chained(edges, partner)
    ensures exists ord :: Fits(ord, nodes, edges, partner)
  {
    if v :| v in nodes {
      var e := SinkBelow(nodes, edges, v);
      var ord := OrderEndingIn(nodes, edges, partner, e);
    } else {
      assert Fits([], nodes, edges, partner);
    }
  }
}
