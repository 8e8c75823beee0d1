/**
 * The ordering constraints between stores, as values: what each operation of
 * the cycle graph does to the adjacency vectors, the RMW pointers, the cycle
 * flag and the rollback vectors, and what that means for modification orders.
 */
module CycleGraphSpec {
  import opened Collections
  import opened Digraph
  import opened LinearOrders

  /** A node stands for a store action or for a promised future value. */
  datatype Key = Action(id: nat) | Promise(id: nat)

  /** The constraints asked for so far: `a` before `b`, and `r` read from `w` atomically. */
  datatype Requests = Requests(order: set<(Key, Key)>, atomic: set<(Key, Key)>)

  datatype Graph = Graph(
    succ: map<Key, seq<Key>>,
    pred: map<Key, seq<Key>>,
    rmw: map<Key, Key>,
    hasCycles: bool,
    oldCycles: bool,
    rollback: seq<Key>,
    rmwRollback: seq<Key>,
    asked: Requests
  )

  const EMPTY := Graph(map[], map[], map[], false, false, [], [], Requests({}, {}))

  ghost function EdgesOf(succ: map<Key, seq<Key>>): set<(Key, Key)> {
    set a, b | a in succ && b in succ[a] :: (a, b)
  }

  ghost function Edges(g: Graph): set<(Key, Key)> {
    EdgesOf(g.succ)
  }

  // ---------------------------------------------------------------- RMW chains

  ghost predicate RankedBy(rmw: map<Key, Key>, rank: map<Key, nat>) {
    forall w :: w in rmw ==> w in rank && rmw[w] in rank && rank[rmw[w]] < rank[w]
  }

  /** Following RMW pointers always comes to an end. */
  ghost predicate WellFounded(rmw: map<Key, Key>) {
    exists rank :: RankedBy(rmw, rank)
  }

  ghost function RankOf(rmw: map<Key, Key>): map<Key, nat>
    requires WellFounded(rmw)
  {
    var rank :| RankedBy(rmw, rank); rank
  }

  ghost function Height(rmw: map<Key, Key>, n: Key): nat
    requires WellFounded(rmw)
  {
    var rank := RankOf(rmw);
    if n in rank then rank[n] else 0
  }

  lemma HeightDrops(rmw: map<Key, Key>, n: Key)
    requires WellFounded(rmw) && n in rmw
    ensures Height(rmw, rmw[n]) < Height(rmw, n)
  {
  }

  /** The end of the RMW chain from `n`, or `to` if the chain meets it first. */
  ghost function ChainEnd(rmw: map<Key, Key>, n: Key, to: Key): Key
    requires WellFounded(rmw)
    decreases Height(rmw, n)
  {
    if n == to || n !in rmw then n else ChainEnd(rmw, rmw[n], to)
  }

  lemma AttachWellFounded(rmw: map<Key, Key>, w: Key, r: Key)
    requires WellFounded(rmw) && w !in rmw && r !in rmw && w != r
    ensures WellFounded(rmw[w := r])
  {
    var rank := RankOf(rmw);
    var keys := rank.Keys + {w, r};
    var higher := map k | k in keys :: if k == r then 0 else if k in rank then rank[k] + 1 else 1;
    assert RankedBy(rmw[w := r], higher);
  }

  // ---------------------------------------------------------------- operations

  function EnsureNode(g: Graph, k: Key): Graph {
    if k in g.succ then g else g.(succ := g.succ[k := []], pred := g.pred[k := []])
  }

  /** One forward edge and its back edge. */
  function Link(g: Graph, a: Key, b: Key): Graph
    requires a in g.succ && b in g.pred
  {
    g.(succ := g.succ[a := g.succ[a] + [b]], pred := g.pred[b := g.pred[b] + [a]], rollback := g.rollback + [a])
  }

  /** A new edge with the cycle check that follows it. */
  ghost function CheckedLink(g: Graph, a: Key, b: Key): Graph
    requires a in g.succ && b in g.pred
  {
    var g' := Link(g, a, b);
    g'.(hasCycles := g.hasCycles || Reach(Edges(g'), b, a))
  }

  /** The second edge of AddNodeEdge: from the end of the RMW chain of `a`, unless the chain holds `b`. */
  ghost function ExtendChain(g: Graph, a: Key, b: Key): Graph
    requires Shaped(g) && WellFounded(g.rmw) && b in g.succ
  {
    if a !in g.rmw then g else
    var e := ChainEnd(g.rmw, g.rmw[a], b);
    ChainEndIsNode(g, g.rmw[a], b);
    if e == b || b in g.succ[e] then g else CheckedLink(g, e, b)
  }

  ghost function AddNodeEdge(g: Graph, a: Key, b: Key): Graph
    requires Shaped(g) && WellFounded(g.rmw) && a in g.succ && b in g.succ
  {
    if b in g.succ[a] then g else
    CheckedLinkShaped(g, a, b);
    ExtendChain(CheckedLink(g, a, b), a, b)
  }

  /** Gives `r` the listed successors, except itself and those it has already. */
  ghost function Transfer(g: Graph, targets: seq<Key>, r: Key): Graph
    requires Shaped(g) && r in g.succ && forall t :: t in targets ==> t in g.succ
    decreases |targets|
  {
    if targets == [] then g else
    var t := targets[0];
    if t == r || t in g.succ[r] then Transfer(g, targets[1..], r) else
    LinkShaped(g, r, t);
    Transfer(Link(g, r, t), targets[1..], r)
  }

  ghost function AttachRMW(g: Graph, w: Key, r: Key): Graph {
    if w in g.rmw then g.(hasCycles := true)
    else g.(rmw := g.rmw[w := r], rmwRollback := g.rmwRollback + [w])
  }

  // ---------------------------------------------------------------- shape

  ghost predicate Has(m: map<Key, seq<Key>>, a: Key, b: Key) {
    a in m && b in m[a]
  }

  ghost predicate Mirrored(succ: map<Key, seq<Key>>, pred: map<Key, seq<Key>>) {
    && succ.Keys == pred.Keys
    && forall a, b :: Has(succ, a, b) <==> Has(pred, b, a)
  }

  ghost predicate Simple(m: map<Key, seq<Key>>) {
    forall a :: a in m ==> Distinct(m[a])
  }

  /** Edges stay among the nodes, none is stored twice, and back edges mirror forward edges. */
  ghost predicate Shaped(g: Graph) {
    && Mirrored(g.succ, g.pred)
    && Simple(g.succ)
    && Simple(g.pred)
    && (forall w :: w in g.rmw ==> w in g.succ && g.rmw[w] in g.succ)
  }

  lemma AppendHas(m: map<Key, seq<Key>>, a: Key, b: Key, x: Key, y: Key)
    requires a in m
    ensures Has(m[a := m[a] + [b]], x, y) <==> Has(m, x, y) || (x == a && y == b)
  {
  }

  lemma AppendSimple(m: map<Key, seq<Key>>, a: Key, b: Key)
    requires Simple(m) && a in m && b !in m[a]
    ensures Simple(m[a := m[a] + [b]])
  {
    assert Distinct(m[a]);
    assert Distinct(m[a] + [b]);
  }

  lemma LinkShaped(g: Graph, a: Key, b: Key)
    requires Shaped(g) && a in g.succ && b in g.succ && b !in g.succ[a]
    ensures Shaped(Link(g, a, b))
  {
    var g' := Link(g, a, b);
    forall x, y
      ensures Has(g'.succ, x, y) <==> Has(g'.pred, y, x)
    {
      AppendHas(g.succ, a, b, x, y);
      AppendHas(g.pred, b, a, y, x);
    }
    assert !Has(g.succ, a, b);
    AppendSimple(g.succ, a, b);
    AppendSimple(g.pred, b, a);
  }

  lemma LinkEdges(g: Graph, a: Key, b: Key)
    requires a in g.succ && b in g.pred
    ensures Edges(Link(g, a, b)) == Edges(g) + {(a, b)}
  {
    var g' := Link(g, a, b);
    forall x, y
      ensures (x, y) in Edges(g') <==> (x, y) in Edges(g) + {(a, b)}
    {
      AppendHas(g.succ, a, b, x, y);
      assert Has(g'.succ, x, y) <==> (x, y) in Edges(g');
      assert Has(g.succ, x, y) <==> (x, y) in Edges(g);
    }
  }

  lemma {:induction false} ChainEndIsNode(g: Graph, n: Key, to: Key)
    requires Shaped(g) && WellFounded(g.rmw) && n in g.succ
    ensures ChainEnd(g.rmw, n, to) in g.succ
    decreases Height(g.rmw, n)
  {
    if n != to && n in g.rmw {
      ChainEndIsNode(g, g.rmw[n], to);
    }
  }

  /** Two different RMWs were attached to one store. */
  ghost predicate TwoReaders(atomic: set<(Key, Key)>) {
    exists w, r, q :: (w, r) in atomic && (w, q) in atomic && r != q
  }

  /** The flag is raised for a directed cycle or a second RMW, and for nothing else. */
  ghost predicate Exact(g: Graph) {
    g.hasCycles <==> Cyclic(Edges(g)) || TwoReaders(g.asked.atomic)
  }

  ghost predicate ExactUpTo(g: Graph, extra: bool) {
    g.hasCycles <==> Cyclic(Edges(g)) || extra
  }

  lemma CheckedLinkExact(g: Graph, a: Key, b: Key, extra: bool)
    requires a in g.succ && b in g.pred && ExactUpTo(g, extra)
    ensures ExactUpTo(CheckedLink(g, a, b), extra)
  {
    LinkEdges(g, a, b);
    AddEdgeCyclic(Edges(g), a, b);
    assert Edges(CheckedLink(g, a, b)) == Edges(Link(g, a, b));
  }

  lemma CheckedLinkShaped(g: Graph, a: Key, b: Key)
    requires Shaped(g) && a in g.succ && b in g.succ && b !in g.succ[a]
    ensures Shaped(CheckedLink(g, a, b)) && SameRest(g, CheckedLink(g, a, b))
    ensures Edges(CheckedLink(g, a, b)) == Edges(g) + {(a, b)}
  {
    LinkShaped(g, a, b);
    LinkEdges(g, a, b);
    assert Edges(CheckedLink(g, a, b)) == Edges(Link(g, a, b));
  }

  ghost predicate SameFrame(g: Graph, g': Graph) {
    && g'.succ.Keys == g.succ.Keys
    && g'.oldCycles == g.oldCycles
    && g'.asked == g.asked
  }

  lemma EdgesHave(g: Graph, a: Key, b: Key)
    ensures (a, b) in Edges(g) <==> Has(g.succ, a, b)
  {
  }

  ghost predicate SameRest(g: Graph, g': Graph) {
    SameFrame(g, g') && g'.rmw == g.rmw && g'.rmwRollback == g.rmwRollback
  }

  lemma ExtendChainEdges(g: Graph, a: Key, b: Key)
    requires Shaped(g) && WellFounded(g.rmw) && a in g.succ && b in g.succ
    ensures var g' := ExtendChain(g, a, b);
            && Shaped(g') && SameRest(g, g')
            && Edges(g') == if a !in g.rmw || ChainEnd(g.rmw, g.rmw[a], b) == b then Edges(g)
                            else Edges(g) + {(ChainEnd(g.rmw, g.rmw[a], b), b)}
  {
    if a in g.rmw {
      var e := ChainEnd(g.rmw, g.rmw[a], b);
      ChainEndIsNode(g, g.rmw[a], b);
      EdgesHave(g, e, b);
      if e != b && b !in g.succ[e] {
        CheckedLinkShaped(g, e, b);
      } else if e != b {
        assert Edges(g) + {(e, b)} == Edges(g);
      }
    }
  }

  /** What AddNodeEdge adds: the edge itself, and one from the end of its source's RMW chain. */
  lemma AddNodeEdgeEdges(g: Graph, a: Key, b: Key)
    requires Shaped(g) && WellFounded(g.rmw) && a in g.succ && b in g.succ
    ensures Shaped(AddNodeEdge(g, a, b)) && SameRest(g, AddNodeEdge(g, a, b))
    ensures Edges(AddNodeEdge(g, a, b)) ==
            if (a, b) in Edges(g) then Edges(g)
            else if a !in g.rmw || ChainEnd(g.rmw, g.rmw[a], b) == b then Edges(g) + {(a, b)}
            else Edges(g) + {(a, b)} + {(ChainEnd(g.rmw, g.rmw[a], b), b)}
  {
    EdgesHave(g, a, b);
    if b !in g.succ[a] {
      CheckedLinkShaped(g, a, b);
      ExtendChainEdges(CheckedLink(g, a, b), a, b);
    }
  }

  lemma AddNodeEdgeExact(g: Graph, a: Key, b: Key, extra: bool)
    requires Shaped(g) && WellFounded(g.rmw) && a in g.succ && b in g.succ && ExactUpTo(g, extra)
    ensures ExactUpTo(AddNodeEdge(g, a, b), extra)
  {
    if b !in g.succ[a] {
      CheckedLinkExact(g, a, b, extra);
      CheckedLinkShaped(g, a, b);
      var g1 := CheckedLink(g, a, b);
      if a in g1.rmw {
        var e := ChainEnd(g1.rmw, g1.rmw[a], b);
        ChainEndIsNode(g1, g1.rmw[a], b);
        if e != b && b !in g1.succ[e] {
          CheckedLinkExact(g1, e, b, extra);
        }
      }
    }
  }

  lemma {:induction false} ChainReach(edges: set<(Key, Key)>, rmw: map<Key, Key>, n: Key, to: Key)
    requires WellFounded(rmw) && PairsAreEdges(edges, rmw)
    ensures Reach(edges, n, ChainEnd(rmw, n, to))
    ensures ChainEnd(rmw, n, to) == to || ChainEnd(rmw, n, to) !in rmw
    decreases Height(rmw, n)
  {
    ReachRefl(edges, n);
    if n != to && n in rmw {
      ChainReach(edges, rmw, rmw[n], to);
      ReachEdge(edges, n, rmw[n]);
      ReachTrans(edges, n, rmw[n], ChainEnd(rmw, n, to));
    }
  }

  lemma AddNodeEdgeChained(g: Graph, a: Key, b: Key)
    requires Shaped(g) && WellFounded(g.rmw) && a in g.succ && b in g.succ
    requires PairsAreEdges(Edges(g), g.rmw) && Chained(Edges(g), g.rmw)
    ensures PairsAreEdges(Edges(AddNodeEdge(g, a, b)), g.rmw) && Chained(Edges(AddNodeEdge(g, a, b)), g.rmw)
  {
    AddNodeEdgeEdges(g, a, b);
    if (a, b) !in Edges(g) {
      StillChained(Edges(g), Edges(AddNodeEdge(g, a, b)), g.rmw, a, b);
    }
  }

  /** A new edge from `a`, repeated at the end of its RMW chain, leaves every chain in one piece. */
  lemma StillChained(edges: set<(Key, Key)>, edges': set<(Key, Key)>, rmw: map<Key, Key>, a: Key, b: Key)
    requires WellFounded(rmw) && PairsAreEdges(edges, rmw) && Chained(edges, rmw)
    requires edges' == if a !in rmw || ChainEnd(rmw, rmw[a], b) == b then edges + {(a, b)}
                       else edges + {(a, b)} + {(ChainEnd(rmw, rmw[a], b), b)}
    ensures PairsAreEdges(edges', rmw) && Chained(edges', rmw)
  {
    forall w, x | w in rmw && (w, x) in edges'
      ensures Reach(edges', rmw[w], x)
    {
      if (w, x) in edges {
        ReachMono(edges, edges', rmw[w], x);
      } else {
        var e := ChainEnd(rmw, rmw[a], b);
        ChainReach(edges, rmw, rmw[a], b);
        assert w == a;
        ReachMono(edges, edges', rmw[a], e);
        if e != b {
          ReachEdge(edges', e, b);
          ReachTrans(edges', rmw[a], e, b);
        }
      }
    }
  }

  /** The order demanded by a set of requests. */
  ghost predicate Satisfies(ord: seq<Key>, asked: Requests) {
    && Distinct(ord)
    && (forall a, b :: (a, b) in asked.order ==> Before(ord, a, b))
    && (forall w, r :: (w, r) in asked.atomic ==> Adjacent(ord, w, r))
  }

  /** Every edge of the graph holds in every total order that meets the requests. */
  ghost predicate Forced(edges: set<(Key, Key)>, asked: Requests) {
    forall ord, a, b :: Satisfies(ord, asked) && (a, b) in edges ==> Before(ord, a, b)
  }

  lemma {:induction false} ChainForced(ord: seq<Key>, rmw: map<Key, Key>, n: Key, to: Key)
    requires WellFounded(rmw) && Distinct(ord) && Before(ord, n, to)
    requires forall w :: w in rmw ==> Adjacent(ord, w, rmw[w])
    ensures ChainEnd(rmw, n, to) == to || Before(ord, ChainEnd(rmw, n, to), to)
    decreases Height(rmw, n)
  {
    if n != to && n in rmw && rmw[n] != to {
      AfterAdjacent(ord, n, rmw[n], to);
      ChainForced(ord, rmw, rmw[n], to);
    }
  }

  lemma AddNodeEdgeForced(g: Graph, a: Key, b: Key, asked: Requests)
    requires Shaped(g) && WellFounded(g.rmw) && a in g.succ && b in g.succ
    requires Forced(Edges(g), asked)
    requires forall w :: w in g.rmw ==> (w, g.rmw[w]) in asked.atomic
    requires (a, b) in asked.order || (a, b) in asked.atomic
    ensures Forced(Edges(AddNodeEdge(g, a, b)), asked)
  {
    AddNodeEdgeEdges(g, a, b);
    var edges' := Edges(AddNodeEdge(g, a, b));
    forall ord, x, y | Satisfies(ord, asked) && (x, y) in edges'
      ensures Before(ord, x, y)
    {
      if (x, y) !in Edges(g) {
        if (a, b) in asked.atomic {
          AdjacentIsBefore(ord, a, b);
        }
        assert Before(ord, a, b);
        if (x, y) != (a, b) {
          AfterAdjacent(ord, a, g.rmw[a], b);
          ChainForced(ord, g.rmw, g.rmw[a], b);
        }
      }
    }
  }

  // ---------------------------------------------------------------- the invariant

  ghost predicate Recorded(g: Graph) {
    && g.asked.order <= Edges(g)
    && (forall w, r :: (w, r) in g.asked.atomic ==> w in g.rmw)
    && (forall w :: w in g.rmw ==> (w, g.rmw[w]) in g.asked.atomic)
  }

  /** Everything but the cycle flag: holds whatever the flag says. */
  ghost predicate Sound(g: Graph) {
    && Shaped(g)
    && WellFounded(g.rmw)
    && Injective(g.rmw)
    && PairsAreEdges(Edges(g), g.rmw)
    && Chained(Edges(g), g.rmw)
    && Recorded(g)
    && Forced(Edges(g), g.asked)
  }

  ghost predicate Consistent(g: Graph) {
    Sound(g) && Exact(g)
  }

  /** A total order of all the nodes that meets every request made so far. */
  ghost predicate ModificationOrder(ord: seq<Key>, g: Graph) {
    && Satisfies(ord, g.asked)
    && forall x :: x in ord <==> x in g.succ
  }

  /**
   * What the cycle flag is for: it is down exactly when some modification
   * order meets every request, each RMW directly after the store it reads.
   */
  lemma FlagDownIffOrderExists(g: Graph)
    requires Consistent(g)
    ensures !g.hasCycles <==> exists ord :: ModificationOrder(ord, g)
  {
    if !g.hasCycles {
      forall a, b | (a, b) in Edges(g)
        ensures a in g.succ.Keys && b in g.succ.Keys
      {
        EdgesHave(g, a, b);
        assert Has(g.pred, b, a);
      }
      OrderExists(g.succ.Keys, Edges(g), g.rmw);
      var ord :| Fits(ord, g.succ.Keys, Edges(g), g.rmw);
      forall w, r | (w, r) in g.asked.atomic
        ensures Adjacent(ord, w, r)
      {
        assert (w, g.rmw[w]) in g.asked.atomic;
      }
      assert ModificationOrder(ord, g);
    }
    if ord :| ModificationOrder(ord, g) {
      OrderedIsAcyclic(ord, Edges(g));
      if w, r, q :| (w, r) in g.asked.atomic && (w, q) in g.asked.atomic && r != q {
        AdjacentUnique(ord, w, r, q);
      }
    }
  }

  /** What follows a store follows the RMW that reads it, and nothing is strictly between the two unless on a cycle. */
  lemma NothingBetween(g: Graph, w: Key, x: Key)
    requires Sound(g) && w in g.rmw && x != w && Reach(Edges(g), w, x)
    ensures Reach(Edges(g), g.rmw[w], x)
    ensures !Cyclic(Edges(g)) && x != g.rmw[w] ==> !Reach(Edges(g), x, g.rmw[w])
  {
    var c := ReachFirstEdge(Edges(g), w, x);
    var r := g.rmw[w];
    ReachTrans(Edges(g), r, c, x);
    if x != r && Reach(Edges(g), x, r) {
      var d := ReachFirstEdge(Edges(g), r, x);
      ReachTrans(Edges(g), d, x, r);
    }
  }

  // ---------------------------------------------------------------- public operations

  /** Creates the nodes of both ends, as getNode does. */
  function EnsureNodes(g: Graph, a: Key, b: Key): Graph {
    EnsureNode(EnsureNode(g, a), b)
  }

  lemma EnsureNodeShaped(g: Graph, k: Key)
    requires Shaped(g)
    ensures Shaped(EnsureNode(g, k)) && Edges(EnsureNode(g, k)) == Edges(g)
    ensures EnsureNode(g, k).succ.Keys == g.succ.Keys + {k}
  {
    var g' := EnsureNode(g, k);
    if k !in g.succ {
      forall a, b
        ensures Has(g'.succ, a, b) <==> Has(g.succ, a, b)
        ensures Has(g'.pred, a, b) <==> Has(g.pred, a, b)
      {
      }
    }
    assert g'.succ.Keys == g.succ.Keys + {k};
    forall a, b
      ensures (a, b) in Edges(g') <==> (a, b) in Edges(g)
    {
      EdgesHave(g, a, b);
      EdgesHave(g', a, b);
    }
  }

  lemma EnsureNodesShaped(g: Graph, a: Key, b: Key)
    requires Shaped(g)
    ensures Shaped(EnsureNodes(g, a, b)) && Edges(EnsureNodes(g, a, b)) == Edges(g)
    ensures EnsureNodes(g, a, b).succ.Keys == g.succ.Keys + {a, b}
    ensures EnsureNodes(g, a, b).rmw == g.rmw
  {
    hide Shaped, Edges;
    EnsureNodeShaped(g, a);
    EnsureNodeShaped(EnsureNode(g, a), b);
  }

  ghost function AddEdge(g: Graph, a: Key, b: Key): Graph
    requires Shaped(g) && WellFounded(g.rmw)
  {
    EnsureNodesShaped(g, a, b);
    AddNodeEdge(EnsureNodes(g, a, b), a, b).(asked := g.asked.(order := g.asked.order + {(a, b)}))
  }

  /** addRMWEdge up to its last step: nodes made, RMW attached, successors of `w` given to `r`. */
  ghost function Transferred(g: Graph, w: Key, r: Key): Graph
    requires Shaped(g) && WellFounded(g.rmw) && w != r && r !in g.rmw
  {
    EnsureNodesShaped(g, w, r);
    var g0 := EnsureNodes(g, w, r);
    AttachShaped(g0, w, r);
    var g1 := AttachRMW(g0, w, r);
    SuccessorsAreNodes(g1, w);
    Transfer(g1, g1.succ[w], r)
  }

  ghost function AddRMWEdge(g: Graph, w: Key, r: Key): Graph
    requires Shaped(g) && WellFounded(g.rmw) && w != r && r !in g.rmw
  {
    TransferredEdges(g, w, r);
    AddNodeEdge(Transferred(g, w, r), w, r).(asked := g.asked.(atomic := g.asked.atomic + {(w, r)}))
  }

  ghost function Successors(g: Graph, w: Key): seq<Key> {
    if w in g.succ then g.succ[w] else []
  }

  lemma SuccessorsAreEdges(g: Graph, w: Key, t: Key)
    ensures t in Successors(g, w) <==> (w, t) in Edges(g)
  {
    EdgesHave(g, w, t);
  }

  lemma TransferredEdges(g: Graph, w: Key, r: Key)
    requires Shaped(g) && WellFounded(g.rmw) && w != r && r !in g.rmw
    ensures Shaped(Transferred(g, w, r)) && WellFounded(Transferred(g, w, r).rmw)
    ensures Transferred(g, w, r).succ.Keys == g.succ.Keys + {w, r}
    ensures Transferred(g, w, r).rmw == Attached(g.rmw, w, r)
    ensures Transferred(g, w, r).hasCycles == (g.hasCycles || w in g.rmw)
    ensures Edges(Transferred(g, w, r)) == Edges(g) + Fan(Successors(g, w), r)
  {
    hide Shaped, Edges, Fan, WellFounded, Transfer;
    EnsureNodesShaped(g, w, r);
    var g0 := EnsureNodes(g, w, r);
    AttachShaped(g0, w, r);
    var g1 := AttachRMW(g0, w, r);
    SuccessorsAreNodes(g1, w);
    TransferEdges(g1, g1.succ[w], r);
  }

  function Attached(rmw: map<Key, Key>, w: Key, r: Key): map<Key, Key> {
    if w in rmw then rmw else rmw[w := r]
  }

  lemma SuccessorsAreNodes(g: Graph, a: Key)
    requires Shaped(g) && a in g.succ
    ensures forall t :: t in g.succ[a] ==> t in g.succ
  {
    forall t | t in g.succ[a]
      ensures t in g.succ
    {
      assert Has(g.succ, a, t);
      assert Has(g.pred, t, a);
    }
  }

  lemma AttachShaped(g: Graph, w: Key, r: Key)
    requires Shaped(g) && WellFounded(g.rmw) && w in g.succ && r in g.succ && w != r && r !in g.rmw
    ensures Shaped(AttachRMW(g, w, r)) && WellFounded(AttachRMW(g, w, r).rmw)
    ensures Edges(AttachRMW(g, w, r)) == Edges(g)
  {
    if w !in g.rmw {
      AttachWellFounded(g.rmw, w, r);
    }
  }

  ghost function Fan(targets: seq<Key>, r: Key): set<(Key, Key)> {
    set t | t in targets && t != r :: (r, t)
  }

  lemma FanFirst(edges: set<(Key, Key)>, targets: seq<Key>, r: Key)
    requires targets != [] && (targets[0] == r || (r, targets[0]) in edges)
    ensures edges + Fan(targets, r) == edges + Fan(targets[1..], r)
  {
    assert forall t :: t in targets <==> t == targets[0] || t in targets[1..];
  }

  lemma FanStep(edges: set<(Key, Key)>, targets: seq<Key>, r: Key)
    requires targets != [] && targets[0] != r
    ensures edges + Fan(targets, r) == edges + {(r, targets[0])} + Fan(targets[1..], r)
  {
    FanFirst(edges + {(r, targets[0])}, targets, r);
    assert (r, targets[0]) in Fan(targets, r);
  }

  lemma {:induction false} TransferEdges(g: Graph, targets: seq<Key>, r: Key)
    requires Shaped(g) && r in g.succ && forall t :: t in targets ==> t in g.succ
    ensures Shaped(Transfer(g, targets, r)) && SameRest(g, Transfer(g, targets, r))
    ensures Transfer(g, targets, r).hasCycles == g.hasCycles
    ensures Edges(Transfer(g, targets, r)) == Edges(g) + Fan(targets, r)
    decreases |targets|
  {
    hide Shaped, Edges, Fan;
    NodesHavePreds(g);
    if targets != [] {
      var t, rest := targets[0], targets[1..];
      EdgesHave(g, r, t);
      if t == r || t in g.succ[r] {
        TransferEdges(g, rest, r);
        FanFirst(Edges(g), targets, r);
      } else {
        LinkShaped(g, r, t);
        LinkEdges(g, r, t);
        TransferEdges(Link(g, r, t), rest, r);
        FanStep(Edges(g), targets, r);
      }
    } else {
      FanOfNone(r);
    }
  }

  lemma NodesHavePreds(g: Graph)
    requires Shaped(g)
    ensures g.succ.Keys == g.pred.Keys
  {
  }

  lemma FanOfNone(r: Key)
    ensures Fan([], r) == {}
  {
  }

  // ---------------------------------------------------------------- preservation

  /** Whatever the flag says, all but the flag stays right. */
  lemma AddEdgeSound(g: Graph, a: Key, b: Key)
    requires Sound(g)
    ensures Sound(AddEdge(g, a, b))
    ensures AddEdge(g, a, b).succ.Keys == g.succ.Keys + {a, b}
  {
    EnsureNodesShaped(g, a, b);
    AddNodeEdgeEdges(EnsureNodes(g, a, b), a, b);
    EdgeSound(g, a, b, EnsureNodes(g, a, b), AddEdge(g, a, b));
  }

  lemma AddEdgeConsistent(g: Graph, a: Key, b: Key)
    requires Consistent(g)
    ensures Consistent(AddEdge(g, a, b))
  {
    AddEdgeSound(g, a, b);
    EnsureNodesShaped(g, a, b);
    AddNodeEdgeExact(EnsureNodes(g, a, b), a, b, TwoReaders(g.asked.atomic));
  }

  lemma EdgeSound(g: Graph, a: Key, b: Key, g0: Graph, g': Graph)
    requires Sound(g) && Shaped(g0) && Edges(g0) == Edges(g) && g0.rmw == g.rmw && a in g0.succ && b in g0.succ
    requires g' == AddNodeEdge(g0, a, b).(asked := g.asked.(order := g.asked.order + {(a, b)}))
    ensures Sound(g')
  {
    AddNodeEdgeEdges(g0, a, b);
    AddNodeEdgeChained(g0, a, b);
    var g1 := AddNodeEdge(g0, a, b);
    assert Edges(g') == Edges(g1);
    MoreRequestsForced(Edges(g), g.asked, g'.asked);
    AddNodeEdgeForced(g0, a, b, g'.asked);
    assert Recorded(g');
  }

  lemma MoreRequestsForced(edges: set<(Key, Key)>, asked: Requests, more: Requests)
    requires Forced(edges, asked) && asked.order <= more.order && asked.atomic <= more.atomic
    ensures Forced(edges, more)
  {
    forall ord, a, b | Satisfies(ord, more) && (a, b) in edges
      ensures Before(ord, a, b)
    {
      assert Satisfies(ord, asked);
    }
  }

  /** No other successor of `w` leads to `r`: then the transferred edges close no cycle. */
  ghost predicate TransferSafe(g: Graph, w: Key, r: Key) {
    forall t :: (w, t) in Edges(g) && t != r ==> !Reach(Edges(g), t, r)
  }

  /** What addRMWEdge takes for granted of its RMW: a fresh reader that nobody read from yet. */
  ghost predicate FreshReader(g: Graph, w: Key, r: Key) {
    w != r && r !in g.rmw && r !in g.rmw.Values
  }

  /** Either case named in the comment on the transfer loop makes the transfer safe. */
  lemma DocumentedCasesAreSafe(g: Graph, w: Key, r: Key)
    requires (forall x :: (x, r) !in Edges(g)) || (forall t :: (w, t) !in Edges(g))
    ensures TransferSafe(g, w, r)
  {
    forall t | (w, t) in Edges(g) && t != r
      ensures !Reach(Edges(g), t, r)
    {
      if Reach(Edges(g), t, r) {
        LastEdge(Edges(g), t, r);
      }
    }
  }

  lemma LastEdge(edges: set<(Key, Key)>, a: Key, b: Key)
    requires Reach(edges, a, b) && a != b
    ensures exists x :: (x, b) in edges
  {
    var p :| PathBetween(edges, p, a, b);
    assert (p[|p| - 2], p[|p| - 2 + 1]) in edges;
  }

  /** The edges after addRMWEdge: those of `w` passed on, the RMW edge, and one from the end of an older chain. */
  ghost predicate RMWEdges(g: Graph, w: Key, r: Key, edges: set<(Key, Key)>)
    requires WellFounded(g.rmw)
  {
    var fan := Edges(g) + Fan(Successors(g, w), r);
    edges == if w !in g.rmw || (w, r) in fan || ChainEnd(g.rmw, g.rmw[w], r) == r then fan + {(w, r)}
             else fan + {(w, r)} + {(ChainEnd(g.rmw, g.rmw[w], r), r)}
  }

  ghost predicate RMWStep(g: Graph, w: Key, r: Key, g': Graph) {
    && Shaped(g')
    && WellFounded(g.rmw)
    && WellFounded(g'.rmw)
    && g'.succ.Keys == g.succ.Keys + {w, r}
    && g'.rmw == Attached(g.rmw, w, r)
    && g'.asked == g.asked.(atomic := g.asked.atomic + {(w, r)})
    && RMWEdges(g, w, r, Edges(g'))
  }

  lemma AddRMWEdgeStep(g: Graph, w: Key, r: Key)
    requires Shaped(g) && WellFounded(g.rmw) && w != r && r !in g.rmw
    ensures RMWStep(g, w, r, AddRMWEdge(g, w, r))
  {
    TransferredEdges(g, w, r);
    LastStep(g, w, r, Transferred(g, w, r), AddRMWEdge(g, w, r));
  }

  lemma LastStep(g: Graph, w: Key, r: Key, g2: Graph, g': Graph)
    requires WellFounded(g.rmw) && w != r && r !in g.rmw
    requires Shaped(g2) && WellFounded(g2.rmw) && g2.rmw == Attached(g.rmw, w, r)
    requires g2.succ.Keys == g.succ.Keys + {w, r}
    requires Edges(g2) == Edges(g) + Fan(Successors(g, w), r)
    requires g' == AddNodeEdge(g2, w, r).(asked := g.asked.(atomic := g.asked.atomic + {(w, r)}))
    ensures RMWStep(g, w, r, g')
  {
    AddNodeEdgeEdges(g2, w, r);
    var g3 := AddNodeEdge(g2, w, r);
    assert Edges(g') == Edges(g3);
    if (w, r) in Edges(g2) {
      assert Edges(g2) + {(w, r)} == Edges(g2);
    }
  }

  lemma RMWChained(g: Graph, w: Key, r: Key, g': Graph)
    requires WellFounded(g.rmw) && Chained(Edges(g), g.rmw) && PairsAreEdges(Edges(g), g.rmw)
    requires FreshReader(g, w, r) && g'.rmw == Attached(g.rmw, w, r) && RMWEdges(g, w, r, Edges(g'))
    ensures PairsAreEdges(Edges(g'), g'.rmw) && Chained(Edges(g'), g'.rmw)
  {
    var edges, edges' := Edges(g), Edges(g');
    forall v, x | v in g'.rmw && (v, x) in edges'
      ensures Reach(edges', g'.rmw[v], x)
    {
      if v == w && w !in g.rmw {
        if x == r {
          ReachRefl(edges', r);
        } else {
          SuccessorsAreEdges(g, w, x);
          assert (r, x) in Fan(Successors(g, w), r);
          ReachEdge(edges', r, x);
        }
      } else if (v, x) in edges {
        ReachMono(edges, edges', g.rmw[v], x);
      } else {
        // v is w, which had an RMW already, and x is r, at the end of its chain
        ChainReach(edges, g.rmw, g.rmw[w], r);
        var e := ChainEnd(g.rmw, g.rmw[w], r);
        ReachMono(edges, edges', g.rmw[w], e);
        if e != r {
          ReachEdge(edges', e, r);
          ReachTrans(edges', g.rmw[w], e, r);
        }
      }
    }
  }

  lemma RMWForced(g: Graph, w: Key, r: Key, g': Graph)
    requires WellFounded(g.rmw) && Forced(Edges(g), g.asked) && Recorded(g)
    requires FreshReader(g, w, r) && RMWEdges(g, w, r, Edges(g'))
    requires g'.asked == g.asked.(atomic := g.asked.atomic + {(w, r)})
    ensures Forced(Edges(g'), g'.asked)
  {
    forall ord, a, b | Satisfies(ord, g'.asked) && (a, b) in Edges(g')
      ensures Before(ord, a, b)
    {
      assert (w, r) in g'.asked.atomic;
      if w in g.rmw {
        assert (w, g.rmw[w]) in g'.asked.atomic;
        assert r != g.rmw[w];
        AdjacentUnique(ord, w, r, g.rmw[w]);
      } else {
        assert Satisfies(ord, g.asked);
        AdjacentIsBefore(ord, w, r);
        if (a, b) !in Edges(g) && (a, b) != (w, r) {
          SuccessorsAreEdges(g, w, b);
          AfterAdjacent(ord, w, r, b);
        }
      }
    }
  }

  lemma RMWSound(g: Graph, w: Key, r: Key, g': Graph)
    requires Sound(g) && FreshReader(g, w, r) && RMWStep(g, w, r, g')
    ensures Sound(g')
  {
    RMWChained(g, w, r, g');
    RMWForced(g, w, r, g');
    assert Injective(g'.rmw);
    RMWRecorded(g, w, r, g');
  }

  lemma RMWRecorded(g: Graph, w: Key, r: Key, g': Graph)
    requires Recorded(g) && RMWStep(g, w, r, g')
    ensures Recorded(g')
  {
  }

  lemma TransferredExact(g: Graph, w: Key, r: Key)
    requires Consistent(g) && FreshReader(g, w, r) && TransferSafe(g, w, r)
    ensures ExactUpTo(Transferred(g, w, r), TwoReaders(g.asked.atomic + {(w, r)}))
  {
    TransferredEdges(g, w, r);
    var more := Edges(Transferred(g, w, r));
    forall x, y | (x, y) in more && (x, y) !in Edges(g)
      ensures x == r && !Reach(Edges(g), y, r)
    {
      SuccessorsAreEdges(g, w, y);
    }
    FanOutAcyclic(Edges(g), more, r);
    AtomicGrows(g, w, r);
  }

  /** Whatever the flag says, all but the flag stays right. */
  lemma AddRMWEdgeSound(g: Graph, w: Key, r: Key)
    requires Sound(g) && FreshReader(g, w, r)
    ensures Sound(AddRMWEdge(g, w, r))
    ensures AddRMWEdge(g, w, r).succ.Keys == g.succ.Keys + {w, r}
  {
    AddRMWEdgeStep(g, w, r);
    RMWSound(g, w, r, AddRMWEdge(g, w, r));
  }

  /** Under the documented condition the flag stays exact. */
  lemma AddRMWEdgeConsistent(g: Graph, w: Key, r: Key)
    requires Consistent(g) && FreshReader(g, w, r) && TransferSafe(g, w, r)
    ensures Consistent(AddRMWEdge(g, w, r))
  {
    AddRMWEdgeSound(g, w, r);
    var g' := AddRMWEdge(g, w, r);
    TransferredEdges(g, w, r);
    TransferredExact(g, w, r);
    var g2 := Transferred(g, w, r);
    AddNodeEdgeExact(g2, w, r, TwoReaders(g'.asked.atomic));
    assert Edges(g') == Edges(AddNodeEdge(g2, w, r));
  }

  lemma AtomicGrows(g: Graph, w: Key, r: Key)
    requires Recorded(g) && r !in g.rmw.Values
    ensures TwoReaders(g.asked.atomic + {(w, r)}) <==> TwoReaders(g.asked.atomic) || w in g.rmw
  {
    var more := g.asked.atomic + {(w, r)};
    if w in g.rmw {
      assert g.rmw[w] in g.rmw.Values;
      assert (w, g.rmw[w]) in more && (w, r) in more;
    }
    if v, p, q :| (v, p) in g.asked.atomic && (v, q) in g.asked.atomic && p != q {
      assert (v, p) in more && (v, q) in more;
    }
  }

  /** When addRMWEdge leaves the flag exact. */
  ghost predicate KeepsExact(g: Graph, w: Key, r: Key) {
    g.hasCycles || w in g.rmw || TransferSafe(g, w, r)
  }

  /**
   * The condition cannot be dropped: when another successor of `w` leads to
   * `r`, the transferred edges close a cycle and the flag misses it.
   */
  lemma FlagExactIffTransferSafe(g: Graph, w: Key, r: Key)
    requires Consistent(g) && FreshReader(g, w, r)
    ensures Exact(AddRMWEdge(g, w, r)) <==> KeepsExact(g, w, r)
  {
    if TransferSafe(g, w, r) {
      AddRMWEdgeConsistent(g, w, r);
    } else if g.hasCycles || w in g.rmw {
      RaisedStays(g, w, r);
    } else {
      MissedCycle(g, w, r);
    }
  }

  lemma {:induction false} FlagNeverFalls(g: Graph, w: Key, r: Key)
    requires Shaped(g) && WellFounded(g.rmw) && w != r && r !in g.rmw && (g.hasCycles || w in g.rmw)
    ensures AddRMWEdge(g, w, r).hasCycles
  {
    TransferredEdges(g, w, r);
    var g2 := Transferred(g, w, r);
    assert g2.hasCycles;
    assert AddNodeEdge(g2, w, r).hasCycles;
  }

  lemma RaisedStays(g: Graph, w: Key, r: Key)
    requires Consistent(g) && FreshReader(g, w, r) && (g.hasCycles || w in g.rmw)
    ensures Exact(AddRMWEdge(g, w, r))
  {
    FlagNeverFalls(g, w, r);
    AddRMWEdgeStep(g, w, r);
    StillFlawed(g, w, r, AddRMWEdge(g, w, r));
  }

  lemma StillFlawed(g: Graph, w: Key, r: Key, g': Graph)
    requires Exact(g) && Recorded(g) && FreshReader(g, w, r) && (g.hasCycles || w in g.rmw) && RMWStep(g, w, r, g')
    ensures Cyclic(Edges(g')) || TwoReaders(g'.asked.atomic)
  {
    AtomicGrows(g, w, r);
    if Cyclic(Edges(g)) {
      CyclicMono(Edges(g), Edges(g'));
    }
  }

  lemma MissedCycle(g: Graph, w: Key, r: Key)
    requires Consistent(g) && FreshReader(g, w, r) && !g.hasCycles && w !in g.rmw && !TransferSafe(g, w, r)
    ensures !AddRMWEdge(g, w, r).hasCycles && Cyclic(Edges(AddRMWEdge(g, w, r)))
  {
    var t :| (w, t) in Edges(g) && t != r && Reach(Edges(g), t, r);
    AddRMWEdgeStep(g, w, r);
    ClosesCycle(g, w, r, t, AddRMWEdge(g, w, r));
    TransferredEdges(g, w, r);
    FlagStaysDown(g, w, r, t, Transferred(g, w, r));
  }

  lemma ClosesCycle(g: Graph, w: Key, r: Key, t: Key, g': Graph)
    requires (w, t) in Edges(g) && t != r && Reach(Edges(g), t, r) && RMWStep(g, w, r, g')
    ensures Cyclic(Edges(g'))
  {
    SuccessorsAreEdges(g, w, t);
    ReachMono(Edges(g), Edges(g'), t, r);
    assert (r, t) in Fan(Successors(g, w), r);
    assert (r, t) in Edges(g');
  }

  lemma FlagStaysDown(g: Graph, w: Key, r: Key, t: Key, g2: Graph)
    requires !Cyclic(Edges(g)) && w != r && (w, t) in Edges(g) && Reach(Edges(g), t, r)
    requires Shaped(g2) && WellFounded(g2.rmw) && w in g2.succ && r in g2.succ && w in g2.rmw && g2.rmw[w] == r
    requires Edges(g2) == Edges(g) + Fan(Successors(g, w), r) && !g2.hasCycles
    ensures !AddNodeEdge(g2, w, r).hasCycles
  {
    if r !in g2.succ[w] {
      CheckedLinkShaped(g2, w, r);
      NoWayBack(g, w, r, t, Edges(CheckedLink(g2, w, r)));
    }
  }

  /** Without a cycle so far, `r` does not get back to `w` over the edges addRMWEdge adds. */
  lemma NoWayBack(g: Graph, w: Key, r: Key, t: Key, more: set<(Key, Key)>)
    requires !Cyclic(Edges(g)) && w != r && (w, t) in Edges(g) && Reach(Edges(g), t, r)
    requires more == Edges(g) + Fan(Successors(g, w), r) + {(w, r)}
    ensures !Reach(more, r, w)
  {
    if Reach(more, r, w) {
      var edges := Edges(g);
      var fanned := edges + Fan(Successors(g, w), r);
      ReachSplit(fanned, more, w, r, w);
      var y := ReachLastExit(edges, fanned, r, w);
      if (r, y) in edges {
        ReachEdge(edges, r, y);
        ReachTrans(edges, t, r, y);
        ReachTrans(edges, t, y, w);
      } else {
        SuccessorsAreEdges(g, w, y);
      }
    }
  }
}
