/**
 * The cycle graph as the model checker keeps it: one map for each field of its
 * nodes, updated in place.
 */
module CycleGraph {
  import opened Collections
  import opened Digraph
  import opened CycleGraphSpec
  import opened CycleGraphRuns

  class CycleGraph {
    /** The edges leaving and entering each node, and the RMW that reads from it, if any. */
    var edges: map<Key, seq<Key>>
    var backEdges: map<Key, seq<Key>>
    var hasRMW: map<Key, Key>

    var hasCycles: bool
    var oldCycles: bool
    var rollbackvector: seq<Key>
    var rmwrollbackvector: seq<Key>

    /** What was asked for, and the graph at the last commit. */
    ghost var asked: Requests
    ghost var base: Graph

    ghost function Abs(): Graph
      reads this
    {
      Graph(edges, backEdges, hasRMW, hasCycles, oldCycles, rollbackvector, rmwrollbackvector, asked)
    }

    ghost predicate Valid()
      reads this
    {
      Lawful(History(Abs(), base))
    }

    /** The flag tells the truth, and will after a rollback. */
    ghost predicate Truthful()
      reads this
    {
      FlagExact(History(Abs(), base))
    }

    constructor ()
      ensures Valid() && Truthful() && Abs() == EMPTY && base == EMPTY
    {
      edges, backEdges, hasRMW := map[], map[], map[];
      hasCycles, oldCycles := false, false;
      rollbackvector, rmwrollbackvector := [], [];
      asked := Requests({}, {});
      base := EMPTY;
      new;
      StartLawful();
    }

    /** One turn of the search: marks and stacks the successors of `node` not seen before. */
    method Expand(node: Key, seen: set<Key>, stack: seq<Key>) returns (discovered: set<Key>, queue: seq<Key>)
      requires node in edges && forall n :: n in stack ==> n in seen
      ensures discovered == seen + (set n | n in edges[node])
      ensures forall n :: n in queue <==> n in stack || (n in edges[node] && n !in seen)
      ensures discovered == seen ==> queue == stack
    {
      discovered, queue := seen, stack;
      for i := 0 to |edges[node]|
        invariant discovered == seen + (set n | n in edges[node][..i])
        invariant forall n :: n in queue <==> n in stack || (n in edges[node][..i] && n !in seen)
        invariant discovered == seen ==> queue == stack
      {
        var next := edges[node][i];
        assert edges[node][..i + 1] == edges[node][..i] + [next];
        if next !in discovered {
          discovered := discovered + {next};
          queue := queue + [next];
        }
      }
      assert edges[node][..|edges[node]|] == edges[node];
    }

    /** Depth-first search with an explicit stack. */
    method CheckReachable(from: Key, to: Key) returns (found: bool)
      requires from in edges && forall a, b :: Has(edges, a, b) ==> b in edges
      ensures found <==> Reach(EdgesOf(edges), from, to)
    {
      var discovered := {from};
      var queue := [from];
      ReachRefl(EdgesOf(edges), from);
      while |queue| > 0
        invariant from in discovered && discovered <= edges.Keys
        invariant forall n :: n in discovered ==> Reach(EdgesOf(edges), from, n)
        invariant forall n :: n in queue ==> n in discovered
        invariant forall n, m :: n in discovered && n !in queue && Has(edges, n, m) ==> m in discovered
        invariant to in discovered ==> to in queue
        decreases edges.Keys - discovered, |queue|
      {
        var node := queue[|queue| - 1];
        ghost var before := queue;
        queue := queue[..|queue| - 1];
        assert before == queue + [node];
        if node == to {
          return true;
        }
        forall m | m in edges[node]
          ensures Reach(EdgesOf(edges), from, m) && m in edges
        {
          assert Has(edges, node, m);
          ReachEdge(EdgesOf(edges), node, m);
          ReachTrans(EdgesOf(edges), from, node, m);
        }
        discovered, queue := Expand(node, discovered, queue);
      }
      if Reach(EdgesOf(edges), from, to) {
        forall x, y | (x, y) in EdgesOf(edges) && x in discovered
          ensures y in discovered
        {
          assert Has(edges, x, y);
        }
        ReachClosed(EdgesOf(edges), discovered, from, to);
      }
      return false;
    }

    /** Makes the node of `k` when it is first asked for. */
    method GetNode(k: Key)
      modifies this`edges, this`backEdges
      ensures Abs() == EnsureNode(old(Abs()), k)
    {
      if k !in edges {
        edges, backEdges := edges[k := []], backEdges[k := []];
      }
    }

    /** Adds the edge from `a` to `b`, unless there is one. */
    method NodeAddEdge(a: Key, b: Key) returns (added: bool)
      requires a in edges && b in backEdges
      modifies this`edges, this`backEdges
      ensures added <==> b !in old(edges)[a]
      ensures edges == if added then old(edges)[a := old(edges)[a] + [b]] else old(edges)
      ensures backEdges == if added then old(backEdges)[b := old(backEdges)[b] + [a]] else old(backEdges)
    {
      for i := 0 to |edges[a]|
        invariant b !in edges[a][..i]
        modifies {}
      {
        if edges[a][i] == b {
          return false;
        }
      }
      edges := edges[a := edges[a] + [b]];
      backEdges := backEdges[b := backEdges[b] + [a]];
      return true;
    }

    lemma ShapedIsClosed(g: Graph)
      requires Shaped(g)
      ensures forall a, b :: Has(g.succ, a, b) ==> b in g.succ
    {
      forall a, b | Has(g.succ, a, b)
        ensures b in g.succ
      {
        assert Has(g.pred, b, a);
      }
    }

    /** Adds the edge unless there is one, and checks whether it closes a cycle. */
    method AddChecked(a: Key, b: Key) returns (added: bool)
      requires Shaped(Abs()) && a in edges && b in edges
      modifies this`edges, this`backEdges, this`rollbackvector, this`hasCycles
      ensures added <==> b !in old(edges)[a]
      ensures Abs() == if added then CheckedLink(old(Abs()), a, b) else old(Abs())
    {
      ghost var g := Abs();
      added := NodeAddEdge(a, b);
      if added {
        rollbackvector := rollbackvector + [a];
        assert Abs() == Link(g, a, b);
        LinkShaped(g, a, b);
        ShapedIsClosed(Abs());
        hide Shaped, Reach;
        if !hasCycles {
          hasCycles := CheckReachable(b, a);
        }
      }
    }

    method AddNodeEdge(fromnode: Key, tonode: Key) returns (isNew: bool)
      requires Shaped(Abs()) && WellFounded(hasRMW) && fromnode in edges && tonode in edges
      modifies this`edges, this`backEdges, this`rollbackvector, this`hasCycles
      ensures isNew <==> tonode !in old(edges)[fromnode]
      ensures Abs() == CycleGraphSpec.AddNodeEdge(old(Abs()), fromnode, tonode)
    {
      hide Shaped, WellFounded, CheckedLink, ExtendChain;
      ghost var g := Abs();
      isNew := AddChecked(fromnode, tonode);
      if isNew {
        CheckedLinkShaped(g, fromnode, tonode);
        FollowChain(fromnode, tonode);
      }
    }

    /** The end of the RMW chain of `n`, or `to` if the chain holds it. */
    method EndOfChain(n: Key, to: Key) returns (rmwnode: Key)
      requires WellFounded(hasRMW) && n in hasRMW
      ensures rmwnode == ChainEnd(hasRMW, hasRMW[n], to)
    {
      rmwnode := hasRMW[n];
      while rmwnode != to && rmwnode in hasRMW
        invariant ChainEnd(hasRMW, rmwnode, to) == ChainEnd(hasRMW, hasRMW[n], to)
        decreases Height(hasRMW, rmwnode)
      {
        HeightDrops(hasRMW, rmwnode);
        rmwnode := hasRMW[rmwnode];
      }
    }

    /** Repeats the edge at the end of the RMW chain of `fromnode`, unless the chain holds `tonode`. */
    method FollowChain(fromnode: Key, tonode: Key)
      requires Shaped(Abs()) && WellFounded(hasRMW) && fromnode in edges && tonode in edges
      modifies this`edges, this`backEdges, this`rollbackvector, this`hasCycles
      ensures Abs() == ExtendChain(old(Abs()), fromnode, tonode)
    {
      hide WellFounded, CheckedLink, ChainEnd;
      if fromnode in hasRMW {
        RMWIsNode(Abs(), fromnode);
        hide Shaped;
        var rmwnode := EndOfChain(fromnode, tonode);
        ChainEndIsNode(Abs(), hasRMW[fromnode], tonode);
        if rmwnode != tonode {
          var _ := AddChecked(rmwnode, tonode);
        }
      }
    }

    lemma RMWIsNode(g: Graph, n: Key)
      requires Shaped(g) && n in g.rmw
      ensures g.rmw[n] in g.succ
    {
    }

    /** `to` must come after `from`. */
    method AddEdge(from: Key, to: Key) returns (isNew: bool)
      requires Valid()
      modifies this
      ensures Valid() && base == old(base) && (old(Truthful()) ==> Truthful())
      ensures Abs() == CycleGraphSpec.AddEdge(old(Abs()), from, to)
      ensures isNew <==> (from, to) !in old(Edges(Abs()))
    {
      ghost var h := History(Abs(), base);
      hide Lawful, FlagExact;
      LawfulParts(h);
      StepLawful(h, AskEdge(from, to));
      if FlagExact(h) {
        StepExact(h, AskEdge(from, to));
      }
      isNew := PlaceEdge(from, to);
    }

    method PlaceEdge(from: Key, to: Key) returns (isNew: bool)
      requires Shaped(Abs()) && WellFounded(hasRMW)
      modifies this`edges, this`backEdges, this`rollbackvector, this`hasCycles, this`asked
      ensures Abs() == CycleGraphSpec.AddEdge(old(Abs()), from, to)
      ensures isNew <==> (from, to) !in old(Edges(Abs()))
    {
      EdgesHave(Abs(), from, to);
      hide Shaped, WellFounded, CycleGraphSpec.AddNodeEdge;
      EnsureNodesShaped(Abs(), from, to);
      GetNode(from);
      GetNode(to);
      isNew := AddNodeEdge(from, to);
      asked := asked.(order := asked.order + {(from, to)});
    }

    /** `rmw` reads from `from`, and nothing may come between them. */
    method AddRMWEdge(from: Key, rmw: Key)
      requires Valid() && FreshReader(Abs(), from, rmw)
      modifies this
      ensures Valid() && base == old(base)
      ensures old(Truthful()) ==> (Truthful() <==> KeepsExact(old(Abs()), from, rmw))
      ensures Abs() == CycleGraphSpec.AddRMWEdge(old(Abs()), from, rmw)
    {
      ghost var h := History(Abs(), base);
      hide Lawful, FlagExact, FreshReader, KeepsExact;
      LawfulParts(h);
      FreshParts(h.now, from, rmw);
      StepLawful(h, AskRMW(from, rmw));
      if FlagExact(h) {
        StepExact(h, AskRMW(from, rmw));
      }
      PlaceRMW(from, rmw);
    }

    method PlaceRMW(from: Key, rmw: Key)
      requires Shaped(Abs()) && WellFounded(hasRMW) && from != rmw && rmw !in hasRMW
      modifies this
      ensures base == old(base)
      ensures Abs() == CycleGraphSpec.AddRMWEdge(old(Abs()), from, rmw)
    {
      hide Shaped, WellFounded, Transferred, CycleGraphSpec.AddNodeEdge;
      TransferredEdges(Abs(), from, rmw);
      AttachAndTransfer(from, rmw);
      var _ := AddNodeEdge(from, rmw);
      asked := asked.(atomic := asked.atomic + {(from, rmw)});
    }

    method AttachAndTransfer(from: Key, rmw: Key)
      requires Shaped(Abs()) && WellFounded(hasRMW) && from != rmw && rmw !in hasRMW
      modifies this`edges, this`backEdges, this`rollbackvector, this`hasCycles, this`hasRMW, this`rmwrollbackvector
      ensures Abs() == Transferred(old(Abs()), from, rmw)
    {
      EnsureNodesShaped(Abs(), from, rmw);
      GetNode(from);
      GetNode(rmw);
      AttachShaped(Abs(), from, rmw);
      SetRMW(from, rmw);
      SuccessorsAreNodes(Abs(), from);
      TransferEdges(from, rmw);
    }

    /** Two RMWs cannot read from the same store. */
    method SetRMW(from: Key, rmw: Key)
      modifies this`hasCycles, this`hasRMW, this`rmwrollbackvector
      ensures Abs() == AttachRMW(old(Abs()), from, rmw)
    {
      if from in hasRMW {
        hasCycles := true;
      } else {
        hasRMW := hasRMW[from := rmw];
        rmwrollbackvector := rmwrollbackvector + [from];
      }
    }

    /** Gives the successors of `from` to `rmw` as well. */
    method TransferEdges(from: Key, rmw: Key)
      requires Shaped(Abs()) && from in edges && rmw in edges && from != rmw
      requires forall t :: t in edges[from] ==> t in edges
      modifies this`edges, this`backEdges, this`rollbackvector
      ensures Abs() == Transfer(old(Abs()), old(edges)[from], rmw)
    {
      ghost var g := Abs();
      ghost var targets := edges[from];
      var i := 0;
      while i < |edges[from]|
        invariant 0 <= i <= |targets|
        invariant Shaped(Abs()) && edges.Keys == g.succ.Keys && edges[from] == targets
        invariant Transfer(Abs(), targets[i..], rmw) == Transfer(g, targets, rmw)
        decreases |targets| - i
      {
        var tonode := edges[from][i];
        assert targets[i..][0] == tonode && targets[i..][1..] == targets[i + 1..];
        if tonode != rmw {
          PassOn(rmw, tonode);
        }
        i := i + 1;
      }
    }

    method PassOn(rmw: Key, tonode: Key)
      requires Shaped(Abs()) && rmw in edges && tonode in edges
      modifies this`edges, this`backEdges, this`rollbackvector
      ensures Shaped(Abs()) && edges.Keys == old(edges.Keys)
      ensures Abs() == if tonode in old(edges)[rmw] then old(Abs()) else Link(old(Abs()), rmw, tonode)
    {
      ghost var before := Abs();
      var added := NodeAddEdge(rmw, tonode);
      if added {
        LinkShaped(before, rmw, tonode);
        rollbackvector := rollbackvector + [rmw];
      }
    }

    /** A new transaction begins only after the last one was committed or rolled back. */
    predicate CanStart()
      reads this
    {
      rollbackvector == [] && rmwrollbackvector == [] && oldCycles == hasCycles
    }

    method CommitChanges()
      requires Valid()
      modifies this
      ensures Valid() && CanStart() && base == Abs() && (old(Truthful()) ==> Truthful())
      ensures Abs() == CycleGraphRuns.CommitChanges(old(Abs()))
    {
      CommitLawful(History(Abs(), base));
      rollbackvector, rmwrollbackvector := [], [];
      oldCycles := hasCycles;
      base := Abs();
    }

    /** Pops the newest edge of `a`, and the back edge that mirrors it. */
    method RemoveEdge(a: Key)
      requires a in edges
      modifies this`edges, this`backEdges
      ensures Abs() == CycleGraphRuns.RemoveEdge(old(Abs()), a)
    {
      if edges[a] == [] {
        return;
      }
      var ret := edges[a][|edges[a]| - 1];
      edges := edges[a := edges[a][..|edges[a]| - 1]];
      if ret in backEdges {
        var shorter := VectorRemove(backEdges[ret], a);
        backEdges := backEdges[ret := shorter];
      }
    }

    /** Every node is again as it was at the last commit; nodes made since stay, isolated. */
    method RollbackChanges()
      requires Valid()
      modifies this
      ensures Valid() && CanStart() && base == Abs() && (Exact(old(base)) ==> Truthful())
      ensures Abs() == Padded(old(base), old(edges.Keys))
    {
      ghost var h := History(Abs(), base);
      RollbackLawful(h);
      Replay();
      base := Abs();
      assert Step(h, Rollback) == History(Abs(), base);
    }

    method Replay()
      requires forall k :: k in rollbackvector ==> k in edges
      modifies this
      ensures base == old(base)
      ensures Abs() == CycleGraphRuns.RollbackChanges(old(Abs()), base.asked)
    {
      ReplayEdges();
      ReplayRMWs();
      hasCycles := oldCycles;
      rollbackvector, rmwrollbackvector := [], [];
      asked := base.asked;
    }

    method ReplayEdges()
      requires forall k :: k in rollbackvector ==> k in edges
      modifies this`edges, this`backEdges
      ensures Abs() == UndoEdges(old(Abs()), rollbackvector)
    {
      ghost var g := Abs();
      for i := 0 to |rollbackvector|
        invariant forall k :: k in rollbackvector ==> k in edges
        invariant UndoEdges(Abs(), rollbackvector[i..]) == UndoEdges(g, rollbackvector)
      {
        assert rollbackvector[i..][0] == rollbackvector[i] && rollbackvector[i..][1..] == rollbackvector[i + 1..];
        RemoveEdge(rollbackvector[i]);
      }
    }

    method ReplayRMWs()
      modifies this`hasRMW
      ensures hasRMW == UndoRMWs(old(hasRMW), rmwrollbackvector)
    {
      for i := 0 to |rmwrollbackvector|
        invariant UndoRMWs(hasRMW, rmwrollbackvector[i..]) == UndoRMWs(old(hasRMW), rmwrollbackvector)
      {
        assert rmwrollbackvector[i..][1..] == rmwrollbackvector[i + 1..];
        hasRMW := hasRMW - {rmwrollbackvector[i]};
      }
    }

    /** The flag tells whether the requests can still be met by a modification order. */
    method CheckForCycles() returns (cycles: bool)
      requires Valid()
      ensures Truthful() ==> (cycles <==> !exists ord :: ModificationOrder(ord, Abs()))
    {
      if Truthful() {
        FlagDownIffOrderExists(Abs());
      }
      return hasCycles;
    }
  }

  lemma RemoveFirstStep(v: seq<Key>, i: nat, n: Key)
    requires i < |v|
    ensures RemoveFirst(v[i..], n) == if v[i] == n then v[i + 1..] else [v[i]] + RemoveFirst(v[i + 1..], n)
  {
    assert v[i..][1..] == v[i + 1..];
  }

  lemma RemoveFirstNone(n: Key)
    ensures RemoveFirst([], n) == []
  {
  }

  /** `v` without its first `n`. */
  method VectorRemove(v: seq<Key>, n: Key) returns (shorter: seq<Key>)
    ensures shorter == RemoveFirst(v, n)
  {
    hide RemoveFirst;
    for i := 0 to |v|
      invariant RemoveFirst(v, n) == v[..i] + RemoveFirst(v[i..], n)
    {
      RemoveFirstStep(v, i, n);
      if v[i] == n {
        return v[..i] + v[i + 1..];
      }
      assert v[..i + 1] == v[..i] + [v[i]];
    }
    RemoveFirstNone(n);
    assert v[..|v|] == v && v[|v|..] == [];
    return v;
  }
}
