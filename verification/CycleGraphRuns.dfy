/**
 * Runs of the cycle graph: transactions of added edges that are committed or
 * rolled back, and what holds after each of them.
 */
module CycleGraphRuns {
  import opened Collections
  import opened Digraph
  import opened LinearOrders
  import opened CycleGraphSpec

  // ---------------------------------------------------------------- rollback

  /** Pops the newest edge of `a`, and with it the back edge. */
  function RemoveEdge(g: Graph, a: Key): Graph
    requires a in g.succ
  {
    var out := g.succ[a];
    if out == [] then g else
    var b := out[|out| - 1];
    g.(succ := g.succ[a := out[..|out| - 1]],
       pred := if b in g.pred then g.pred[b := RemoveFirst(g.pred[b], a)] else g.pred)
  }

  lemma RemoveEdgeKeys(g: Graph, a: Key)
    requires a in g.succ
    ensures RemoveEdge(g, a).succ.Keys == g.succ.Keys
    ensures RemoveEdge(g, a).pred.Keys == g.pred.Keys
  {
  }

  /** The rollback vector, replayed front to back. */
  function UndoEdges(g: Graph, nodes: seq<Key>): Graph
    requires forall k :: k in nodes ==> k in g.succ
    decreases |nodes|
  {
    if nodes == [] then g else
    RemoveEdgeKeys(g, nodes[0]);
    UndoEdges(RemoveEdge(g, nodes[0]), nodes[1..])
  }

  function UndoRMWs(rmw: map<Key, Key>, nodes: seq<Key>): map<Key, Key> {
    if nodes == [] then rmw else UndoRMWs(rmw - {nodes[0]}, nodes[1..])
  }

  /** rollbackChanges; `asked` are the requests that the caller no longer stands by. */
  function RollbackChanges(g: Graph, asked: Requests): Graph
    requires forall k :: k in g.rollback ==> k in g.succ
  {
    var g' := UndoEdges(g, g.rollback);
    g'.(rmw := UndoRMWs(g.rmw, g.rmwRollback), hasCycles := g.oldCycles, rollback := [], rmwRollback := [],
      asked := asked)
  }

  function CommitChanges(g: Graph): Graph {
    g.(rollback := [], rmwRollback := [], oldCycles := g.hasCycles)
  }

  function At(m: map<Key, seq<Key>>, k: Key): seq<Key> {
    if k in m then m[k] else []
  }

  /** The graph `base` among more nodes, the new ones isolated. */
  function Padded(base: Graph, nodes: set<Key>): Graph {
    base.(succ := map k | k in nodes :: At(base.succ, k), pred := map k | k in nodes :: At(base.pred, k))
  }

  ghost predicate Settled(base: Graph) {
    base.rollback == [] && base.rmwRollback == [] && base.oldCycles == base.hasCycles
  }

  /** The vectors of `base` are prefixes of today's; `nodes` counts the edges each node gained since. */
  ghost predicate EdgesSince(g: Graph, base: Graph, nodes: seq<Key>) {
    && base.succ.Keys <= g.succ.Keys
    && (forall k :: k in nodes ==> k in g.succ)
    && SuccSince(g.succ, base.succ, nodes)
    && PredSince(g.pred, base.pred)
  }

  ghost predicate SuccSince(succ: map<Key, seq<Key>>, base: map<Key, seq<Key>>, nodes: seq<Key>) {
    forall k :: k in succ ==> At(base, k) <= succ[k] && |succ[k]| == |At(base, k)| + multiset(nodes)[k]
  }

  ghost predicate PredSince(pred: map<Key, seq<Key>>, base: map<Key, seq<Key>>) {
    forall k :: k in pred ==> At(base, k) <= pred[k]
  }

  ghost predicate RMWsSince(rmw: map<Key, Key>, base: map<Key, Key>, nodes: seq<Key>) {
    && Distinct(nodes)
    && (forall w :: w in rmw <==> w in base || w in nodes)
    && (forall w :: w in base ==> w !in nodes && w in rmw && rmw[w] == base[w])
  }

  /** `g` came from `base` by additions that the rollback vectors remember. */
  ghost predicate Extends(g: Graph, base: Graph) {
    && g.oldCycles == base.hasCycles
    && EdgesSince(g, base, g.rollback)
    && RMWsSince(g.rmw, base.rmw, g.rmwRollback)
  }

  lemma {:induction false} RemoveFirstFrom(s: seq<Key>, x: Key, prefix: seq<Key>, y: Key)
    requires Distinct(s) && prefix <= s && x !in prefix && x in s
    ensures prefix <= RemoveFirst(s, x)
    ensures Distinct(RemoveFirst(s, x))
    ensures y in RemoveFirst(s, x) <==> y in s && y != x
  {
    if s[0] == x {
      assert prefix == [];
    } else {
      assert Distinct(s[1..]);
      var rest := if prefix == [] then [] else prefix[1..];
      assert x in s[1..];
      RemoveFirstFrom(s[1..], x, rest, y);
      RemoveFirstFrom(s[1..], x, [], s[0]);
      var shorter := RemoveFirst(s[1..], x);
      assert s[0] !in shorter;
      assert Distinct([s[0]] + shorter);
    }
  }

  lemma NewEdgeIsNew(g: Graph, base: Graph, nodes: seq<Key>, a: Key)
    requires Shaped(g) && Shaped(base) && EdgesSince(g, base, nodes) && a in nodes
    ensures |g.succ[a]| > 0
    ensures var b := g.succ[a][|g.succ[a]| - 1];
            b in g.pred && a in g.pred[b] && a !in At(base.pred, b) && !Has(base.succ, a, b)
  {
    assert multiset(nodes)[a] > 0;
    var out := g.succ[a];
    var b := out[|out| - 1];
    assert Has(g.succ, a, b);
    assert Has(g.pred, b, a);
    assert Distinct(out);
    assert b !in At(base.succ, a);
    assert !Has(base.succ, a, b);
    assert !Has(base.pred, b, a);
  }

  lemma RemoveEdgeShaped(g: Graph, base: Graph, nodes: seq<Key>, a: Key)
    requires Shaped(g) && Shaped(base) && EdgesSince(g, base, nodes) && a in nodes
    ensures Shaped(RemoveEdge(g, a))
  {
    NewEdgeIsNew(g, base, nodes, a);
    var out := g.succ[a];
    var b := out[|out| - 1];
    var g' := RemoveEdge(g, a);
    assert Distinct(out);
    RemoveFirstFrom(g.pred[b], a, [], a);
    assert Simple(g'.succ);
    assert Simple(g'.pred);
    forall x, y
      ensures Has(g'.succ, x, y) <==> Has(g'.pred, y, x)
    {
      assert Has(g.succ, x, y) <==> Has(g.pred, y, x);
      RemoveFirstFrom(g.pred[b], a, [], x);
      assert y in out[..|out| - 1] <==> y in out && y != b;
    }
  }

  lemma RemoveEdgeSince(g: Graph, base: Graph, nodes: seq<Key>)
    requires Shaped(g) && Shaped(base) && EdgesSince(g, base, nodes) && nodes != []
    ensures EdgesSince(RemoveEdge(g, nodes[0]), base, nodes[1..])
  {
    NewEdgeIsNew(g, base, nodes, nodes[0]);
    PopSince(g.succ, base.succ, nodes);
    var out := g.succ[nodes[0]];
    DropSince(g.pred, base.pred, out[|out| - 1], nodes[0]);
  }

  /** The backward half. */
  lemma DropSince(pred: map<Key, seq<Key>>, base: map<Key, seq<Key>>, b: Key, a: Key)
    requires PredSince(pred, base) && Simple(pred) && b in pred && a in pred[b] && a !in At(base, b)
    ensures PredSince(pred[b := RemoveFirst(pred[b], a)], base)
  {
    RemoveFirstFrom(pred[b], a, At(base, b), a);
  }

  /** The forward half of RemoveEdgeSince. */
  lemma PopSince(succ: map<Key, seq<Key>>, base: map<Key, seq<Key>>, nodes: seq<Key>)
    requires nodes != [] && nodes[0] in succ && |succ[nodes[0]]| > 0 && SuccSince(succ, base, nodes)
    ensures SuccSince(succ[nodes[0] := succ[nodes[0]][..|succ[nodes[0]]| - 1]], base, nodes[1..])
  {
    assert nodes == [nodes[0]] + nodes[1..];
  }

  lemma {:induction false} UndoEdgesRestores(g: Graph, base: Graph, nodes: seq<Key>)
    requires Shaped(g) && Shaped(base) && EdgesSince(g, base, nodes)
    ensures var g' := UndoEdges(g, nodes);
            Shaped(g') && EdgesSince(g', base, []) && g'.succ.Keys == g.succ.Keys
    ensures UndoEdges(g, nodes) == g.(succ := UndoEdges(g, nodes).succ, pred := UndoEdges(g, nodes).pred)
    decreases |nodes|
  {
    if nodes != [] {
      RemoveEdgeShaped(g, base, nodes, nodes[0]);
      RemoveEdgeSince(g, base, nodes);
      RemoveEdgeKeys(g, nodes[0]);
      UndoEdgesRestores(RemoveEdge(g, nodes[0]), base, nodes[1..]);
    }
  }

  lemma BeyondPrefix(s: seq<Key>, t: seq<Key>)
    requires s < t && Distinct(t)
    ensures t[|s|] in t && t[|s|] !in s
  {
  }

  /** No duplicates, a common prefix and the same elements: the same vector. */
  lemma PrefixWithSameElements(s: seq<Key>, t: seq<Key>)
    requires s <= t && Distinct(t) && forall x :: x in t ==> x in s
    ensures s == t
  {
    if s < t {
      BeyondPrefix(s, t);
    }
  }

  lemma NothingLeftOver(g: Graph, base: Graph)
    requires Shaped(g) && Shaped(base) && EdgesSince(g, base, [])
    ensures g.succ == Padded(base, g.succ.Keys).succ
    ensures g.pred == Padded(base, g.succ.Keys).pred
  {
    forall k | k in g.succ
      ensures g.succ[k] == At(base.succ, k)
    {
      assert |g.succ[k]| == |At(base.succ, k)|;
    }
    forall k | k in g.pred
      ensures g.pred[k] == At(base.pred, k)
    {
      forall x | x in g.pred[k]
        ensures x in At(base.pred, k)
      {
        assert Has(g.pred, k, x);
        assert Has(g.succ, x, k);
        assert Has(base.succ, x, k);
        assert Has(base.pred, k, x);
      }
      PrefixWithSameElements(At(base.pred, k), g.pred[k]);
    }
  }

  lemma {:induction false} UndoRMWsRestores(rmw: map<Key, Key>, base: map<Key, Key>, nodes: seq<Key>)
    requires RMWsSince(rmw, base, nodes)
    ensures UndoRMWs(rmw, nodes) == base
    decreases |nodes|
  {
    if nodes != [] {
      var rest := nodes[1..];
      assert nodes[0] !in rest;
      assert forall w :: w in nodes <==> w == nodes[0] || w in rest;
      UndoRMWsRestores(rmw - {nodes[0]}, base, rest);
    } else {
      assert rmw.Keys == base.Keys;
    }
  }

  /** A rollback gives back the graph of the last commit, with the nodes made since left isolated. */
  lemma RollbackRestores(g: Graph, base: Graph)
    requires Shaped(g) && Shaped(base) && Settled(base) && Extends(g, base)
    ensures RollbackChanges(g, base.asked) == Padded(base, g.succ.Keys)
  {
    UndoEdgesRestores(g, base, g.rollback);
    NothingLeftOver(UndoEdges(g, g.rollback), base);
    UndoRMWsRestores(g.rmw, base.rmw, g.rmwRollback);
  }

  // ---------------------------------------------------------------- additions are remembered

  lemma EnsureNodeExtends(g: Graph, base: Graph, k: Key)
    requires Shaped(g) && Shaped(base) && Extends(g, base)
    ensures Extends(EnsureNode(g, k), base)
  {
    if k !in g.succ {
      assert multiset(g.rollback)[k] == 0;
    }
  }

  lemma LinkExtends(g: Graph, base: Graph, a: Key, b: Key)
    requires Shaped(g) && Extends(g, base) && a in g.succ && b in g.succ
    ensures Extends(Link(g, a, b), base)
  {
  }

  lemma AddNodeEdgeExtends(g: Graph, base: Graph, a: Key, b: Key)
    requires Shaped(g) && WellFounded(g.rmw) && Extends(g, base) && a in g.succ && b in g.succ
    ensures Extends(AddNodeEdge(g, a, b), base)
  {
    if b !in g.succ[a] {
      LinkExtends(g, base, a, b);
      CheckedLinkShaped(g, a, b);
      var g1 := CheckedLink(g, a, b);
      ExtendChainExtends(g1, base, a, b);
    }
  }

  lemma ExtendChainExtends(g: Graph, base: Graph, a: Key, b: Key)
    requires Shaped(g) && WellFounded(g.rmw) && Extends(g, base) && b in g.succ
    ensures Extends(ExtendChain(g, a, b), base)
  {
    if a in g.rmw {
      ChainEndIsNode(g, g.rmw[a], b);
      LinkExtends(g, base, ChainEnd(g.rmw, g.rmw[a], b), b);
    }
  }

  lemma {:induction false} TransferExtends(g: Graph, base: Graph, targets: seq<Key>, r: Key)
    requires Shaped(g) && Extends(g, base) && r in g.succ && forall t :: t in targets ==> t in g.succ
    ensures Extends(Transfer(g, targets, r), base)
    decreases |targets|
  {
    if targets != [] {
      var t := targets[0];
      if t == r || t in g.succ[r] {
        TransferExtends(g, base, targets[1..], r);
      } else {
        LinkShaped(g, r, t);
        LinkExtends(g, base, r, t);
        TransferExtends(Link(g, r, t), base, targets[1..], r);
      }
    }
  }

  lemma AttachExtends(g: Graph, base: Graph, w: Key, r: Key)
    requires Extends(g, base)
    ensures Extends(AttachRMW(g, w, r), base)
  {
    if w !in g.rmw {
      assert w !in g.rmwRollback;
      assert Distinct(g.rmwRollback + [w]);
    }
  }

  lemma AddEdgeExtends(g: Graph, base: Graph, a: Key, b: Key)
    requires Shaped(g) && Shaped(base) && WellFounded(g.rmw) && Extends(g, base)
    ensures Extends(AddEdge(g, a, b), base)
  {
    EnsureNodeExtends(g, base, a);
    EnsureNodeShaped(g, a);
    EnsureNodeExtends(EnsureNode(g, a), base, b);
    EnsureNodesShaped(g, a, b);
    AddNodeEdgeExtends(EnsureNodes(g, a, b), base, a, b);
  }

  lemma TransferredExtends(g: Graph, base: Graph, w: Key, r: Key)
    requires Shaped(g) && Shaped(base) && WellFounded(g.rmw) && Extends(g, base) && w != r && r !in g.rmw
    ensures Extends(Transferred(g, w, r), base)
  {
    EnsureNodeExtends(g, base, w);
    EnsureNodeShaped(g, w);
    EnsureNodeExtends(EnsureNode(g, w), base, r);
    EnsureNodesShaped(g, w, r);
    var g0 := EnsureNodes(g, w, r);
    AttachShaped(g0, w, r);
    AttachExtends(g0, base, w, r);
    var g1 := AttachRMW(g0, w, r);
    SuccessorsAreNodes(g1, w);
    TransferExtends(g1, base, g1.succ[w], r);
  }

  lemma AddRMWEdgeExtends(g: Graph, base: Graph, w: Key, r: Key)
    requires Shaped(g) && Shaped(base) && WellFounded(g.rmw) && Extends(g, base) && w != r && r !in g.rmw
    ensures Extends(AddRMWEdge(g, w, r), base)
  {
    TransferredExtends(g, base, w, r);
    TransferredEdges(g, w, r);
    AddNodeEdgeExtends(Transferred(g, w, r), base, w, r);
  }

  lemma PaddedSound(base: Graph, nodes: set<Key>)
    requires Sound(base) && base.succ.Keys <= nodes
    ensures Sound(Padded(base, nodes)) && Edges(Padded(base, nodes)) == Edges(base)
  {
    var g := Padded(base, nodes);
    forall a, b
      ensures Has(g.succ, a, b) <==> Has(base.succ, a, b)
      ensures Has(g.pred, a, b) <==> Has(base.pred, a, b)
    {
    }
    forall a, b
      ensures (a, b) in Edges(g) <==> (a, b) in Edges(base)
    {
      EdgesHave(g, a, b);
      EdgesHave(base, a, b);
    }
    assert Edges(g) == Edges(base);
  }

  // ---------------------------------------------------------------- runs

  datatype Op =
    | AskEdge(a: Key, b: Key)
    | AskRMW(w: Key, r: Key)
    | Commit
    | Rollback

  /** The graph now, and as it was at the last commit or rollback. */
  datatype History = History(now: Graph, base: Graph)

  const START := History(EMPTY, EMPTY)

  ghost predicate Lawful(h: History) {
    && Sound(h.now)
    && Sound(h.base)
    && Settled(h.base)
    && Extends(h.now, h.base)
  }

  /** The flag is exact, and will be after a rollback. */
  ghost predicate FlagExact(h: History) {
    Exact(h.now) && Exact(h.base)
  }

  /** When an operation may be called: addRMWEdge needs a fresh reader. */
  ghost predicate Enabled(g: Graph, op: Op) {
    op.AskRMW? ==> FreshReader(g, op.w, op.r)
  }

  ghost function Step(h: History, op: Op): History
    requires Lawful(h) && Enabled(h.now, op)
  {
    match op
    case AskEdge(a, b) => h.(now := AddEdge(h.now, a, b))
    case AskRMW(w, r) => h.(now := AddRMWEdge(h.now, w, r))
    case Commit => var g := CommitChanges(h.now); History(g, g)
    case Rollback => var g := RollbackChanges(h.now, h.base.asked); History(g, g)
  }

  /** Soundness does not depend on the flags and the rollback vectors. */
  lemma VectorsDoNotMatter(g: Graph, g': Graph)
    requires Sound(g) && g'.succ == g.succ && g'.pred == g.pred && g'.rmw == g.rmw && g'.asked == g.asked
    ensures Sound(g') && Edges(g') == Edges(g)
  {
  }

  lemma ExtendsItself(g: Graph)
    requires Settled(g) && g.succ.Keys == g.pred.Keys
    ensures Extends(g, g)
  {
  }

  lemma CommitLawful(h: History)
    requires Lawful(h)
    ensures Lawful(Step(h, Commit)) && (Exact(h.now) ==> FlagExact(Step(h, Commit)))
  {
    var g := CommitChanges(h.now);
    VectorsDoNotMatter(h.now, g);
    ExtendsItself(g);
  }

  lemma RollbackLawful(h: History)
    requires Lawful(h)
    ensures Lawful(Step(h, Rollback)) && (Exact(h.base) ==> FlagExact(Step(h, Rollback)))
    ensures Step(h, Rollback).now == Padded(h.base, h.now.succ.Keys)
  {
    RollbackRestores(h.now, h.base);
    PaddedSound(h.base, h.now.succ.Keys);
  }

  lemma StepLawful(h: History, op: Op)
    requires Lawful(h) && Enabled(h.now, op)
    ensures Lawful(Step(h, op))
  {
    hide Sound, Extends, Settled;
    SoundIsShaped(h.now);
    SoundIsShaped(h.base);
    match op
    case AskEdge(a, b) =>
      AddEdgeSound(h.now, a, b);
      AddEdgeExtends(h.now, h.base, a, b);
    case AskRMW(w, r) =>
      AddRMWEdgeSound(h.now, w, r);
      AddRMWEdgeExtends(h.now, h.base, w, r);
    case Commit => CommitLawful(h);
    case Rollback => RollbackLawful(h);
  }

  lemma LawfulParts(h: History)
    requires Lawful(h)
    ensures Shaped(h.now) && WellFounded(h.now.rmw)
  {
  }

  lemma FreshParts(g: Graph, w: Key, r: Key)
    requires FreshReader(g, w, r)
    ensures w != r && r !in g.rmw
  {
  }

  lemma SoundIsShaped(g: Graph)
    requires Sound(g)
    ensures Shaped(g) && WellFounded(g.rmw)
  {
  }

  /** The flag stays exact under all operations, for addRMWEdge exactly if the transfer is safe or the flag raised. */
  lemma StepExact(h: History, op: Op)
    requires Lawful(h) && Enabled(h.now, op) && FlagExact(h)
    ensures FlagExact(Step(h, op)) <==> (op.AskRMW? ==> KeepsExact(h.now, op.w, op.r))
  {
    hide Sound, Extends, Settled, Exact;
    match op
    case AskEdge(a, b) => AddEdgeConsistent(h.now, a, b);
    case AskRMW(w, r) => FlagExactIffTransferSafe(h.now, w, r);
    case Commit => CommitLawful(h);
    case Rollback => RollbackLawful(h);
  }

  lemma StartLawful()
    ensures Lawful(START) && FlagExact(START)
  {
    assert RankedBy(EMPTY.rmw, map[]);
    assert Edges(EMPTY) == {};
  }

  datatype Outcome = Refused | After(h: History)

  /** What a run leaves behind, unless it calls an operation that is not enabled. */
  ghost function Run(ops: seq<Op>): (out: Outcome)
    ensures out.After? ==> Lawful(out.h)
    decreases |ops|
  {
    if ops == [] then
      StartLawful();
      After(START)
    else
      var before := Run(ops[..|ops| - 1]);
      var op := ops[|ops| - 1];
      if before.Refused? || !Enabled(before.h.now, op) then Refused else
      StepLawful(before.h, op);
      After(Step(before.h, op))
  }

  /** Each addRMWEdge of the run is safe, or comes when the flag is raised or is about to be. */
  ghost predicate AllSafe(ops: seq<Op>)
    requires Run(ops).After?
  {
    ops != [] ==>
      var before, op := ops[..|ops| - 1], ops[|ops| - 1];
      AllSafe(before) && (op.AskRMW? ==> KeepsExact(Run(before).h.now, op.w, op.r))
  }

  lemma {:induction false} SafeRunExact(ops: seq<Op>)
    requires Run(ops).After? && AllSafe(ops)
    ensures FlagExact(Run(ops).h)
  {
    hide Lawful, Exact, KeepsExact, Enabled, Step;
    if ops == [] {
      StartLawful();
    } else {
      SafeRunExact(ops[..|ops| - 1]);
      StepExact(Run(ops[..|ops| - 1]).h, ops[|ops| - 1]);
    }
  }

  /** After every run of safe operations the flag is exact, and it is down exactly when a modification order exists. */
  lemma EveryRunExact(ops: seq<Op>)
    requires Run(ops).After? && AllSafe(ops)
    ensures var g := Run(ops).h.now;
            && (g.hasCycles <==> Cyclic(Edges(g)) || TwoReaders(g.asked.atomic))
            && (!g.hasCycles <==> exists ord :: ModificationOrder(ord, g))
  {
    SafeRunExact(ops);
    FlagDownIffOrderExists(Run(ops).h.now);
  }

  /** Unsafe operations or not: in every run, what follows a store follows the RMW that reads it. */
  lemma NothingBetweenInRuns(ops: seq<Op>, w: Key, x: Key)
    requires Run(ops).After? && w in Run(ops).h.now.rmw && x != w && Reach(Edges(Run(ops).h.now), w, x)
    ensures var g := Run(ops).h.now;
      && Reach(Edges(g), g.rmw[w], x)
      && (!Cyclic(Edges(g)) && x != g.rmw[w] ==> !Reach(Edges(g), x, g.rmw[w]))
  {
    hide Sound, Edges, Reach, Cyclic, Run, Extends, Settled;
    NothingBetween(Run(ops).h.now, w, x);
  }

  lemma RunStep(ops: seq<Op>, op: Op)
    requires Run(ops).After? && Enabled(Run(ops).h.now, op)
    ensures Run(ops + [op]) == After(Step(Run(ops).h, op))
  {
    assert (ops + [op])[..|ops|] == ops;
  }

  /** The first unsafe operation of a run makes the flag wrong. */
  lemma UnsafeStepInexact(ops: seq<Op>, w: Key, r: Key)
    requires Run(ops).After? && AllSafe(ops) && Enabled(Run(ops).h.now, AskRMW(w, r)) &&
      !KeepsExact(Run(ops).h.now, w, r)
    ensures Run(ops + [AskRMW(w, r)]).After?
    ensures var g := Run(ops + [AskRMW(w, r)]).h.now; !g.hasCycles && Cyclic(Edges(g))
  {
    hide Run, Sound, Exact, Extends, Settled, AddRMWEdge, TransferSafe, Cyclic, Edges;
    SafeRunExact(ops);
    RunStep(ops, AskRMW(w, r));
    IsConsistent(Run(ops).h.now);
    MissedCycle(Run(ops).h.now, w, r);
  }

  // ---------------------------------------------------------------- a cycle that the flag misses

  const W := Action(0)
  const T := Action(1)
  const R := Action(2)

  lemma AddEdgeAlone(g: Graph, a: Key, b: Key)
    requires Sound(g) && g.rmw == map[]
    ensures Edges(AddEdge(g, a, b)) == Edges(g) + {(a, b)} && AddEdge(g, a, b).rmw == map[]
    ensures AddEdge(g, a, b).asked.atomic == g.asked.atomic
  {
    EnsureNodesShaped(g, a, b);
    AddNodeEdgeEdges(EnsureNodes(g, a, b), a, b);
  }

  /** The graph after two requests, by which `W` comes before `T` and `T` before `R`. */
  lemma TwoEdges() returns (g: Graph)
    ensures Run([AskEdge(W, T)]).After? && Run([AskEdge(W, T), AskEdge(T, R)]).After?
    ensures g == Run([AskEdge(W, T), AskEdge(T, R)]).h.now && AllSafe([AskEdge(W, T), AskEdge(T, R)])
    ensures Consistent(g) && Edges(g) == {(W, T), (T, R)} && g.rmw == map[] && g.asked.atomic == {}
  {
    var a, b := AskEdge(W, T), AskEdge(T, R);
    hide Consistent, AddEdge, Edges, Extends, Settled, Sound, Exact;
    StartLawful();
    StepLawful(START, a);
    var one := Step(START, a);
    StepLawful(one, b);
    var two := Step(one, b);
    assert [a][..0] == [] && [a, b][..1] == [a];
    assert Run([]) == After(START) && AllSafe([]);
    assert Run([a]) == After(one) && AllSafe([a]);
    assert Run([a, b]) == After(two) && AllSafe([a, b]);
    AddEdgeAlone(START.now, W, T);
    AddEdgeAlone(one.now, T, R);
    g := two.now;
    NoEdges();
    SafeRunExact([a, b]);
    IsConsistent(g);
  }

  lemma IsConsistent(g: Graph)
    requires Sound(g) && Exact(g)
    ensures Consistent(g)
  {
  }

  lemma NoEdges()
    ensures Edges(EMPTY) == {}
  {
  }

  /** If `R` then reads from `W` atomically, there is a cycle, and the flag is down. */
  lemma MissedCycleIsReachable()
    ensures var run := Run([AskEdge(W, T), AskEdge(T, R)] + [AskRMW(W, R)]);
      run.After? && !run.h.now.hasCycles && Cyclic(Edges(run.h.now))
  {
    var g := TwoEdges();
    hide Run, Consistent;
    FlagDown(g);
    ReachEdge(Edges(g), T, R);
    UnsafeStepInexact([AskEdge(W, T), AskEdge(T, R)], W, R);
  }

  lemma FlagDown(g: Graph)
    requires Consistent(g) && Edges(g) == {(W, T), (T, R)} && g.asked.atomic == {}
    ensures !g.hasCycles
  {
    var ord := [W, T, R];
    assert ord[0] == W && ord[1] == T && ord[2] == R;
    OrderedIsAcyclic(ord, Edges(g));
  }
}
