/**
 * The search for a sequentially consistent order on the actions of an execution:
 * what it takes for granted of happens-before holds there.
 */
module OrdersInExecutions {
  import opened ClockVectors
  import opened Digraph
  import opened HappensBeforeSpec
  import opened ScSearch

  /** The actions of the list are those of the execution, with their clock vectors. */
  ghost predicate FromExecution(pb: Problem, list: seq<Action>, tids: seq<nat>, cvs: seq<ClockVector>) {
    && |cvs| == |tids| && pb.lists == ThreadLists(list)
    && forall a <- list ::
      0 < a.number <= |tids| && tids[a.number - 1] == a.tid && pb.hb(a) == cvs[a.number - 1]
  }

  lemma ListedIsInList(pb: Problem, list: seq<Action>, a: Action)
    requires pb.lists == ThreadLists(list) && Listed(pb, a)
    ensures a in list
  {
    var t, i :| 0 <= t < |pb.lists| && 0 <= i < |pb.lists[t]| && pb.lists[t][i] == a;
    ThreadListsSplit(list, t);
    OfThreadInList(list, t, a);
  }

  lemma {:induction false} OfThreadInList(list: seq<Action>, t: nat, a: Action)
    requires a in OfThread(list, t)
    ensures a in list
  {
    if a !in OfThread(list[..|list| - 1], t) {
      assert a == list[|list| - 1];
    } else {
      OfThreadInList(list[..|list| - 1], t, a);
    }
  }

  /** Of two actions of different threads, the one that the vectors put first has the smaller number. */
  lemma ExecutionsAreForward(pb: Problem, list: seq<Action>, tids: seq<nat>, cvs: seq<ClockVector>,
      edges: set<(int, int)>)
    requires Exact(tids, cvs, edges) && FromExecution(pb, list, tids, cvs)
    ensures HbForward(pb)
  {
    hide Exact, Listed;
    forall a: Action, b: Action | Listed(pb, a) && Listed(pb, b) && a.tid != b.tid && SynchronizedSince(pb.hb(a), b)
      ensures b.number < a.number
    {
      ListedIsInList(pb, list, a);
      ListedIsInList(pb, list, b);
      SmallerNumber(tids, cvs, edges, b.number - 1, a.number - 1);
    }
  }

  lemma SmallerNumber(tids: seq<nat>, cvs: seq<ClockVector>, edges: set<(int, int)>, b: nat, a: nat)
    requires Exact(tids, cvs, edges) && |cvs| == |tids| && b < |tids| && a < |tids| && tids[b] != tids[a]
    requires b + 1 <= GetClock(cvs[a], tids[b])
    ensures b < a
  {
    ClockTestIsReach(tids, cvs, edges, b, a);
    ReachForward(|tids|, edges, b, a);
  }
}
