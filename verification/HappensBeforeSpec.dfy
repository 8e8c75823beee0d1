/**
 * Clock vectors as a test for happens-before: what they have to say about the
 * actions of an execution, and why adding actions and synchronization keeps it.
 */
module HappensBeforeSpec {
  import opened ClockVectors
  import opened Digraph

  function Max(a: nat, b: nat): nat {
    if a < b then b else a
  }

  ghost predicate IsMerge(a: ClockVector, b: ClockVector, m: ClockVector) {
    forall t: nat :: GetClock(m, t) == Max(GetClock(a, t), GetClock(b, t))
  }

  /** Every edge leads forward in the trace. */
  ghost predicate Forward(n: nat, edges: set<(int, int)>) {
    forall a, b :: (a, b) in edges ==> 0 <= a < b < n
  }

  /** The actions of one thread are ordered. */
  ghost predicate ProgramOrder(tids: seq<nat>, edges: set<(int, int)>) {
    forall a, b :: 0 <= a < b < |tids| && tids[a] == tids[b] ==> Reach(edges, a, b)
  }

  /** The clock of a thread is the number of one of its actions that happens before `b`. */
  ghost predicate SoundAt(tids: seq<nat>, edges: set<(int, int)>, cv: ClockVector, b: nat) {
    forall t: nat :: GetClock(cv, t) > 0 ==>
      GetClock(cv, t) <= |tids| && tids[GetClock(cv, t) - 1] == t && Reach(edges, GetClock(cv, t) - 1, b)
  }

  ghost predicate Sound(tids: seq<nat>, edges: set<(int, int)>, cvs: seq<ClockVector>) {
    |cvs| == |tids| && forall b :: 0 <= b < |cvs| ==> SoundAt(tids, edges, cvs[b], b)
  }

  /** Each action has its own number as its thread's clock. */
  predicate Own(tids: seq<nat>, cvs: seq<ClockVector>) {
    |cvs| == |tids| && forall b :: 0 <= b < |cvs| ==> GetClock(cvs[b], tids[b]) == b + 1
  }

  /** Clocks grow along the edges. */
  ghost predicate Growing(cvs: seq<ClockVector>, edges: set<(int, int)>) {
    forall a, b :: (a, b) in edges && 0 <= a < |cvs| && 0 <= b < |cvs| ==> Below(cvs[a], cvs[b])
  }

  ghost predicate Exact(tids: seq<nat>, cvs: seq<ClockVector>, edges: set<(int, int)>) {
    && Forward(|tids|, edges) && ProgramOrder(tids, edges)
    && Sound(tids, edges, cvs) && Own(tids, cvs) && Growing(cvs, edges)
  }

  lemma {:induction false} ReachForward(n: nat, edges: set<(int, int)>, a: nat, b: nat)
    requires Forward(n, edges) && Reach(edges, a, b)
    ensures a <= b && (a < n ==> b < n)
  {
    var p :| PathBetween(edges, p, a, b);
    var i := 0;
    while i < |p| - 1
      invariant 0 <= i < |p| && a <= p[i] && (a < n ==> p[i] < n)
    {
      assert (p[i], p[i + 1]) in edges;
      i := i + 1;
    }
  }

  lemma {:induction false} ReachGrows(n: nat, edges: set<(int, int)>, cvs: seq<ClockVector>, a: nat, b: nat)
    requires Forward(n, edges) && |cvs| == n && Growing(cvs, edges) && Reach(edges, a, b) && a < n
    ensures b < n && Below(cvs[a], cvs[b])
  {
    var p :| PathBetween(edges, p, a, b);
    var i := 0;
    while i < |p| - 1
      invariant 0 <= i < |p| && 0 <= p[i] < n && Below(cvs[a], cvs[p[i]])
    {
      assert (p[i], p[i + 1]) in edges;
      i := i + 1;
    }
  }

  /** The clock test is happens-before: program order, thread creation and synchronization, over any number of steps. */
  lemma ClockTestIsReach(tids: seq<nat>, cvs: seq<ClockVector>, edges: set<(int, int)>, a: nat, b: nat)
    requires Exact(tids, cvs, edges) && a < |tids| && b < |tids|
    ensures a + 1 <= GetClock(cvs[b], tids[a]) <==> Reach(edges, a, b)
  {
    if a + 1 <= GetClock(cvs[b], tids[a]) {
      ClockReaches(tids, cvs, edges, a, b);
    }
    if Reach(edges, a, b) {
      ReachGrows(|tids|, edges, cvs, a, b);
    }
  }

  lemma ClockReaches(tids: seq<nat>, cvs: seq<ClockVector>, edges: set<(int, int)>, a: nat, b: nat)
    requires ProgramOrder(tids, edges) && Sound(tids, edges, cvs) && a < |tids| && b < |tids|
    requires a + 1 <= GetClock(cvs[b], tids[a])
    ensures Reach(edges, a, b)
  {
    hide Reach;
    SoundReaches(tids, edges, cvs[b], b, edges, a);
  }

  /** A later moment of the same execution: more actions, and clocks that only grew. */
  ghost predicate Grown(tids: seq<nat>, cvs: seq<ClockVector>, tids': seq<nat>, cvs': seq<ClockVector>) {
    tids <= tids' && |cvs| <= |cvs'| && forall b :: 0 <= b < |cvs| ==> Below(cvs[b], cvs'[b])
  }

  // ---------------------------------------------------------------- a new action

  /** The clock vector of a new action with the given parent vector. */
  ghost predicate IsNext(parent: ClockVector, t: nat, number: nat, cv: ClockVector) {
    forall u: nat :: GetClock(cv, u) == if u == t then number else GetClock(parent, u)
  }

  lemma SoundMore(tids: seq<nat>, edges: set<(int, int)>, cv: ClockVector, b: nat, tids': seq<nat>,
      edges': set<(int, int)>)
    requires SoundAt(tids, edges, cv, b) && tids <= tids' && edges <= edges'
    ensures SoundAt(tids', edges', cv, b)
  {
    hide Reach;
    forall t: nat | GetClock(cv, t) > 0 ensures Reach(edges', GetClock(cv, t) - 1, b) {
      ReachMono(edges, edges', GetClock(cv, t) - 1, b);
    }
  }

  /** Without a parent: the first action of the execution, or of a thread nobody created. */
  lemma FirstAction(tids: seq<nat>, cvs: seq<ClockVector>, edges: set<(int, int)>, t: nat, cv: ClockVector)
    requires Exact(tids, cvs, edges) && t !in tids && IsNext([], t, |tids| + 1, cv)
    ensures Exact(tids + [t], cvs + [cv], edges)
  {
    hide Reach;
    var n := |tids|;
    forall b | 0 <= b < n ensures SoundAt(tids + [t], edges, cvs[b], b) {
      SoundMore(tids, edges, cvs[b], b, tids + [t], edges);
    }
    ReachRefl(edges, n);
    assert SoundAt(tids + [t], edges, cv, n);
  }

  lemma NextSound(tids: seq<nat>, edges: set<(int, int)>, p: nat, pcv: ClockVector, t: nat, cv: ClockVector,
      edges': set<(int, int)>)
    requires SoundAt(tids, edges, pcv, p) && IsNext(pcv, t, |tids| + 1, cv) && edges' == edges + {(p, |tids|)}
    ensures SoundAt(tids + [t], edges', cv, |tids|)
  {
    hide Reach;
    var n := |tids|;
    forall u: nat | GetClock(cv, u) > 0
      ensures GetClock(cv, u) <= n + 1 && (tids + [t])[GetClock(cv, u) - 1] == u &&
        Reach(edges', GetClock(cv, u) - 1, n)
    {
      if u == t {
        ReachRefl(edges', n);
      } else {
        ReachMono(edges, edges', GetClock(cv, u) - 1, p);
        ReachEdge(edges', p, n);
        ReachTrans(edges', GetClock(cv, u) - 1, p, n);
      }
    }
  }

  lemma NextOrdered(tids: seq<nat>, edges: set<(int, int)>, p: nat, t: nat, edges': set<(int, int)>)
    requires ProgramOrder(tids, edges) && p < |tids| && edges' == edges + {(p, |tids|)}
    requires forall a :: 0 <= a < |tids| && tids[a] == t ==> a <= p && tids[p] == t
    ensures ProgramOrder(tids + [t], edges')
  {
    hide Reach;
    var n := |tids|;
    forall a, b | 0 <= a < b < n + 1 && (tids + [t])[a] == (tids + [t])[b] ensures Reach(edges', a, b) {
      if b < n {
        ReachMono(edges, edges', a, b);
      } else {
        ReachEdge(edges', p, n);
        if a < p {
          ReachMono(edges, edges', a, p);
          ReachTrans(edges', a, p, n);
        }
      }
    }
  }

  lemma NextGrowing(tids: seq<nat>, cvs: seq<ClockVector>, edges: set<(int, int)>, p: nat, t: nat, cv: ClockVector)
    requires Forward(|tids|, edges) && Growing(cvs, edges) && |cvs| == |tids| && p < |tids|
    requires Below(cvs[p], cv)
    ensures Growing(cvs + [cv], edges + {(p, |tids|)}) && Forward(|tids| + 1, edges + {(p, |tids|)})
  {
    hide Below;
    var n, cvs', edges' := |tids|, cvs + [cv], edges + {(p, |tids|)};
    forall a, b | (a, b) in edges' && 0 <= a < |cvs'| && 0 <= b < |cvs'| ensures Below(cvs'[a], cvs'[b]) {
      if (a, b) in edges {
        assert Below(cvs[a], cvs[b]);
      }
    }
  }

  lemma NextBelow(tids: seq<nat>, edges: set<(int, int)>, p: nat, pcv: ClockVector, t: nat, cv: ClockVector)
    requires SoundAt(tids, edges, pcv, p) && IsNext(pcv, t, |tids| + 1, cv)
    ensures Below(pcv, cv)
  {
    hide Reach;
  }

  /** A new action after its parent: the last action of its thread, or the action that created the thread. */
  lemma NextAction(tids: seq<nat>, cvs: seq<ClockVector>, edges: set<(int, int)>, p: nat, t: nat, cv: ClockVector)
    requires Exact(tids, cvs, edges) && p < |tids| && IsNext(cvs[p], t, |tids| + 1, cv)
    requires forall a :: 0 <= a < |tids| && tids[a] == t ==> a <= p && tids[p] == t
    ensures Exact(tids + [t], cvs + [cv], edges + {(p, |tids|)})
  {
    hide Reach, SoundAt, Below, Growing, Forward, ProgramOrder;
    var n, edges' := |tids|, edges + {(p, |tids|)};
    NextOrdered(tids, edges, p, t, edges');
    assert SoundAt(tids, edges, cvs[p], p);
    NextSound(tids, edges, p, cvs[p], t, cv, edges');
    NextBelow(tids, edges, p, cvs[p], t, cv);
    NextGrowing(tids, cvs, edges, p, t, cv);
    forall b | 0 <= b < n ensures SoundAt(tids + [t], edges', cvs[b], b) {
      SoundMore(tids, edges, cvs[b], b, tids + [t], edges');
    }
  }

  // ---------------------------------------------------------------- synchronization, early or late

  /** The action is the acquire or has been found to happen after it. */
  predicate After(tids: seq<nat>, cv: ClockVector, acquire: nat, b: nat)
    requires acquire < |tids|
  {
    b == acquire || (b > acquire && acquire + 1 <= GetClock(cv, tids[acquire]))
  }

  /** The vectors once `m` has been merged into those of the acquire and of all that happens after it. */
  ghost predicate Propagated(tids: seq<nat>, cvs: seq<ClockVector>, acquire: nat, m: ClockVector,
      cvs': seq<ClockVector>)
    requires acquire < |tids|
  {
    && |cvs'| == |cvs|
    && forall b :: 0 <= b < |cvs| ==> if After(tids, cvs[b], acquire, b) then IsMerge(cvs[b], m, cvs'[b])
      else cvs'[b] == cvs[b]
  }

  /** New edges into the acquire, whose merged vector `m` bounds those of their sources. */
  ghost predicate Accepted(tids: seq<nat>, cvs: seq<ClockVector>, edges: set<(int, int)>, acquire: nat,
      m: ClockVector, edges': set<(int, int)>)
    requires acquire < |cvs|
  {
    && edges <= edges'
    && (forall a, b :: (a, b) in edges' && (a, b) !in edges ==> b == acquire && 0 <= a < acquire && Below(cvs[a], m))
    && Below(cvs[acquire], m)
    && SoundAt(tids, edges', m, acquire)
  }

  lemma AfterReached(tids: seq<nat>, cvs: seq<ClockVector>, edges: set<(int, int)>, acquire: nat, b: nat)
    requires Exact(tids, cvs, edges) && acquire < |tids| && b < |tids| && After(tids, cvs[b], acquire, b)
    ensures Reach(edges, acquire, b)
  {
    hide Reach;
    if b == acquire {
      ReachRefl(edges, b);
    } else {
      ClockReaches(tids, cvs, edges, acquire, b);
    }
  }

  lemma MergeSound(tids: seq<nat>, edges: set<(int, int)>, acquire: nat, b: nat, cv: ClockVector, m: ClockVector,
      cv': ClockVector)
    requires SoundAt(tids, edges, cv, b) && SoundAt(tids, edges, m, acquire) && Reach(edges, acquire, b) &&
      IsMerge(cv, m, cv')
    ensures SoundAt(tids, edges, cv', b)
  {
    hide Reach;
    forall t: nat | GetClock(cv', t) > 0
      ensures GetClock(cv', t) <= |tids| && tids[GetClock(cv', t) - 1] == t && Reach(edges, GetClock(cv', t) - 1, b)
    {
      assert GetClock(cv', t) == Max(GetClock(cv, t), GetClock(m, t));
      if GetClock(cv, t) < GetClock(m, t) {
        ReachTrans(edges, GetClock(m, t) - 1, acquire, b);
      }
    }
  }

  lemma PropagatedSound(tids: seq<nat>, cvs: seq<ClockVector>, edges: set<(int, int)>, acquire: nat, m: ClockVector,
      cvs': seq<ClockVector>, edges': set<(int, int)>)
    requires Exact(tids, cvs, edges) && acquire < |tids|
    requires Accepted(tids, cvs, edges, acquire, m, edges') && Propagated(tids, cvs, acquire, m, cvs')
    ensures Sound(tids, edges', cvs')
  {
    hide Reach, SoundAt, IsMerge, Below, Forward, Own, ProgramOrder;
    forall b | 0 <= b < |cvs| ensures SoundAt(tids, edges', cvs'[b], b) {
      SoundMore(tids, edges, cvs[b], b, tids, edges');
      if After(tids, cvs[b], acquire, b) {
        AfterReached(tids, cvs, edges, acquire, b);
        ReachMono(edges, edges', acquire, b);
        MergeSound(tids, edges', acquire, b, cvs[b], m, cvs'[b]);
      }
    }
  }

  lemma PropagatedOwn(tids: seq<nat>, cvs: seq<ClockVector>, edges: set<(int, int)>, acquire: nat, m: ClockVector,
      cvs': seq<ClockVector>, edges': set<(int, int)>)
    requires Exact(tids, cvs, edges) && acquire < |tids| && Forward(|tids|, edges')
    requires Accepted(tids, cvs, edges, acquire, m, edges') && Propagated(tids, cvs, acquire, m, cvs')
    ensures Own(tids, cvs')
  {
    hide Reach, Below, Sound, ProgramOrder, Growing;
    forall b | 0 <= b < |cvs| ensures GetClock(cvs'[b], tids[b]) == b + 1 {
      if After(tids, cvs[b], acquire, b) && GetClock(m, tids[b]) > 0 {
        ReachForward(|tids|, edges', GetClock(m, tids[b]) - 1, acquire);
      }
    }
  }

  /** What grows with the acquire along an edge grows at both of its ends. */
  lemma AfterSpreads(tids: seq<nat>, cvs: seq<ClockVector>, edges: set<(int, int)>, acquire: nat, a: nat, b: nat)
    requires Exact(tids, cvs, edges) && acquire < |tids| && (a, b) in edges && After(tids, cvs[a], acquire, a)
    ensures b < |tids| && After(tids, cvs[b], acquire, b)
  {
    assert Below(cvs[a], cvs[b]);
  }

  lemma PropagatedGrowing(tids: seq<nat>, cvs: seq<ClockVector>, edges: set<(int, int)>, acquire: nat, m: ClockVector,
      cvs': seq<ClockVector>, edges': set<(int, int)>)
    requires Exact(tids, cvs, edges) && acquire < |tids| && Forward(|tids|, edges')
    requires Accepted(tids, cvs, edges, acquire, m, edges') && Propagated(tids, cvs, acquire, m, cvs')
    ensures Growing(cvs', edges')
  {
    hide Reach, SoundAt, Own, ProgramOrder;
    forall a, b | (a, b) in edges' && 0 <= a < |cvs'| && 0 <= b < |cvs'| ensures Below(cvs'[a], cvs'[b]) {
      if (a, b) in edges {
        assert Below(cvs[a], cvs[b]);
        if After(tids, cvs[a], acquire, a) {
          AfterSpreads(tids, cvs, edges, acquire, a, b);
        }
      } else {
        assert After(tids, cvs[b], acquire, b) && IsMerge(cvs[b], m, cvs'[b]);
      }
    }
  }

  /** Synchronizing an action, however old, and propagating its vector keeps the clock test exact. */
  lemma SynchronizeExact(tids: seq<nat>, cvs: seq<ClockVector>, edges: set<(int, int)>, acquire: nat, m: ClockVector,
      cvs': seq<ClockVector>, edges': set<(int, int)>)
    requires Exact(tids, cvs, edges) && acquire < |tids|
    requires Accepted(tids, cvs, edges, acquire, m, edges') && Propagated(tids, cvs, acquire, m, cvs')
    ensures Exact(tids, cvs', edges')
  {
    hide Reach, Below, IsMerge, SoundAt;
    assert Forward(|tids|, edges');
    PropagatedSound(tids, cvs, edges, acquire, m, cvs', edges');
    PropagatedOwn(tids, cvs, edges, acquire, m, cvs', edges');
    PropagatedGrowing(tids, cvs, edges, acquire, m, cvs', edges');
    forall a, b | 0 <= a < b < |tids| && tids[a] == tids[b] ensures Reach(edges', a, b) {
      ReachMono(edges, edges', a, b);
    }
  }

  lemma SameLength(tids: seq<nat>, cvs: seq<ClockVector>, edges: set<(int, int)>)
    requires Exact(tids, cvs, edges)
    ensures |cvs| == |tids|
  {
  }

  /** The merged vector and the edges after one more release head has been accepted. */
  lemma AcceptHead(tids: seq<nat>, cvs: seq<ClockVector>, edges: set<(int, int)>, acquire: nat, m: ClockVector,
      edges1: set<(int, int)>, head: nat, m': ClockVector)
    requires Exact(tids, cvs, edges) && acquire < |tids| && |cvs| == |tids| && head < acquire
    requires Accepted(tids, cvs, edges, acquire, m, edges1) && IsMerge(m, cvs[head], m')
    ensures Accepted(tids, cvs, edges, acquire, m', edges1 + {(head, acquire)})
    ensures Reach(edges1 + {(head, acquire)}, head, acquire)
  {
    hide Reach, SoundAt, Own, Growing, ProgramOrder;
    var edges' := edges1 + {(head, acquire)};
    SoundMore(tids, edges1, m, acquire, tids, edges');
    SoundMore(tids, edges, cvs[head], head, tids, edges');
    ReachEdge(edges', head, acquire);
    MergeSound(tids, edges', head, acquire, m, cvs[head], m');
    forall a, b | (a, b) in edges' && (a, b) !in edges
      ensures b == acquire && 0 <= a < acquire && Below(cvs[a], m')
    {
      MergeIsAbove(m, cvs[head], m');
    }
    MergeIsAbove(m, cvs[head], m');
  }

  lemma MergeIsAbove(a: ClockVector, b: ClockVector, m: ClockVector)
    requires IsMerge(a, b, m)
    ensures Below(a, m) && Below(b, m) && forall c | Below(c, a) :: Below(c, m)
  {
  }

  lemma NoHeads(tids: seq<nat>, cvs: seq<ClockVector>, edges: set<(int, int)>, acquire: nat)
    requires Exact(tids, cvs, edges) && acquire < |tids| && |cvs| == |tids|
    ensures Accepted(tids, cvs, edges, acquire, cvs[acquire], edges)
  {
    hide Reach;
  }

  /** A head that the test finds to come before the acquire is reached from there. */
  lemma SkippedHead(tids: seq<nat>, cvs: seq<ClockVector>, edges: set<(int, int)>, acquire: nat, m: ClockVector,
      edges1: set<(int, int)>, head: nat)
    requires Exact(tids, cvs, edges) && acquire < |tids| && |cvs| == |tids| && head < |tids|
    requires Accepted(tids, cvs, edges, acquire, m, edges1) && head + 1 <= GetClock(m, tids[head])
    ensures Reach(edges1, head, acquire)
  {
    hide Reach, Below, SoundAt, ProgramOrder, Own, Growing, Forward;
    SoundReaches(tids, edges, m, acquire, edges1, head);
  }

  lemma SoundReaches(tids: seq<nat>, edges: set<(int, int)>, m: ClockVector, acquire: nat, edges1: set<(int, int)>,
      head: nat)
    requires ProgramOrder(tids, edges) && edges <= edges1 && SoundAt(tids, edges1, m, acquire)
    requires head < |tids| && head + 1 <= GetClock(m, tids[head])
    ensures Reach(edges1, head, acquire)
  {
    hide Reach;
    var c := GetClock(m, tids[head]) - 1;
    assert Reach(edges1, c, acquire);
    if head < c {
      ReachMono(edges, edges1, head, c);
      ReachTrans(edges1, head, c, acquire);
    }
  }

  /** A head that the test does not find did not come before the acquire. */
  lemma UnseenHead(tids: seq<nat>, cvs: seq<ClockVector>, edges: set<(int, int)>, acquire: nat, m: ClockVector,
      edges1: set<(int, int)>, head: nat)
    requires Exact(tids, cvs, edges) && acquire < |tids| && |cvs| == |tids| && head < |tids|
    requires Accepted(tids, cvs, edges, acquire, m, edges1) && GetClock(m, tids[head]) < head + 1
    ensures !Reach(edges, head, acquire)
  {
    ClockTestIsReach(tids, cvs, edges, head, acquire);
    hide Exact, Reach, SoundAt;
    assert GetClock(cvs[acquire], tids[head]) <= GetClock(m, tids[head]);
  }

  /** A head later than the acquire is never found. */
  lemma LaterIsUnseen(tids: seq<nat>, cvs: seq<ClockVector>, edges: set<(int, int)>, acquire: nat, m: ClockVector,
      edges1: set<(int, int)>, head: nat)
    requires Exact(tids, cvs, edges) && acquire < |tids| && |cvs| == |tids| && acquire < head < |tids|
    requires Accepted(tids, cvs, edges, acquire, m, edges1)
    ensures GetClock(m, tids[head]) < head + 1
  {
    if GetClock(m, tids[head]) >= head + 1 {
      SkippedHead(tids, cvs, edges, acquire, m, edges1, head);
      hide Reach, SoundAt, Growing, Own, Below, ProgramOrder;
      assert Forward(|tids|, edges1);
      ReachForward(|tids|, edges1, head, acquire);
    }
  }

  lemma SelfHead(tids: seq<nat>, cvs: seq<ClockVector>, edges: set<(int, int)>, acquire: nat, m: ClockVector,
      edges1: set<(int, int)>)
    requires Exact(tids, cvs, edges) && acquire < |tids| && |cvs| == |tids| &&
      Accepted(tids, cvs, edges, acquire, m, edges1)
    ensures acquire + 1 <= GetClock(m, tids[acquire])
  {
    hide Reach;
    assert GetClock(cvs[acquire], tids[acquire]) == acquire + 1;
  }

  lemma PropagatedGrown(tids: seq<nat>, cvs: seq<ClockVector>, acquire: nat, m: ClockVector, cvs': seq<ClockVector>)
    requires acquire < |tids| && Propagated(tids, cvs, acquire, m, cvs')
    ensures Grown(tids, cvs, tids, cvs')
  {
    hide After;
  }
}
