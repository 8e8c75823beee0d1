/**
 * The execution of a program under test, as far as it keeps happens-before: the
 * trace of its actions with their clock vectors, which are updated in place.
 */
module HappensBefore {
  import opened ClockVectors
  import opened Digraph
  import opened HappensBeforeSpec

  /** The clock vector of the action with the given number of thread `t`, after its parent's if it has one. */
  method NewClockVector(parent: ClockVector, t: nat, number: nat) returns (clock: ClockVector)
    ensures IsNext(parent, t, number, clock) && |clock| == Max(|parent|, t + 1)
  {
    var numThreads := t + 1;
    if |parent| > numThreads {
      numThreads := |parent|;
    }
    clock := parent + seq(numThreads - |parent|, i => 0);
    clock := clock[t := number];
  }

  /** Raises `clock` to at least `other`, thread by thread. */
  method Merge(clock: ClockVector, other: ClockVector) returns (merged: ClockVector, changed: bool)
    ensures IsMerge(clock, other, merged) && |merged| == Max(|clock|, |other|)
    ensures changed <==> !Below(other, clock)
  {
    merged, changed := clock, false;
    if |other| > |clock| {
      merged := merged + seq(|other| - |clock|, i => 0);
    }
    assert forall t: nat :: GetClock(merged, t) == GetClock(clock, t);
    for i := 0 to |other|
      invariant |merged| == Max(|clock|, |other|)
      invariant forall t: nat :: GetClock(merged, t) == if t < i then Max(GetClock(clock, t), GetClock(other, t))
        else GetClock(clock, t)
      invariant changed <==> exists t: nat :: t < i && GetClock(other, t) > GetClock(clock, t)
    {
      assert GetClock(merged, i) == GetClock(clock, i);
      if other[i] > merged[i] {
        assert GetClock(other, i) > GetClock(clock, i);
        merged := merged[i := other[i]];
        changed := true;
      }
    }
  }

  /** The last action of each thread that has one. */
  ghost predicate Lasts(tids: seq<nat>, last: map<nat, nat>) {
    && (forall t <- last :: last[t] < |tids| && tids[last[t]] == t)
    && (forall a: nat :: a < |tids| ==> tids[a] in last && a <= last[tids[a]])
  }

  /** Some of the heads did not come before the acquire so far, although it is earlier in the trace. */
  ghost predicate SomeNew(edges: set<(int, int)>, heads: seq<nat>, acquire: nat) {
    exists h <- heads :: h < acquire && !Reach(edges, h, acquire)
  }

  /** Some of the heads are later in the trace than the acquire. */
  ghost predicate SomeLater(heads: seq<nat>, acquire: nat) {
    exists h <- heads :: h > acquire
  }

  lemma NoneNew(edges: set<(int, int)>, acquire: nat)
    ensures !SomeNew(edges, [], acquire) && !SomeLater([], acquire)
  {
  }

  lemma OneMoreHead(edges: set<(int, int)>, heads: seq<nat>, head: nat, acquire: nat)
    ensures SomeNew(edges, heads + [head], acquire) <==>
      SomeNew(edges, heads, acquire) || (head < acquire && !Reach(edges, head, acquire))
    ensures SomeLater(heads + [head], acquire) <==> SomeLater(heads, acquire) || head > acquire
  {
    hide Reach;
    assert head in heads + [head] && forall h <- heads :: h in heads + [head];
  }

  class Execution {
    var tids: seq<nat>
    var cvs: seq<ClockVector>
    var last: map<nat, nat>
    var creation: map<nat, nat>
    var badSynchronization: bool

    /** Program order, thread creation and accepted synchronization. */
    ghost var edges: set<(int, int)>

    ghost predicate Valid()
      reads this
    {
      && Exact(tids, cvs, edges) && Lasts(tids, last)
      && (forall t <- creation :: creation[t] < |tids|)
    }

    constructor ()
      ensures Valid() && tids == [] && edges == {} && creation == map[] && !badSynchronization
    {
      tids, cvs, last, creation, badSynchronization, edges := [], [], map[], map[], false, {};
    }

    /** The edge from the parent of the next action of thread `t`, if there is one. */
    ghost function ParentEdge(t: nat): set<(int, int)>
      reads this
    {
      if t in last then {(last[t], |tids|)} else if t in creation then {(creation[t], |tids|)} else {}
    }

    /** Thread `t` does its next action. */
    method NewAction(t: nat) returns (a: nat)
      requires Valid()
      modifies `tids, `cvs, `last, `edges
      ensures Valid() && a == |old(tids)| && tids == old(tids) + [t] && edges == old(edges) + old(ParentEdge(t))
      ensures cvs[..a] == old(cvs) && Grown(old(tids), old(cvs), tids, cvs)
    {
      hide Exact;
      a := |tids|;
      assert |cvs| == |tids| by { SameLength(tids, cvs, edges); }
      var cv;
      if t in last {
        cv := NewClockVector(cvs[last[t]], t, a + 1);
        NextAction(tids, cvs, edges, last[t], t, cv);
        edges := edges + {(last[t], a)};
      } else if t in creation {
        cv := NewClockVector(cvs[creation[t]], t, a + 1);
        NextAction(tids, cvs, edges, creation[t], t, cv);
        edges := edges + {(creation[t], a)};
      } else {
        cv := NewClockVector([], t, a + 1);
        FirstAction(tids, cvs, edges, t, cv);
      }
      tids, cvs, last := tids + [t], cvs + [cv], last[t := a];
    }

    /** Action `a` creates thread `t`, whose first action is to come after it. */
    method SetCreation(t: nat, a: nat)
      requires Valid() && a < |tids|
      modifies `creation
      ensures Valid() && creation == old(creation)[t := a]
      ensures t !in last ==> ParentEdge(t) == {(a, |tids|)}
      ensures forall u: nat :: u != t || u in last ==> ParentEdge(u) == old(ParentEdge(u))
    {
      creation := creation[t := a];
    }

    /** Whether action `a` happens before action `b`. */
    method HappensBefore(a: nat, b: nat) returns (before: bool)
      requires Valid() && a < |tids| && b < |tids|
      ensures before <==> Reach(edges, a, b)
    {
      ClockTestIsReach(tids, cvs, edges, a, b);
      before := SynchronizedSince(cvs[b], a);
    }

    method SynchronizedSince(cv: ClockVector, a: nat) returns (since: bool)
      requires a < |tids|
      ensures since <==> a + 1 <= GetClock(cv, tids[a])
    {
      var i := tids[a];
      if i < |cv| {
        return a + 1 <= cv[i];
      }
      return false;
    }

    /** The vector of `first` is merged into that of `second`, unless that comes earlier in the trace. */
    method Synchronize(first: nat, second: nat) returns (ok: bool)
      requires first < |cvs| && second < |cvs|
      modifies `cvs, `badSynchronization
      ensures ok <==> first <= second
      ensures badSynchronization == (old(badSynchronization) || !ok)
      ensures !ok ==> cvs == old(cvs)
      ensures ok ==>
        |cvs| == |old(cvs)| && IsMerge(old(cvs)[second], old(cvs)[first], cvs[second]) &&
        cvs == old(cvs)[second := cvs[second]]
    {
      if second < first {
        badSynchronization := true;
        return false;
      }
      var merged, _ := Merge(cvs[second], cvs[first]);
      cvs := cvs[second := merged];
      ok := true;
    }

    /** The newest action synchronizes with an earlier one: a join, a lock, a read or a fence. */
    method SynchronizeCurrent(first: nat) returns (ok: bool)
      requires Valid() && first + 1 < |tids|
      modifies `cvs, `badSynchronization, `edges
      ensures Valid() && ok && edges == old(edges) + {(first, |tids| - 1)} && Grown(tids, old(cvs), tids, cvs)
    {
      hide Exact, Accepted, Propagated;
      ghost var was := cvs;
      var current := |tids| - 1;
      SameLength(tids, cvs, edges);
      ok := Synchronize(first, current);
      NoHeads(tids, was, edges, current);
      AcceptHead(tids, was, edges, current, was[current], edges, first, cvs[current]);
      CurrentIsLast(tids, was, cvs, edges, current, cvs[current]);
      SynchronizeExact(tids, was, edges, current, cvs[current], cvs, edges + {(first, current)});
      PropagatedGrown(tids, was, current, cvs[current], cvs);
      edges := edges + {(first, current)};
    }

    /** All that happens after the acquire gets its vector, from the newest action back to the acquire. */
    method PropagateClockvector(acquire: nat, ghost was: seq<ClockVector>)
      requires acquire < |tids| == |was| == |cvs| && forall b :: 0 <= b < |was| && b != acquire ==> cvs[b] == was[b]
      requires Below(was[acquire], cvs[acquire])
      modifies `cvs, `badSynchronization
      ensures Propagated(tids, was, acquire, old(cvs)[acquire], cvs) && badSynchronization == old(badSynchronization)
    {
      hide Below, IsMerge;
      ghost var m := cvs[acquire];
      var rit := |tids| - 1;
      while rit != acquire
        invariant acquire <= rit < |tids| && |cvs| == |was| && cvs[acquire] == m
        invariant forall b :: 0 <= b <= rit && b != acquire ==> cvs[b] == was[b]
        invariant forall b :: rit < b < |was| ==>
          if After(tids, was[b], acquire, b) then IsMerge(was[b], m, cvs[b]) else cvs[b] == was[b]
        invariant badSynchronization == old(badSynchronization)
      {
        var after := SynchronizedSince(cvs[rit], acquire);
        if after {
          var _ := Synchronize(acquire, rit);
        }
        rit := rit - 1;
      }
      MergeWithAbove(was[acquire], m);
    }

    /** Release heads that were found late: each that comes before the acquire now happens before it. */
    method SynchronizeLate(heads: seq<nat>, acquire: nat) returns (updated: bool)
      requires Valid() && acquire < |tids| && forall h <- heads :: h < |tids|
      modifies `cvs, `badSynchronization, `edges
      ensures Valid() && old(edges) <= edges && Grown(tids, old(cvs), tids, cvs)
      ensures forall a, b :: (a, b) in edges && (a, b) !in old(edges) ==> b == acquire && a in heads && a < acquire
      ensures forall h <- heads | h <= acquire :: Reach(edges, h, acquire)
      ensures updated <==> SomeNew(old(edges), heads, acquire)
      ensures badSynchronization <==> old(badSynchronization) || SomeLater(heads, acquire)
      ensures !updated ==> cvs == old(cvs) && edges == old(edges)
    {
      hide Exact, Accepted, Propagated, Reach, SomeNew, SomeLater;
      ghost var was, was0 := cvs, edges;
      SameLength(tids, cvs, edges);
      NoHeads(tids, was, edges, acquire);
      updated := false;
      NoneNew(was0, acquire);
      for i := 0 to |heads|
        invariant |cvs| == |was| && forall b :: 0 <= b < |was| && b != acquire ==> cvs[b] == was[b]
        invariant Accepted(tids, was, was0, acquire, cvs[acquire], edges) && was0 <= edges
        invariant forall a, b :: (a, b) in edges && (a, b) !in was0 ==> b == acquire && a in heads && a < acquire
        invariant forall j :: 0 <= j < i && heads[j] <= acquire ==> Reach(edges, heads[j], acquire)
        invariant updated <==> SomeNew(was0, heads[..i], acquire)
        invariant badSynchronization <==> old(badSynchronization) || SomeLater(heads[..i], acquire)
        invariant !updated ==> cvs == was && edges == was0
      {
        var head := heads[i];
        assert head in heads;
        SelfHead(tids, was, was0, acquire, cvs[acquire], edges);
        assert heads[..i + 1] == heads[..i] + [head];
        OneMoreHead(was0, heads[..i], head, acquire);
        if head > acquire {
          LaterIsUnseen(tids, was, was0, acquire, cvs[acquire], edges, head);
        }
        var since := SynchronizedSince(cvs[acquire], head);
        if since {
          SkippedHead(tids, was, was0, acquire, cvs[acquire], edges, head);
        } else {
          ghost var m, before := cvs[acquire], edges;
          UnseenHead(tids, was, was0, acquire, m, edges, head);
          var ok := Synchronize(head, acquire);
          if ok {
            AcceptHead(tids, was, was0, acquire, m, edges, head, cvs[acquire]);
            edges := edges + {(head, acquire)};
            updated := true;
            forall j | 0 <= j < i && heads[j] <= acquire ensures Reach(edges, heads[j], acquire) {
              ReachMono(before, edges, heads[j], acquire);
            }
          }
        }
      }
      if updated {
        ghost var m := cvs[acquire];
        AcceptedAbove(tids, was, was0, acquire, m, edges);
        PropagateClockvector(acquire, was);
        SynchronizeExact(tids, was, was0, acquire, m, cvs, edges);
        PropagatedGrown(tids, was, acquire, m, cvs);
      }
      assert heads[..|heads|] == heads;
      assert forall h <- heads | h <= acquire :: Reach(edges, h, acquire);
    }
  }

  lemma CurrentIsLast(tids: seq<nat>, cvs: seq<ClockVector>, cvs': seq<ClockVector>, edges: set<(int, int)>,
      current: nat, m: ClockVector)
    requires |cvs| == |cvs'| == |tids| && current == |tids| - 1 && Below(cvs[current], m)
    requires cvs' == cvs[current := m]
    ensures Propagated(tids, cvs, current, m, cvs')
  {
    MergeWithAbove(cvs[current], m);
  }

  lemma MergeWithAbove(a: ClockVector, m: ClockVector)
    requires Below(a, m)
    ensures IsMerge(a, m, m)
  {
  }

  lemma AcceptedAbove(tids: seq<nat>, cvs: seq<ClockVector>, edges: set<(int, int)>, acquire: nat, m: ClockVector,
      edges': set<(int, int)>)
    requires acquire < |cvs| && Accepted(tids, cvs, edges, acquire, m, edges')
    ensures Below(cvs[acquire], m)
  {
  }
}
