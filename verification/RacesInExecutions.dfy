/**
 * Plain accesses in an execution: their clock vectors obey the laws that the
 * race detector relies on, even where synchronization is discovered late, and
 * what it takes for ordered is happens-before.
 */
module RacesInExecutions {
  import opened ClockVectors
  import opened Digraph
  import opened HappensBeforeSpec
  import opened RaceSpec

  /** An execution at the moment of a plain access, and the last action of the accessing thread so far. */
  datatype Moment = Moment(tids: seq<nat>, cvs: seq<ClockVector>, edges: set<(int, int)>, action: nat)

  /** The access is made with the clock vector of its thread's last action. */
  ghost predicate MadeAt(a: Access, m: Moment) {
    && Exact(m.tids, m.cvs, m.edges) && m.action < |m.tids| && |m.cvs| == |m.tids|
    && a.tid == m.tids[m.action] && a.cv == m.cvs[m.action]
    && (forall b :: m.action < b < |m.tids| ==> m.tids[b] != a.tid)
  }

  /** The accesses of one execution, each made at a moment no earlier than the one before. */
  ghost predicate Observed(trace: seq<Access>, moments: seq<Moment>) {
    && |moments| == |trace|
    && (forall i :: 0 <= i < |trace| ==> MadeAt(trace[i], moments[i]))
    && (forall i, j :: 0 <= i < j < |trace| ==> Grown(moments[i].tids, moments[i].cvs, moments[j].tids, moments[j].cvs))
  }

  /** The earlier access comes before some later action of its thread that happens before the later access. */
  ghost predicate HappensBefore(a: Access, m: Moment, m': Moment)
    requires m'.action < |m'.tids|
  {
    || m'.tids[m'.action] == a.tid
    || exists b :: m.action < b < |m'.tids| && m'.tids[b] == a.tid && Reach(m'.edges, b, m'.action)
  }

  lemma OwnClock(a: Access, m: Moment)
    requires MadeAt(a, m)
    ensures Clock(a) == m.action + 1
  {
    hide Reach;
  }

  /** What the race detector takes for ordered is happens-before. */
  lemma OrderedIsHappensBefore(a: Access, m: Moment, a': Access, m': Moment)
    requires MadeAt(a, m) && MadeAt(a', m') && Grown(m.tids, m.cvs, m'.tids, m'.cvs)
    ensures Ordered(a, a') <==> HappensBefore(a, m, m')
  {
    hide Reach, Grown, ProgramOrder, Growing, Forward;
    OwnClock(a, m);
    var c := GetClock(a'.cv, a.tid);
    if a.tid != a'.tid && Ordered(a, a') {
      assert SoundAt(m'.tids, m'.edges, m'.cvs[m'.action], m'.action);
      assert m'.tids[c - 1] == a.tid && Reach(m'.edges, c - 1, m'.action);
    }
    if b :| m.action < b < |m'.tids| && m'.tids[b] == a.tid && Reach(m'.edges, b, m'.action) {
      ClockTestIsReach(m'.tids, m'.cvs, m'.edges, b, m'.action);
    }
  }

  lemma BelowTrans(a: ClockVector, b: ClockVector, c: ClockVector)
    requires Below(a, b) && Below(b, c)
    ensures Below(a, c)
  {
  }

  /** Who comes after an access has seen all that it had seen. */
  lemma OrderedIsBelow(a: Access, m: Moment, a': Access, m': Moment)
    requires MadeAt(a, m) && MadeAt(a', m') && Grown(m.tids, m.cvs, m'.tids, m'.cvs) && Ordered(a, a')
    ensures Below(a.cv, a'.cv)
  {
    hide Reach, Below, ProgramOrder, SoundAt, Own, Forward;
    OrderedIsHappensBefore(a, m, a', m');
    assert Below(m.cvs[m.action], m'.cvs[m.action]);
    var b := m'.action;
    if m'.tids[m'.action] != a.tid {
      b :| m.action < b < |m'.tids| && m'.tids[b] == a.tid && Reach(m'.edges, b, m'.action);
      ReachGrows(|m'.tids|, m'.edges, m'.cvs, b, m'.action);
      SameThreadBelow(m', m.action, b);
      BelowTrans(m'.cvs[m.action], m'.cvs[b], a'.cv);
    } else {
      SameThreadBelow(m', m.action, b);
    }
    BelowTrans(a.cv, m'.cvs[m.action], a'.cv);
  }

  lemma SameThreadBelow(m: Moment, b: nat, c: nat)
    requires Exact(m.tids, m.cvs, m.edges) && |m.cvs| == |m.tids| && b < |m.tids| && c < |m.tids|
    requires m.tids[b] == m.tids[c] && b <= c
    ensures Below(m.cvs[b], m.cvs[c])
  {
    hide Reach;
    if b < c {
      ReachGrows(|m.tids|, m.edges, m.cvs, b, c);
    }
  }

  /** The accesses of every execution obey the laws of clocks. */
  lemma ExecutionsObeyClockLaws(trace: seq<Access>, moments: seq<Moment>)
    requires Observed(trace, moments)
    ensures ClockLaws(trace)
  {
    hide MadeAt, Grown, Below, Ordered;
    forall i | 0 <= i < |trace| ensures Clock(trace[i]) > 0 {
      OwnClock(trace[i], moments[i]);
    }
    forall i, j | 0 <= i < j < |trace| && Ordered(trace[i], trace[j]) ensures Below(trace[i].cv, trace[j].cv) {
      OrderedIsBelow(trace[i], moments[i], trace[j], moments[j]);
    }
  }

  /**
   * In every execution the detector reports something exactly when two conflicting
   * accesses are not ordered by happens-before.
   */
  lemma ReportsIffUnordered(trace: seq<Access>, moments: seq<Moment>)
    requires Observed(trace, moments)
    ensures RacesOf(trace) != [] <==> exists i, j :: 0 <= i < j < |trace| && Unrelated(trace, moments, i, j)
  {
    hide MadeAt, Grown, RacesOf, ClockLaws, HappensBefore, Ordered;
    ExecutionsObeyClockLaws(trace, moments);
    ReportsIffRace(trace);
    forall i, j | 0 <= i < j < |trace| ensures Racy(trace, i, j) <==> Unrelated(trace, moments, i, j) {
      OrderedIsHappensBefore(trace[i], moments[i], trace[j], moments[j]);
    }
  }

  ghost predicate Unrelated(trace: seq<Access>, moments: seq<Moment>, i: nat, j: nat)
    requires Observed(trace, moments) && i < j < |trace|
  {
    (trace[i].write || trace[j].write) && !HappensBefore(trace[i], moments[i], moments[j])
  }
}
