/**
 * The search for a sequentially consistent order of the actions of an
 * execution: which actions may come next, which orders the search may run
 * through, and the numbers of the choices on the way.
 */
module ScSearch {
  import opened Collections
  import opened ClockVectors

  datatype Action = Action(tid: nat, number: nat)

  /**
   * What the search works on: the actions of each thread in program order, their
   * clock vectors `hb` in the execution, and, depending on the actions chosen so
   * far, the vectors `cv` of the analysis, the index `prune` picks if there is
   * nothing to choose, and whether the last action closes a cycle.
   */
  datatype Problem = Problem(
    lists: seq<seq<Action>>,
    hb: Action -> ClockVector,
    cv: (seq<Action>, Action) -> ClockVector,
    prune: (seq<Action>, seq<Action>) -> Option<nat>,
    cycle: seq<Action> -> bool)

  /** How many of the chosen actions are of thread `t`. */
  function Count(p: seq<Action>, t: nat): nat {
    if p == [] then 0 else Count(p[..|p| - 1], t) + if p[|p| - 1].tid == t then 1 else 0
  }

  predicate HasNext(pb: Problem, p: seq<Action>, t: nat) {
    t < |pb.lists| && Count(p, t) < |pb.lists[t]|
  }

  /** The first action of thread `t` that is not chosen yet. */
  function Front(pb: Problem, p: seq<Action>, t: nat): Action
    requires HasNext(pb, p, t)
  {
    pb.lists[t][Count(p, t)]
  }

  predicate SynchronizedSince(cv: ClockVector, a: Action) {
    a.tid < |cv| && a.number <= cv[a.tid]
  }

  /** Some other thread's next action comes before that of thread `t`. */
  predicate Blocked(pb: Problem, p: seq<Action>, cv: Action -> ClockVector, t: nat)
    requires HasNext(pb, p, t)
  {
    exists i :: 0 <= i < |pb.lists| && i != t && HasNext(pb, p, i) &&
      SynchronizedSince(cv(Front(pb, p, t)), Front(pb, p, i))
  }

  /** The next actions of the first `n` threads that none comes before. */
  function Unblocked(pb: Problem, p: seq<Action>, cv: Action -> ClockVector, n: nat): (acts: seq<Action>)
    requires n <= |pb.lists|
    ensures |acts| <= n
    ensures forall a <- acts :: exists t :: 0 <= t < n && HasNext(pb, p, t) && Front(pb, p, t) == a
    ensures forall t :: 0 <= t < n && HasNext(pb, p, t) && !Blocked(pb, p, cv, t) ==> Front(pb, p, t) in acts
  {
    hide Blocked;
    if n == 0 then [] else
    var before := Unblocked(pb, p, cv, n - 1);
    if HasNext(pb, p, n - 1) && !Blocked(pb, p, cv, n - 1) then before + [Front(pb, p, n - 1)] else before
  }

  lemma NoneUnblocked(pb: Problem, p: seq<Action>, cv: Action -> ClockVector)
    ensures Unblocked(pb, p, cv, 0) == []
  {
  }

  lemma UnblockedStep(pb: Problem, p: seq<Action>, cv: Action -> ClockVector, n: nat)
    requires n < |pb.lists|
    ensures Unblocked(pb, p, cv, n + 1) ==
      Unblocked(pb, p, cv, n) + if HasNext(pb, p, n) && !Blocked(pb, p, cv, n) then [Front(pb, p, n)] else []
  {
  }

  /** The vectors of the analysis after the actions in `p`. */
  function Vectors(pb: Problem, p: seq<Action>): Action -> ClockVector {
    a => pb.cv(p, a)
  }

  /** getNextActions: by the vectors of the analysis or, if these block everything, by happens-before. */
  function NextActions(pb: Problem, p: seq<Action>): (acts: seq<Action>)
    ensures |acts| <= |pb.lists|
    ensures forall a <- acts :: exists t :: 0 <= t < |pb.lists| && HasNext(pb, p, t) && Front(pb, p, t) == a
  {
    var acts := Unblocked(pb, p, Vectors(pb, p), |pb.lists|);
    if acts != [] then acts else Unblocked(pb, p, pb.hb, |pb.lists|)
  }

  /** Each thread's actions are its own, and happens-before goes from smaller to larger numbers. */
  ghost predicate WellFormed(pb: Problem) {
    OwnLists(pb) && HbForward(pb) && PruneInRange(pb)
  }

  predicate OwnLists(pb: Problem) {
    forall t, i :: 0 <= t < |pb.lists| && 0 <= i < |pb.lists[t]| ==> pb.lists[t][i].tid == t
  }

  ghost predicate HbForward(pb: Problem) {
    forall a: Action, b: Action ::
      Listed(pb, a) && Listed(pb, b) && a.tid != b.tid && SynchronizedSince(pb.hb(a), b) ==> b.number < a.number
  }

  predicate Listed(pb: Problem, a: Action) {
    exists t, i :: 0 <= t < |pb.lists| && 0 <= i < |pb.lists[t]| && pb.lists[t][i] == a
  }

  lemma FrontListed(pb: Problem, p: seq<Action>, t: nat)
    requires HasNext(pb, p, t)
    ensures Listed(pb, Front(pb, p, t))
  {
  }

  ghost predicate PruneInRange(pb: Problem) {
    forall p, acts :: pb.prune(p, acts).Some? ==> pb.prune(p, acts).value < |acts|
  }

  /** The thread whose next action has the smallest number is not blocked by happens-before. */
  lemma {:induction false} SomethingIsNext(pb: Problem, p: seq<Action>, t: nat)
    requires WellFormed(pb) && HasNext(pb, p, t)
    ensures NextActions(pb, p) != []
    decreases Front(pb, p, t).number
  {
    if Blocked(pb, p, pb.hb, t) {
      var i :| 0 <= i < |pb.lists| && i != t && HasNext(pb, p, i) &&
        SynchronizedSince(pb.hb(Front(pb, p, t)), Front(pb, p, i));
      FrontListed(pb, p, t);
      FrontListed(pb, p, i);
      SomethingIsNext(pb, p, i);
    } else {
      assert Front(pb, p, t) in Unblocked(pb, p, pb.hb, |pb.lists|);
    }
  }

  // ---------------------------------------------------------------- the lists of the threads

  /** The actions of thread `t`, in the order of the trace. */
  function OfThread(p: seq<Action>, t: nat): (acts: seq<Action>)
    ensures forall a <- acts :: a.tid == t
  {
    if p == [] then [] else
    OfThread(p[..|p| - 1], t) + if p[|p| - 1].tid == t then [p[|p| - 1]] else []
  }

  /** buildVectors: the trace, split by threads. */
  function ThreadLists(list: seq<Action>): (lists: seq<seq<Action>>)
    ensures |lists| > 0
  {
    if list == [] then [[]] else
    var a := list[|list| - 1];
    var lists := Widened(ThreadLists(list[..|list| - 1]), a.tid);
    lists[a.tid := lists[a.tid] + [a]]
  }

  /** List `t` holds the actions of thread `t`; threads without a list have none. */
  lemma {:induction false} ThreadListsSplit(list: seq<Action>, t: nat)
    ensures OfThread(list, t) == if t < |ThreadLists(list)| then ThreadLists(list)[t] else []
  {
    hide OfThread;
    if list != [] {
      ThreadListsSplit(list[..|list| - 1], t);
      OneMore(list[..|list| - 1], list[|list| - 1], t);
      assert list == list[..|list| - 1] + [list[|list| - 1]];
    } else {
      NoneTaken(t);
    }
  }

  /** The lists, with empty ones added so that thread `t` has one. */
  function Widened(lists: seq<seq<Action>>, t: nat): (wide: seq<seq<Action>>)
    ensures |wide| == if t < |lists| then |lists| else t + 1
    ensures forall u :: 0 <= u < |wide| ==> wide[u] == if u < |lists| then lists[u] else []
  {
    if t < |lists| then lists else lists + seq(t + 1 - |lists|, _ => [])
  }

  lemma {:induction false} TotalOfThreads(list: seq<Action>)
    ensures Total(ThreadLists(list)) == |list|
  {
    if list != [] {
      var before, a := ThreadLists(list[..|list| - 1]), list[|list| - 1];
      TotalOfThreads(list[..|list| - 1]);
      TotalWidened(before, a.tid);
      TotalPushed(Widened(before, a.tid), a.tid, a);
    }
  }

  lemma {:induction false} TotalEmpty(lists: seq<seq<Action>>, n: nat)
    ensures Total(lists + seq(n, _ => [])) == Total(lists)
  {
    if n > 0 {
      TotalEmpty(lists, n - 1);
      var wide: seq<seq<Action>> := lists + seq(n, _ => []);
      assert wide[..|wide| - 1] == lists + seq(n - 1, _ => []);
    } else {
      var none: seq<seq<Action>> := seq(n, _ => []);
      assert lists + none == lists;
    }
  }

  lemma TotalWidened(lists: seq<seq<Action>>, t: nat)
    ensures Total(Widened(lists, t)) == Total(lists)
  {
    if t >= |lists| {
      TotalEmpty(lists, t + 1 - |lists|);
    }
  }

  lemma {:induction false} TotalPushed(lists: seq<seq<Action>>, t: nat, a: Action)
    requires t < |lists|
    ensures Total(lists[t := lists[t] + [a]]) == Total(lists) + 1
  {
    var lists' := lists[t := lists[t] + [a]];
    var n := |lists| - 1;
    if t < n {
      TotalPushed(lists[..n], t, a);
      assert lists'[..n] == lists[..n][t := lists[..n][t] + [a]];
    } else {
      assert lists'[..n] == lists[..n];
    }
  }

  // ---------------------------------------------------------------- orders

  /** pruneArray: the index of the action to take if there is nothing to choose. */
  function Pruned(pb: Problem, p: seq<Action>): Option<nat> {
    var acts := NextActions(pb, p);
    if |acts| == 1 then Some(0) else pb.prune(p, acts)
  }

  predicate IsChoice(pb: Problem, p: seq<Action>) {
    NextActions(pb, p) != [] && Pruned(pb, p).None?
  }

  /** The search may take `a` next. */
  predicate MayTake(pb: Problem, p: seq<Action>, a: Action) {
    var acts := NextActions(pb, p);
    a in acts && (Pruned(pb, p).Some? ==> Pruned(pb, p).value < |acts| && a == acts[Pruned(pb, p).value])
  }

  ghost predicate Possible(pb: Problem, o: seq<Action>) {
    forall i :: 0 <= i < |o| ==> MayTake(pb, o[..i], o[i])
  }

  predicate Complete(pb: Problem, o: seq<Action>) {
    NextActions(pb, o) == []
  }

  predicate Cyclic(pb: Problem, o: seq<Action>) {
    pb.cycle(o) || (o != [] && Cyclic(pb, o[..|o| - 1]))
  }

  /** A possible order of all actions without a cycle. */
  ghost predicate Good(pb: Problem, o: seq<Action>) {
    Possible(pb, o) && Complete(pb, o) && !Cyclic(pb, o)
  }

  lemma PossibleAt(pb: Problem, o: seq<Action>, i: nat)
    requires Possible(pb, o) && i < |o|
    ensures MayTake(pb, o[..i], o[i])
  {
  }

  lemma {:induction false} PrefixCyclic(pb: Problem, p: seq<Action>, o: seq<Action>)
    requires p <= o && Cyclic(pb, p)
    ensures Cyclic(pb, o)
    decreases |o|
  {
    if |p| < |o| {
      assert p <= o[..|o| - 1];
      PrefixCyclic(pb, p, o[..|o| - 1]);
    } else {
      assert p == o;
    }
  }

  lemma {:induction false} CountBound(pb: Problem, o: seq<Action>, t: nat)
    requires WellFormed(pb) && Possible(pb, o) && t < |pb.lists|
    ensures Count(o, t) <= |pb.lists[t]|
  {
    hide WellFormed, Possible, MayTake, Count;
    if o != [] {
      var p, a := o[..|o| - 1], o[|o| - 1];
      PossiblePrefix(pb, o, |o| - 1);
      PossibleAt(pb, o, |o| - 1);
      CountBound(pb, p, t);
      TakenFront(pb, p, a);
      OneMore(p, a, t);
      assert o == p + [a];
    } else {
      NoneTaken(t);
    }
  }

  lemma PossiblePrefix(pb: Problem, o: seq<Action>, n: nat)
    requires Possible(pb, o) && n <= |o|
    ensures Possible(pb, o[..n])
  {
    forall i | 0 <= i < n ensures MayTake(pb, o[..n][..i], o[..n][i]) {
      assert o[..n][..i] == o[..i];
    }
  }

  lemma PossibleStep(pb: Problem, o: seq<Action>, a: Action)
    requires Possible(pb, o) && MayTake(pb, o, a)
    ensures Possible(pb, o + [a])
  {
    hide MayTake;
    forall i | 0 <= i < |o + [a]| ensures MayTake(pb, (o + [a])[..i], (o + [a])[i]) {
      assert (o + [a])[..i] == o[..i];
      assert i == |o| ==> o[..i] == o;
    }
  }

  /** What is left of each list once the actions in `p` are taken. */
  ghost predicate Left(pb: Problem, p: seq<Action>, lists: seq<seq<Action>>) {
    |lists| == |pb.lists| && forall t :: 0 <= t < |lists| ==>
      Count(p, t) <= |pb.lists[t]| && lists[t] == pb.lists[t][Count(p, t)..]
  }

  lemma LeftOfNone(pb: Problem)
    ensures Left(pb, [], pb.lists)
  {
  }

  lemma LeftLists(pb: Problem, p: seq<Action>, lists: seq<seq<Action>>)
    requires Left(pb, p, lists)
    ensures |lists| == |pb.lists|
  {
  }

  lemma LeftFront(pb: Problem, p: seq<Action>, lists: seq<seq<Action>>, t: nat)
    requires Left(pb, p, lists) && t < |lists|
    ensures |lists| == |pb.lists| && (HasNext(pb, p, t) <==> lists[t] != [])
    ensures HasNext(pb, p, t) ==> Front(pb, p, t) == lists[t][0]
  {
  }

  lemma LeftStep(pb: Problem, p: seq<Action>, lists: seq<seq<Action>>, a: Action)
    requires WellFormed(pb) && Left(pb, p, lists) && MayTake(pb, p, a)
    ensures a.tid < |lists| && lists[a.tid] != [] && Left(pb, p + [a], lists[a.tid := lists[a.tid][1..]])
  {
    TakenFront(pb, p, a);
    forall t: nat ensures Count(p + [a], t) == Count(p, t) + if a.tid == t then 1 else 0 {
      OneMore(p, a, t);
    }
  }

  /** What is taken of each thread is the beginning of its list. */
  lemma {:induction false} TakenInOrder(pb: Problem, o: seq<Action>, t: nat)
    requires WellFormed(pb) && Possible(pb, o) && t < |pb.lists|
    ensures Count(o, t) <= |pb.lists[t]| && OfThread(o, t) == pb.lists[t][..Count(o, t)]
  {
    hide WellFormed, Possible, MayTake, Count, OfThread;
    if o != [] {
      var p, a := o[..|o| - 1], o[|o| - 1];
      PossiblePrefix(pb, o, |o| - 1);
      PossibleAt(pb, o, |o| - 1);
      TakenInOrder(pb, p, t);
      TakenFront(pb, p, a);
      OneMore(p, a, t);
      assert o == p + [a];
      if a.tid == t {
        LongerSlice(pb.lists[t], Count(p, t));
      }
    } else {
      NoneTaken(t);
    }
  }

  lemma NoneTaken(t: nat)
    ensures Count([], t) == 0 && OfThread([], t) == []
  {
  }

  lemma OneMore(p: seq<Action>, a: Action, t: nat)
    ensures Count(p + [a], t) == Count(p, t) + if a.tid == t then 1 else 0
    ensures OfThread(p + [a], t) == OfThread(p, t) + if a.tid == t then [a] else []
  {
    assert (p + [a])[..|p|] == p;
  }

  lemma LongerSlice(acts: seq<Action>, n: nat)
    requires n < |acts|
    ensures acts[..n + 1] == acts[..n] + [acts[n]]
  {
  }

  /** Every action taken is the first one left of its thread. */
  lemma TakenFront(pb: Problem, p: seq<Action>, a: Action)
    requires WellFormed(pb) && MayTake(pb, p, a)
    ensures HasNext(pb, p, a.tid) && a == Front(pb, p, a.tid)
  {
    var t :| 0 <= t < |pb.lists| && HasNext(pb, p, t) && Front(pb, p, t) == a;
    FrontThread(pb, p, t);
  }

  /** A complete order interleaves the lists of all threads. */
  lemma CompleteInterleaves(pb: Problem, o: seq<Action>, t: nat)
    requires WellFormed(pb) && Possible(pb, o) && Complete(pb, o) && t < |pb.lists|
    ensures OfThread(o, t) == pb.lists[t]
  {
    TakenInOrder(pb, o, t);
    if HasNext(pb, o, t) {
      SomethingIsNext(pb, o, t);
    }
  }

  // ---------------------------------------------------------------- choices

  function IndexOf(acts: seq<Action>, a: Action): (k: nat)
    requires a in acts
    ensures k < |acts| && acts[k] == a
  {
    if acts[0] == a then 0 else 1 + IndexOf(acts[1..], a)
  }

  lemma OneMoreDistinct(acts: seq<Action>, a: Action, n: nat)
    requires a.tid + 1 == n && (forall b <- acts :: b.tid < n - 1) && forall j, k :: 0 <= j < k < |acts| ==>
      acts[j] != acts[k]
    ensures (forall b <- acts + [a] :: b.tid < n) && forall j, k :: 0 <= j < k < |acts + [a]| ==>
      (acts + [a])[j] != (acts + [a])[k]
  {
    forall j, k | 0 <= j < k < |acts + [a]| ensures (acts + [a])[j] != (acts + [a])[k] {
      assert acts[j] in acts;
    }
  }

  lemma FrontThread(pb: Problem, p: seq<Action>, t: nat)
    requires WellFormed(pb) && HasNext(pb, p, t)
    ensures Front(pb, p, t).tid == t
  {
  }

  lemma {:induction false} UnblockedDistinct(pb: Problem, p: seq<Action>, cv: Action -> ClockVector, n: nat)
    requires WellFormed(pb) && n <= |pb.lists|
    ensures var acts := Unblocked(pb, p, cv, n);
      (forall a <- acts :: a.tid < n) && (forall j, k :: 0 <= j < k < |acts| ==> acts[j] != acts[k])
  {
    hide HbForward, PruneInRange, Blocked;
    if n > 0 {
      UnblockedDistinct(pb, p, cv, n - 1);
      if HasNext(pb, p, n - 1) {
        FrontThread(pb, p, n - 1);
        OneMoreDistinct(Unblocked(pb, p, cv, n - 1), Front(pb, p, n - 1), n);
      }
      hide WellFormed, HasNext, Front;
    }
  }

  lemma {:induction false} IndexUnique(acts: seq<Action>, k: nat)
    requires k < |acts| && forall i, j :: 0 <= i < j < |acts| ==> acts[i] != acts[j]
    ensures IndexOf(acts, acts[k]) == k
  {
    if k > 0 {
      assert acts[1..][k - 1] == acts[k];
      IndexUnique(acts[1..], k - 1);
    }
  }

  lemma NextIndex(pb: Problem, p: seq<Action>, k: nat)
    requires WellFormed(pb) && k < |NextActions(pb, p)|
    ensures IndexOf(NextActions(pb, p), NextActions(pb, p)[k]) == k
  {
    UnblockedDistinct(pb, p, Vectors(pb, p), |pb.lists|);
    UnblockedDistinct(pb, p, pb.hb, |pb.lists|);
    IndexUnique(NextActions(pb, p), k);
  }

  /** The number of the option taken at position `i`, among those there were. */
  function Taken(pb: Problem, o: seq<Action>, i: nat): nat
    requires i < |o| && o[i] in NextActions(pb, o[..i])
  {
    IndexOf(NextActions(pb, o[..i]), o[i])
  }

  /** The numbers of the options taken, choice by choice. */
  function Log(pb: Problem, o: seq<Action>): (log: seq<nat>)
    ensures |log| <= |o|
  {
    if o == [] then [] else
    var p, a := o[..|o| - 1], o[|o| - 1];
    Log(pb, p) + if IsChoice(pb, p) && a in NextActions(pb, p) then [IndexOf(NextActions(pb, p), a)] else []
  }

  lemma LogStep(pb: Problem, o: seq<Action>, a: Action)
    requires MayTake(pb, o, a)
    ensures Log(pb, o + [a]) == Log(pb, o) + if IsChoice(pb, o) then [IndexOf(NextActions(pb, o), a)] else []
  {
    assert (o + [a])[..|o|] == o;
  }

  lemma {:induction false} LogPrefix(pb: Problem, o: seq<Action>, n: nat)
    requires n <= |o|
    ensures Log(pb, o[..n]) <= Log(pb, o)
    decreases |o| - n
  {
    if n < |o| {
      assert o[..|o| - 1][..n] == o[..n];
      LogPrefix(pb, o[..|o| - 1], n);
    } else {
      assert o[..n] == o;
    }
  }

  lemma TakenIsNext(pb: Problem, p: seq<Action>, a: Action)
    requires MayTake(pb, p, a)
    ensures a in NextActions(pb, p)
  {
  }

  lemma PrefixEntry(before: seq<nat>, k: nat, log: seq<nat>)
    requires before + [k] <= log
    ensures |before| < |log| && log[|before|] == k
  {
    assert (before + [k])[|before|] == k;
  }

  /** The option of the choice at position `i` is in the log. */
  lemma LogAt(pb: Problem, o: seq<Action>, i: nat)
    requires Possible(pb, o) && i < |o| && IsChoice(pb, o[..i])
    ensures |Log(pb, o[..i])| < |Log(pb, o)| && MayTake(pb, o[..i], o[i])
    ensures Log(pb, o)[|Log(pb, o[..i])|] == IndexOf(NextActions(pb, o[..i]), o[i])
  {
    hide Possible, IsChoice, NextActions, Pruned, Log, MayTake, IndexOf;
    PossibleAt(pb, o, i);
    TakenIsNext(pb, o[..i], o[i]);
    var k := IndexOf(NextActions(pb, o[..i]), o[i]);
    hide *;
    LogStep(pb, o[..i], o[i]);
    assert o[..i] + [o[i]] == o[..i + 1];
    LogPrefix(pb, o, i + 1);
    PrefixEntry(Log(pb, o[..i]), k, Log(pb, o));
  }

  // ---------------------------------------------------------------- what is still ahead

  /** At position `i`, another option is left than the one that `o` took. */
  predicate MoreAt(pb: Problem, o: seq<Action>, i: nat)
    requires i < |o|
  {
    IsChoice(pb, o[..i]) && o[i] in NextActions(pb, o[..i]) && Taken(pb, o, i) + 1 < |NextActions(pb, o[..i])|
  }

  /** The order `o` leaves `cur` at a choice, by a later option. */
  ghost predicate LaterAt(pb: Problem, cur: seq<Action>, o: seq<Action>, i: nat)
    requires i < |cur| && i < |o|
  {
    && o[..i] == cur[..i] && IsChoice(pb, cur[..i])
    && o[i] in NextActions(pb, o[..i]) && cur[i] in NextActions(pb, cur[..i])
    && Taken(pb, cur, i) < Taken(pb, o, i)
  }

  ghost predicate Later(pb: Problem, cur: seq<Action>, o: seq<Action>) {
    exists i: nat :: i < |cur| && i < |o| && LaterAt(pb, cur, o, i)
  }

  /** All good orders go on from `cur` or come later. */
  ghost predicate Ahead(pb: Problem, cur: seq<Action>) {
    forall o :: Good(pb, o) ==> cur <= o || Later(pb, cur, o)
  }

  lemma LaterMore(pb: Problem, cur: seq<Action>, o: seq<Action>, i: nat)
    requires i < |cur| && i < |o| && LaterAt(pb, cur, o, i)
    ensures MoreAt(pb, cur, i)
  {
  }

  lemma LaterLonger(pb: Problem, cur: seq<Action>, a: Action, o: seq<Action>)
    requires Later(pb, cur, o)
    ensures Later(pb, cur + [a], o)
  {
    hide IsChoice, NextActions, IndexOf;
    var i: nat :| i < |cur| && i < |o| && LaterAt(pb, cur, o, i);
    var cur' := cur + [a];
    assert cur'[..i] == cur[..i] && cur'[i] == cur[i];
    assert LaterAt(pb, cur', o, i);
  }

  /** A good order that begins with `cur` goes on by an option no earlier than the one taken. */
  lemma AheadStep(pb: Problem, cur: seq<Action>, a: Action)
    requires Ahead(pb, cur) && MayTake(pb, cur, a)
    requires IsChoice(pb, cur) ==> IndexOf(NextActions(pb, cur), a) == 0
    ensures Ahead(pb, cur + [a])
  {
    hide Good, NextActions, Pruned;
    forall o | Good(pb, o) ensures cur + [a] <= o || Later(pb, cur + [a], o) {
      if cur <= o {
        NextOfGood(pb, cur, o);
        var b := o[|cur|];
        if b == a {
          assert cur + [a] == o[..|cur| + 1];
        } else {
          assert IsChoice(pb, cur) by { OnlyChoicesDiffer(pb, cur, a, b); }
          var cur' := cur + [a];
          assert cur'[..|cur|] == cur == o[..|cur|];
          assert LaterAt(pb, cur', o, |cur|);
        }
      } else {
        LaterLonger(pb, cur, a, o);
      }
    }
  }

  lemma OnlyChoicesDiffer(pb: Problem, cur: seq<Action>, a: Action, b: Action)
    requires MayTake(pb, cur, a) && MayTake(pb, cur, b) && a != b
    ensures IsChoice(pb, cur)
  {
  }

  lemma WholePrefix(p: seq<Action>, o: seq<Action>)
    requires p <= o && |p| == |o|
    ensures p == o
  {
  }

  lemma NextOfGood(pb: Problem, cur: seq<Action>, o: seq<Action>)
    requires Good(pb, o) && cur <= o && NextActions(pb, cur) != []
    ensures |cur| < |o| && MayTake(pb, cur, o[|cur|])
  {
    hide NextActions, Pruned;
    assert cur == o[..|cur|];
    if |cur| == |o| {
      WholePrefix(cur, o);
    }
    assert MayTake(pb, o[..|cur|], o[|cur|]);
  }

  /** A good order comes later than `cur`, hence not before the next option at the last position where there is one. */
  lemma LaterAfterCycle(pb: Problem, cur: seq<Action>, i: nat, next: Action, o: seq<Action>, j: nat)
    requires i < |cur| && MoreAt(pb, cur, i) && j <= i && j < |o| && LaterAt(pb, cur, o, j)
    requires next == NextActions(pb, cur[..i])[Taken(pb, cur, i) + 1]
    requires IndexOf(NextActions(pb, cur[..i]), next) == Taken(pb, cur, i) + 1
    ensures cur[..i] + [next] <= o || Later(pb, cur[..i] + [next], o)
  {
    hide NextActions, IsChoice;
    var q := cur[..i];
    var t := q + [next];
    if j < i {
      assert t[..j] == cur[..j] && t[j] == cur[j];
      assert LaterAt(pb, t, o, j);
    } else {
      assert t[..i] == q == o[..i];
      if o[i] == next {
        assert t == o[..i + 1];
      } else {
        TakenDiffers(pb, o, i, next);
        assert LaterAt(pb, t, o, i);
      }
    }
  }

  lemma IndexOfNext(pb: Problem, cur: seq<Action>, i: nat)
    requires WellFormed(pb) && i < |cur| && MoreAt(pb, cur, i)
    ensures var k := Taken(pb, cur, i) + 1; IndexOf(NextActions(pb, cur[..i]), NextActions(pb, cur[..i])[k]) == k
  {
    NextIndex(pb, cur[..i], Taken(pb, cur, i) + 1);
  }

  lemma AfterCycle(pb: Problem, cur: seq<Action>, i: nat, next: Action, o: seq<Action>)
    requires i < |cur| && MoreAt(pb, cur, i) && Later(pb, cur, o)
    requires forall j :: i < j < |cur| ==> !MoreAt(pb, cur, j)
    requires next == NextActions(pb, cur[..i])[Taken(pb, cur, i) + 1]
    requires IndexOf(NextActions(pb, cur[..i]), next) == Taken(pb, cur, i) + 1
    ensures cur[..i] + [next] <= o || Later(pb, cur[..i] + [next], o)
  {
    hide Later, LaterAt, MoreAt, NextActions, IndexOf, Taken;
    var j := LaterPosition(pb, cur, o);
    LaterMore(pb, cur, o, j);
    LaterAfterCycle(pb, cur, i, next, o, j);
  }

  /** After a cycle at the end of `cur`, the search goes on at the last position where an option is left. */
  lemma AheadAfterCycle(pb: Problem, cur: seq<Action>, i: nat, next: Action)
    requires WellFormed(pb) && Ahead(pb, cur) && Cyclic(pb, cur) && i < |cur| && MoreAt(pb, cur, i)
    requires forall j :: i < j < |cur| ==> !MoreAt(pb, cur, j)
    requires next == NextActions(pb, cur[..i])[Taken(pb, cur, i) + 1]
    ensures Ahead(pb, cur[..i] + [next])
  {
    hide Good, WellFormed, Cyclic, Later, NextActions, Taken, IndexOf;
    IndexOfNext(pb, cur, i);
    hide MoreAt;
    forall o | Good(pb, o) ensures cur[..i] + [next] <= o || Later(pb, cur[..i] + [next], o) {
      GoodIsAcyclic(pb, cur, o);
      AfterCycle(pb, cur, i, next, o);
    }
  }

  lemma LaterPosition(pb: Problem, cur: seq<Action>, o: seq<Action>) returns (j: nat)
    requires Later(pb, cur, o)
    ensures j < |cur| && j < |o| && LaterAt(pb, cur, o, j)
  {
    j :| j < |cur| && j < |o| && LaterAt(pb, cur, o, j);
  }

  lemma TakenDiffers(pb: Problem, o: seq<Action>, i: nat, next: Action)
    requires i < |o| && o[i] in NextActions(pb, o[..i]) && next in NextActions(pb, o[..i]) && o[i] != next
    ensures Taken(pb, o, i) != IndexOf(NextActions(pb, o[..i]), next)
  {
  }

  lemma GoodIsAcyclic(pb: Problem, cur: seq<Action>, o: seq<Action>)
    requires Good(pb, o) && Cyclic(pb, cur)
    ensures !(cur <= o)
  {
    if cur <= o {
      PrefixCyclic(pb, cur, o);
    }
  }

  /** After a cycle with no option left, there is no good order. */
  lemma NothingAhead(pb: Problem, cur: seq<Action>)
    requires Ahead(pb, cur) && Cyclic(pb, cur) && forall j: nat :: j < |cur| ==> !MoreAt(pb, cur, j)
    ensures forall o :: !Good(pb, o)
  {
    hide Good, NextActions, IsChoice;
    forall o ensures !Good(pb, o) {
      if Good(pb, o) {
        GoodIsAcyclic(pb, cur, o);
        var j: nat :| j < |cur| && j < |o| && LaterAt(pb, cur, o, j);
        LaterMore(pb, cur, o, j);
      }
    }
  }

  // ---------------------------------------------------------------- the rank of the choices

  function Power(b: nat, n: nat): nat {
    if n == 0 then 1 else b * Power(b, n - 1)
  }

  /** The choices as a number of `n` digits in base `b`. */
  function Rank(log: seq<nat>, b: nat, n: nat): nat {
    if n == 0 || log == [] then 0 else log[0] * Power(b, n - 1) + Rank(log[1..], b, n - 1)
  }

  predicate Digits(log: seq<nat>, b: nat) {
    forall i :: 0 <= i < |log| ==> log[i] < b
  }

  lemma DigitStep(d: nat, b: nat, p: nat, r: nat)
    requires d < b && r < p
    ensures d * p + r < b * p
  {
    DigitProduct(d, b - d, p);
  }

  lemma DigitProduct(d: nat, e: nat, p: nat)
    requires e >= 1
    ensures (d + e) * p >= d * p + p
  {
    assert (d + e) * p == d * p + e * p;
  }

  lemma {:induction false} RankBound(log: seq<nat>, b: nat, n: nat)
    requires Digits(log, b) && b > 0
    ensures Rank(log, b, n) < Power(b, n)
    decreases n
  {
    if n > 0 {
      RankBound(if log == [] then [] else log[1..], b, n - 1);
      if log != [] {
        DigitStep(log[0], b, Power(b, n - 1), Rank(log[1..], b, n - 1));
      } else {
        DigitStep(0, b, Power(b, n - 1), 0);
      }
    }
  }

  lemma {:induction false} RankPad(log: seq<nat>, b: nat, n: nat)
    ensures Rank(log + [0], b, n) == Rank(log, b, n)
    decreases n
  {
    if n > 0 {
      if log != [] {
        RankPad(log[1..], b, n - 1);
        assert (log + [0])[1..] == log[1..] + [0];
      } else {
        assert ([] + [0])[1..] == [];
      }
    }
  }

  /** The next option at the last choice that has one makes the number larger, whatever came after it. */
  lemma {:induction false} RankGrows(log: seq<nat>, i: nat, b: nat, n: nat)
    requires Digits(log, b) && b > 0 && i < |log| <= n
    ensures Rank(log[..i] + [log[i] + 1], b, n) > Rank(log, b, n)
    decreases n
  {
    var log' := log[..i] + [log[i] + 1];
    if i == 0 {
      RankBound(log[1..], b, n - 1);
      assert log'[1..] == [];
      NextDigit(log[0], Power(b, n - 1), Rank(log[1..], b, n - 1));
    } else {
      RankGrows(log[1..], i - 1, b, n - 1);
      assert log'[1..] == log[1..][..i - 1] + [log[1..][i - 1] + 1];
    }
  }

  lemma NextDigit(d: nat, p: nat, r: nat)
    requires r < p
    ensures (d + 1) * p > d * p + r
  {
    assert (d + 1) * p == d * p + p;
  }

  // ---------------------------------------------------------------- the number of actions

  function Total(lists: seq<seq<Action>>): nat {
    if lists == [] then 0 else |lists[|lists| - 1]| + Total(lists[..|lists| - 1])
  }

  function SumCounts(o: seq<Action>, n: nat): nat {
    if n == 0 then 0 else Count(o, n - 1) + SumCounts(o, n - 1)
  }

  lemma {:induction false} SumStep(o: seq<Action>, a: Action, n: nat)
    ensures SumCounts(o + [a], n) == SumCounts(o, n) + if a.tid < n then 1 else 0
  {
    if n > 0 {
      SumStep(o, a, n - 1);
      assert (o + [a])[..|o|] == o;
    }
  }

  lemma {:induction false} SumIsLength(pb: Problem, o: seq<Action>)
    requires WellFormed(pb) && Possible(pb, o)
    ensures SumCounts(o, |pb.lists|) == |o|
  {
    hide Possible, WellFormed, MayTake, Count;
    if o == [] {
      SumOfNone(|pb.lists|);
    } else {
      var p, a := o[..|o| - 1], o[|o| - 1];
      PossiblePrefix(pb, o, |o| - 1);
      PossibleAt(pb, o, |o| - 1);
      TakenFront(pb, p, a);
      hide *;
      SumIsLength(pb, p);
      SumStep(p, a, |pb.lists|);
      assert p + [a] == o;
    }
  }

  lemma {:induction false} SumOfNone(n: nat)
    ensures SumCounts([], n) == 0
  {
    if n > 0 {
      SumOfNone(n - 1);
    }
  }

  lemma {:induction false} SumBound(pb: Problem, o: seq<Action>, n: nat)
    requires WellFormed(pb) && Possible(pb, o) && n <= |pb.lists|
    ensures SumCounts(o, n) <= Total(pb.lists[..n])
  {
    if n > 0 {
      SumBound(pb, o, n - 1);
      CountBound(pb, o, n - 1);
      assert pb.lists[..n][..n - 1] == pb.lists[..n - 1];
    }
  }

  /** An order is no longer than there are actions, and nor is its log. */
  lemma LengthBound(pb: Problem, o: seq<Action>)
    requires WellFormed(pb) && Possible(pb, o)
    ensures |Log(pb, o)| <= |o| <= Total(pb.lists)
  {
    SumIsLength(pb, o);
    SumBound(pb, o, |pb.lists|);
    assert pb.lists[..|pb.lists|] == pb.lists;
  }

  lemma {:induction false} LogDigits(pb: Problem, o: seq<Action>)
    ensures Digits(Log(pb, o), |pb.lists|)
  {
    if o != [] {
      LogDigits(pb, o[..|o| - 1]);
    }
  }

  // ---------------------------------------------------------------- the state of the search

  /** The longer of the two: what is chosen already, or chosen and still to be chosen again. */
  function Longer(cur: seq<Action>, target: seq<Action>): seq<Action> {
    if |cur| < |target| then target else cur
  }

  /** The choices made so far and, up to the last one that was changed, those to be made again. */
  ghost predicate Replaying(pb: Problem, cur: seq<Action>, target: seq<Action>, choices: seq<nat>, currchoice: nat,
      endchoice: nat) {
    && Possible(pb, cur) && Possible(pb, target) && (cur <= target || target <= cur)
    && currchoice == |Log(pb, cur)| && endchoice == |Log(pb, target)|
    && (target != [] ==> IsChoice(pb, target[..|target| - 1]))
    && Log(pb, cur) <= choices && Log(pb, target) <= choices
  }

  /** `lastchoice` is the number of the last choice, at position `at`, that has another option; -1 if there is none. */
  ghost predicate Marked(pb: Problem, cur: seq<Action>, lastchoice: int, at: int) {
    if lastchoice == -1 then at == -1 && forall j: nat :: j < |cur| ==> !MoreAt(pb, cur, j)
    else 0 <= at < |cur| && MoreAt(pb, cur, at) && |Log(pb, cur[..at])| == lastchoice && forall j: nat ::
      at < j < |cur| ==> !MoreAt(pb, cur, j)
  }

  lemma MoreAtStep(pb: Problem, cur: seq<Action>, a: Action, j: nat)
    requires j < |cur|
    ensures MoreAt(pb, cur + [a], j) == MoreAt(pb, cur, j)
  {
    assert (cur + [a])[..j] == cur[..j];
  }

  lemma MarkedStep(pb: Problem, cur: seq<Action>, a: Action, lastchoice: int, at: int)
    requires Marked(pb, cur, lastchoice, at) && MayTake(pb, cur, a)
    ensures if LeavesMore(pb, cur, a) then Marked(pb, cur + [a], |Log(pb, cur)|, |cur|)
      else Marked(pb, cur + [a], lastchoice, at)
  {
    var cur' := cur + [a];
    hide NextActions, Log, Pruned;
    assert cur'[..|cur|] == cur;
    forall j: nat | j < |cur| ensures MoreAt(pb, cur', j) == MoreAt(pb, cur, j) {
      MoreAtStep(pb, cur, a, j);
    }
    if 0 <= at < |cur| {
      assert cur'[..at] == cur[..at];
    }
  }

  lemma EntryOfPrefix(log: seq<nat>, choices: seq<nat>, k: nat)
    requires log <= choices && k < |log|
    ensures k < |choices| && choices[k] == log[k]
  {
  }

  /** While the target is ahead, the choices lead along it. */
  lemma FollowTarget(pb: Problem, cur: seq<Action>, target: seq<Action>, choices: seq<nat>, currchoice: nat,
      endchoice: nat)
    requires Replaying(pb, cur, target, choices, currchoice, endchoice) && |cur| < |target|
    ensures MayTake(pb, cur, target[|cur|]) && cur + [target[|cur|]] <= target
    ensures IsChoice(pb, cur) ==> currchoice < endchoice <= |choices| && target[|cur|] in NextActions(pb, cur)
    ensures IsChoice(pb, cur) ==> IndexOf(NextActions(pb, cur), target[|cur|]) == choices[currchoice]
  {
    hide NextActions, IsChoice, Log, Possible, MayTake, IndexOf;
    assert cur == target[..|cur|];
    PossibleAt(pb, target, |cur|);
    TakenIsNext(pb, cur, target[|cur|]);
    if IsChoice(pb, cur) {
      LogAt(pb, target, |cur|);
      EntryOfPrefix(Log(pb, target), choices, |Log(pb, cur)|);
    }
  }

  /** Behind the target, a choice is a new one. */
  lemma BehindTarget(pb: Problem, cur: seq<Action>, target: seq<Action>, choices: seq<nat>, currchoice: nat,
      endchoice: nat)
    requires Replaying(pb, cur, target, choices, currchoice, endchoice) && |target| <= |cur|
    ensures endchoice <= currchoice
  {
    assert target == cur[..|target|];
    LogPrefix(pb, cur, |target|);
  }

  /** The rank of the choices that stand. */
  function Standing(pb: Problem, cur: seq<Action>, target: seq<Action>): nat {
    Rank(Log(pb, Longer(cur, target)), |pb.lists|, Total(pb.lists))
  }

  lemma StandingBound(pb: Problem, cur: seq<Action>, target: seq<Action>)
    requires |pb.lists| > 0
    ensures Standing(pb, cur, target) < Power(|pb.lists|, Total(pb.lists))
  {
    LogDigits(pb, Longer(cur, target));
    RankBound(Log(pb, Longer(cur, target)), |pb.lists|, Total(pb.lists));
  }

  /** A step along the target. */
  lemma ReplayStep(pb: Problem, cur: seq<Action>, target: seq<Action>, choices: seq<nat>, currchoice: nat,
      endchoice: nat, a: Action)
    requires WellFormed(pb) && Replaying(pb, cur, target, choices, currchoice, endchoice) && |cur| < |target| &&
      a == target[|cur|]
    ensures MayTake(pb, cur, a)
    ensures Replaying(pb, cur + [a], target, choices,
      if IsChoice(pb, cur) then currchoice + 1 else currchoice, endchoice)
    ensures Longer(cur + [a], target) == Longer(cur, target) == target
  {
    hide NextActions, IsChoice, Log, Possible, MayTake, WellFormed;
    FollowTarget(pb, cur, target, choices, currchoice, endchoice);
    PossibleStep(pb, cur, a);
    LogStep(pb, cur, a);
    var cur' := cur + [a];
    assert cur' == target[..|cur'|];
    LogPrefix(pb, target, |cur'|);
    if |cur'| == |target| {
      assert cur' == target;
    }
  }

  lemma ExtendPrefix(log: seq<nat>, k: nat, choices: seq<nat>)
    requires log <= choices && |log| < |choices|
    ensures log + [k] <= choices[|log| := k]
  {
  }

  lemma KeepPrefix(log: seq<nat>, n: nat, k: nat, choices: seq<nat>)
    requires log <= choices && |log| <= n < |choices|
    ensures log <= choices[n := k]
  {
  }

  lemma PrefixGrows(target: seq<Action>, cur: seq<Action>, a: Action)
    requires cur <= target || target <= cur
    requires |target| <= |cur|
    ensures target <= cur + [a]
  {
    if cur <= target {
      WholePrefix(cur, target);
    }
  }

  /** A step behind the target: a new choice begins with the first option. */
  lemma FreshStep(pb: Problem, cur: seq<Action>, target: seq<Action>, choices: seq<nat>, currchoice: nat,
      endchoice: nat, a: Action, choices': seq<nat>)
    requires Replaying(pb, cur, target, choices, currchoice, endchoice) && |target| <= |cur| && MayTake(pb, cur, a)
    requires IsChoice(pb, cur) ==>
      currchoice < |choices| && IndexOf(NextActions(pb, cur), a) == 0 && choices' == choices[currchoice := 0]
    requires !IsChoice(pb, cur) ==> choices' == choices
    ensures Replaying(pb, cur + [a], target, choices',
      if IsChoice(pb, cur) then currchoice + 1 else currchoice, endchoice)
  {
    hide NextActions, IsChoice, Log, Possible, MayTake, IndexOf;
    BehindTarget(pb, cur, target, choices, currchoice, endchoice);
    PossibleStep(pb, cur, a);
    LogStep(pb, cur, a);
    PrefixGrows(target, cur, a);
    var log := Log(pb, cur + [a]);
    if IsChoice(pb, cur) {
      ExtendPrefix(Log(pb, cur), 0, choices);
      KeepPrefix(Log(pb, target), currchoice, 0, choices);
    } else {
      assert log == Log(pb, cur);
    }
  }

  /** The first option of a new choice leaves the rank as it is. */
  lemma FreshStanding(pb: Problem, cur: seq<Action>, target: seq<Action>, a: Action)
    requires |target| <= |cur| && MayTake(pb, cur, a)
    requires IsChoice(pb, cur) ==> IndexOf(NextActions(pb, cur), a) == 0
    ensures Standing(pb, cur + [a], target) == Standing(pb, cur, target)
  {
    hide NextActions, IsChoice, Log, MayTake, IndexOf, Rank, Total;
    LogStep(pb, cur, a);
    RankPad(Log(pb, cur), |pb.lists|, Total(pb.lists));
    if !IsChoice(pb, cur) {
      assert Log(pb, cur + [a]) == Log(pb, cur);
    }
  }

  lemma AheadPrefix(pb: Problem, cur: seq<Action>, target: seq<Action>)
    requires Ahead(pb, target) && cur <= target
    ensures Ahead(pb, cur)
  {
    hide Good;
    forall o | Good(pb, o) ensures cur <= o || Later(pb, cur, o) {
      if !(target <= o) {
        LaterPrefix(pb, cur, target, o);
      }
    }
  }

  lemma LaterPrefix(pb: Problem, cur: seq<Action>, target: seq<Action>, o: seq<Action>)
    requires Later(pb, target, o) && cur <= target
    ensures cur <= o || Later(pb, cur, o)
  {
    hide IsChoice, NextActions;
    var i: nat :| i < |target| && i < |o| && LaterAt(pb, target, o, i);
    if i < |cur| {
      assert cur[..i] == target[..i];
      assert LaterAt(pb, cur, o, i);
    } else {
      assert target[..i] == o[..i];
      assert cur == target[..i][..|cur|];
    }
  }

  lemma RaisedPrefix(log: seq<nat>, l: nat, choices: seq<nat>)
    requires log <= choices && l < |log|
    ensures log[..l] + [log[l] + 1] <= choices[l := choices[l] + 1]
  {
  }

  /** The order that the next option at position `at` begins. */
  function NextOption(pb: Problem, cur: seq<Action>, at: nat): seq<Action>
    requires at < |cur| && MoreAt(pb, cur, at)
  {
    cur[..at] + [NextActions(pb, cur[..at])[Taken(pb, cur, at) + 1]]
  }

  lemma NextOptionIsPossible(pb: Problem, cur: seq<Action>, at: nat)
    requires WellFormed(pb) && Possible(pb, cur) && at < |cur| && MoreAt(pb, cur, at)
    ensures Possible(pb, NextOption(pb, cur, at))
  {
    hide NextActions, Possible, IsChoice, Taken, WellFormed;
    PossiblePrefix(pb, cur, at);
    ChoiceTaken(pb, cur[..at], NextActions(pb, cur[..at])[Taken(pb, cur, at) + 1]);
    PossibleStep(pb, cur[..at], NextActions(pb, cur[..at])[Taken(pb, cur, at) + 1]);
  }

  /** The next option raises the number of its choice by one. */
  lemma NextOptionLog(pb: Problem, cur: seq<Action>, at: nat)
    requires WellFormed(pb) && Possible(pb, cur) && at < |cur| && MoreAt(pb, cur, at)
    ensures var l := |Log(pb, cur[..at])|; var log := Log(pb, cur);
      l < |log| && Log(pb, NextOption(pb, cur, at)) == log[..l] + [log[l] + 1]
  {
    hide NextActions, Possible, IsChoice, WellFormed, Log, MayTake, IndexOf;
    var q, k := cur[..at], Taken(pb, cur, at) + 1;
    var next := NextActions(pb, q)[k];
    ChoiceTaken(pb, q, next);
    NextIndex(pb, q, k);
    LogStep(pb, q, next);
    LogAt(pb, cur, at);
    LogPrefix(pb, cur, at);
    hide Taken;
    assert Log(pb, cur)[..|Log(pb, q)|] == Log(pb, q);
  }

  /** The choices after a cycle, from which the search starts anew. */
  lemma RollbackState(pb: Problem, cur: seq<Action>, target: seq<Action>, choices: seq<nat>, currchoice: nat,
      endchoice: nat, lastchoice: nat, at: nat)
    requires WellFormed(pb) && Replaying(pb, cur, target, choices, currchoice, endchoice) &&
      Marked(pb, cur, lastchoice, at)
    ensures at < |cur| && MoreAt(pb, cur, at) && lastchoice < |choices|
    ensures Replaying(pb, [], NextOption(pb, cur, at), choices[lastchoice := choices[lastchoice] + 1], 0,
      lastchoice + 1)
    ensures Marked(pb, [], -1, -1)
  {
    hide NextActions, IsChoice, Possible, WellFormed, MoreAt, Log, Taken;
    MarkedChoice(pb, cur, lastchoice, at);
    NextOptionIsPossible(pb, cur, at);
    NextOptionLog(pb, cur, at);
    EmptyLog(pb);
    RaisedPrefix(Log(pb, cur), lastchoice, choices);
    var target' := NextOption(pb, cur, at);
    assert target'[..|target'| - 1] == cur[..at];
    EntryOfPrefix(Log(pb, cur), choices, lastchoice);
  }

  /** Nothing good is lost by starting anew, and the choices have become larger. */
  lemma RollbackProgress(pb: Problem, cur: seq<Action>, target: seq<Action>, choices: seq<nat>, currchoice: nat,
      endchoice: nat, lastchoice: nat, at: nat)
    requires WellFormed(pb) && |pb.lists| > 0 && Replaying(pb, cur, target, choices, currchoice, endchoice) &&
      Marked(pb, cur, lastchoice, at)
    requires Ahead(pb, Longer(cur, target)) && Cyclic(pb, cur)
    ensures at < |cur| && MoreAt(pb, cur, at)
    ensures Ahead(pb, NextOption(pb, cur, at)) && Standing(pb, [], NextOption(pb, cur, at)) > Standing(pb, cur, target)
  {
    hide NextActions, IsChoice, Possible, WellFormed, MoreAt, Log, Taken, Ahead, Cyclic, Standing;
    MarkedChoice(pb, cur, lastchoice, at);
    NextOptionLog(pb, cur, at);
    AheadPrefix(pb, cur, Longer(cur, target));
    AheadAfterCycle(pb, cur, at, NextActions(pb, cur[..at])[Taken(pb, cur, at) + 1]);
    RankRaised(pb, cur, target, lastchoice, NextOption(pb, cur, at));
  }

  lemma EmptyLog(pb: Problem)
    ensures Log(pb, []) == [] && Possible(pb, [])
  {
  }

  lemma ChoiceTaken(pb: Problem, q: seq<Action>, next: Action)
    requires IsChoice(pb, q) && next in NextActions(pb, q)
    ensures MayTake(pb, q, next)
  {
  }

  lemma MarkedChoice(pb: Problem, cur: seq<Action>, lastchoice: int, at: int)
    requires Marked(pb, cur, lastchoice, at) && lastchoice != -1
    ensures 0 <= at < |cur| && lastchoice >= 0 && IsChoice(pb, cur[..at]) && |Log(pb, cur[..at])| == lastchoice &&
      MoreAt(pb, cur, at)
  {
  }

  lemma RankRaised(pb: Problem, cur: seq<Action>, target: seq<Action>, l: nat, target': seq<Action>)
    requires WellFormed(pb) && |pb.lists| > 0 && Possible(pb, cur) && Possible(pb, target) &&
      (cur <= target || target <= cur)
    requires l < |Log(pb, cur)| && Log(pb, target') == Log(pb, cur)[..l] + [Log(pb, cur)[l] + 1] && target' != []
    ensures Standing(pb, [], target') > Standing(pb, cur, target)
  {
    hide Possible, WellFormed, Log, Rank;
    var longer := Longer(cur, target);
    assert cur == longer[..|cur|];
    LogPrefix(pb, longer, |cur|);
    var log := Log(pb, longer);
    assert Log(pb, cur)[..l] == log[..l] && Log(pb, cur)[l] == log[l];
    LogDigits(pb, longer);
    LengthBound(pb, longer);
    RankGrows(log, l, |pb.lists|, Total(pb.lists));
  }

  // ---------------------------------------------------------------- one step of the search

  /** What the search takes if it has no choice. */
  lemma PrunedIsTaken(pb: Problem, p: seq<Action>)
    requires WellFormed(pb) && NextActions(pb, p) != [] && !IsChoice(pb, p)
    ensures Pruned(pb, p).Some? && Pruned(pb, p).value < |NextActions(pb, p)|
    ensures forall a :: MayTake(pb, p, a) <==> a == NextActions(pb, p)[Pruned(pb, p).value]
  {
  }

  lemma EveryOptionMayBeTaken(pb: Problem, p: seq<Action>, k: nat)
    requires WellFormed(pb) && IsChoice(pb, p) && k < |NextActions(pb, p)|
    ensures MayTake(pb, p, NextActions(pb, p)[k]) && IndexOf(NextActions(pb, p), NextActions(pb, p)[k]) == k
  {
    NextIndex(pb, p, k);
  }

  /** There is room for one more choice. */
  lemma RoomForChoice(pb: Problem, cur: seq<Action>, a: Action)
    requires WellFormed(pb) && Possible(pb, cur) && MayTake(pb, cur, a)
    ensures |Log(pb, cur)| <= |cur| < Total(pb.lists)
  {
    PossibleStep(pb, cur, a);
    LengthBound(pb, cur + [a]);
  }

  /** Whether the action taken is one of several options and not the last one. */
  predicate LeavesMore(pb: Problem, p: seq<Action>, a: Action) {
    IsChoice(pb, p) && a in NextActions(pb, p) && IndexOf(NextActions(pb, p), a) + 1 < |NextActions(pb, p)|
  }

  /** A step by the option that the search takes. */
  ghost predicate Steps(pb: Problem, cur: seq<Action>, target: seq<Action>, choices: seq<nat>, currchoice: nat,
      endchoice: nat, a: Action, choices': seq<nat>)
  {
    && MayTake(pb, cur, a)
    && (!IsChoice(pb, cur) ==> choices' == choices)
    && (IsChoice(pb, cur) && currchoice < endchoice ==>
      currchoice < |choices| && choices' == choices && IndexOf(NextActions(pb, cur), a) == choices[currchoice])
    && (IsChoice(pb, cur) && endchoice <= currchoice ==>
      currchoice < |choices| && choices' == choices[currchoice := 0] && IndexOf(NextActions(pb, cur), a) == 0)
  }

  lemma AlongTarget(pb: Problem, cur: seq<Action>, target: seq<Action>, choices: seq<nat>, currchoice: nat,
      endchoice: nat, a: Action, choices': seq<nat>)
    requires WellFormed(pb) && Replaying(pb, cur, target, choices, currchoice, endchoice) && |cur| < |target|
    requires Steps(pb, cur, target, choices, currchoice, endchoice, a, choices')
    ensures a == target[|cur|] && choices' == choices
  {
    hide NextActions, Log, Possible, Replaying, WellFormed;
    FollowTarget(pb, cur, target, choices, currchoice, endchoice);
    if !IsChoice(pb, cur) {
      PrunedIsTaken(pb, cur);
    }
  }

  /** A step keeps the choices in line with the order, and all good orders ahead. */
  lemma StepKeeps(pb: Problem, cur: seq<Action>, target: seq<Action>, choices: seq<nat>, currchoice: nat,
      endchoice: nat, a: Action, choices': seq<nat>)
    requires WellFormed(pb) && Replaying(pb, cur, target, choices, currchoice, endchoice)
    requires Steps(pb, cur, target, choices, currchoice, endchoice, a, choices')
    ensures Replaying(pb, cur + [a], target, choices',
      if IsChoice(pb, cur) then currchoice + 1 else currchoice, endchoice)
    ensures Standing(pb, cur + [a], target) == Standing(pb, cur, target)
    ensures Ahead(pb, Longer(cur, target)) ==> Ahead(pb, Longer(cur + [a], target))
  {
    hide NextActions, IsChoice, Log, Possible, MayTake, IndexOf, Replaying, WellFormed, Ahead, Rank, Total;
    if |cur| < |target| {
      AlongTarget(pb, cur, target, choices, currchoice, endchoice, a, choices');
      ReplayStep(pb, cur, target, choices, currchoice, endchoice, a);
    } else {
      BehindTarget(pb, cur, target, choices, currchoice, endchoice);
      FreshStep(pb, cur, target, choices, currchoice, endchoice, a, choices');
      FreshStanding(pb, cur, target, a);
      if Ahead(pb, cur) {
        AheadStep(pb, cur, a);
      }
    }
  }

  lemma LongerThanNone(target: seq<Action>)
    ensures Longer([], target) == target
  {
  }

  lemma ReplayingOrder(pb: Problem, cur: seq<Action>, target: seq<Action>, choices: seq<nat>, currchoice: nat,
      endchoice: nat)
    requires Replaying(pb, cur, target, choices, currchoice, endchoice)
    ensures Possible(pb, cur) && currchoice == |Log(pb, cur)| && Log(pb, cur) <= choices
    ensures cur <= target || target <= cur
  {
  }

  /** A choice made before: the option is there. */
  lemma ReplayedOption(pb: Problem, cur: seq<Action>, target: seq<Action>, choices: seq<nat>, currchoice: nat,
      endchoice: nat)
    requires Replaying(pb, cur, target, choices, currchoice, endchoice) && currchoice < endchoice && IsChoice(pb, cur)
    ensures currchoice < |choices| && choices[currchoice] < |NextActions(pb, cur)|
  {
    if |target| <= |cur| {
      BehindTarget(pb, cur, target, choices, currchoice, endchoice);
    }
    FollowTarget(pb, cur, target, choices, currchoice, endchoice);
  }

  lemma ListsWellFormed(pb: Problem, list: seq<Action>)
    requires pb.lists == ThreadLists(list) && HbForward(pb) && PruneInRange(pb)
    ensures WellFormed(pb) && |pb.lists| > 0
  {
    forall t, i | 0 <= t < |pb.lists| && 0 <= i < |pb.lists[t]| ensures pb.lists[t][i].tid == t {
      ThreadListsSplit(list, t);
      assert pb.lists[t][i] in OfThread(list, t);
    }
  }

  lemma StartState(pb: Problem, choices: seq<nat>)
    ensures Replaying(pb, [], [], choices, 0, 0) && Marked(pb, [], -1, -1) && Ahead(pb, [])
    ensures Cyclic(pb, []) ==> forall o :: !Good(pb, o)
  {
    forall o | Cyclic(pb, []) ensures !Good(pb, o) {
      PrefixCyclic(pb, [], o);
    }
  }

  /** A cycle without an option left. */
  lemma CycleForGood(pb: Problem, cur: seq<Action>, target: seq<Action>, choices: seq<nat>, currchoice: nat,
      endchoice: nat, at: int)
    requires Replaying(pb, cur, target, choices, currchoice, endchoice)
    requires Marked(pb, cur, -1, at) && Ahead(pb, Longer(cur, target)) && Cyclic(pb, cur)
    ensures forall o :: !Good(pb, o)
  {
    hide Good, Cyclic, MoreAt;
    assert cur <= Longer(cur, target);
    AheadPrefix(pb, cur, Longer(cur, target));
    NothingAhead(pb, cur);
  }

  lemma EndOfSearch(pb: Problem, list: seq<Action>, o: seq<Action>)
    requires WellFormed(pb) && pb.lists == ThreadLists(list) && Possible(pb, o) && Complete(pb, o)
    ensures forall t :: OfThread(o, t) == OfThread(list, t)
    ensures !Cyclic(pb, o) ==> Good(pb, o)
  {
    hide WellFormed, Possible, Complete;
    forall t: nat ensures OfThread(o, t) == OfThread(list, t) {
      ThreadListsSplit(list, t);
      if t < |pb.lists| {
        CompleteInterleaves(pb, o, t);
      } else {
        NoneOfThread(pb, o, t);
      }
    }
  }

  lemma {:induction false} NoneOfThread(pb: Problem, o: seq<Action>, t: nat)
    requires WellFormed(pb) && Possible(pb, o) && |pb.lists| <= t
    ensures OfThread(o, t) == []
  {
    hide WellFormed, Possible, MayTake;
    if o != [] {
      PossiblePrefix(pb, o, |o| - 1);
      PossibleAt(pb, o, |o| - 1);
      NoneOfThread(pb, o[..|o| - 1], t);
      TakenFront(pb, o[..|o| - 1], o[|o| - 1]);
    }
  }

  // ---------------------------------------------------------------- what the search ends with

  /** Where there is a choice, `a` is the first option. */
  predicate FirstOption(pb: Problem, p: seq<Action>, a: Action) {
    IsChoice(pb, p) ==> a in NextActions(pb, p) && IndexOf(NextActions(pb, p), a) == 0
  }

  lemma FreshIsFirst(pb: Problem, cur: seq<Action>, target: seq<Action>, choices: seq<nat>, currchoice: nat,
      endchoice: nat, a: Action, choices': seq<nat>)
    requires Replaying(pb, cur, target, choices, currchoice, endchoice) && |target| <= |cur|
    requires Steps(pb, cur, target, choices, currchoice, endchoice, a, choices')
    ensures FirstOption(pb, cur, a)
  {
    hide Replaying, NextActions, IsChoice, Pruned;
    BehindTarget(pb, cur, target, choices, currchoice, endchoice);
  }

  /**
   * The first `n` actions of `o` are the first to have a cycle, there is no option
   * left among them, and after them the first options are taken.
   */
  ghost predicate LastResort(pb: Problem, o: seq<Action>, n: nat) {
    && n <= |o| && Cyclic(pb, o[..n]) && (n > 0 ==> !Cyclic(pb, o[..n - 1]))
    && (forall j: nat :: j < n ==> !MoreAt(pb, o, j))
    && (forall j: nat :: n <= j < |o| ==> FirstOption(pb, o[..j], o[j]))
  }

  lemma StartFresh(pb: Problem)
    ensures FreshTarget(pb, []) && (Cyclic(pb, []) ==> LastResort(pb, [], 0))
  {
  }

  lemma StartAcyclic(pb: Problem, p: seq<Action>)
    requires !Cyclic(pb, p)
    ensures !Cyclic(pb, [])
  {
    if Cyclic(pb, []) {
      PrefixCyclic(pb, [], p);
    }
  }

  lemma CycleIsLast(pb: Problem, p: seq<Action>, a: Action, at: int)
    requires Marked(pb, p + [a], -1, at) && Cyclic(pb, p + [a]) && !Cyclic(pb, p)
    ensures LastResort(pb, p + [a], |p| + 1)
  {
    hide MoreAt, FirstOption, Cyclic;
    assert (p + [a])[..|p| + 1] == p + [a] && (p + [a])[..|p|] == p;
  }

  lemma ResortStep(pb: Problem, p: seq<Action>, a: Action, n: nat)
    requires LastResort(pb, p, n) && FirstOption(pb, p, a)
    ensures LastResort(pb, p + [a], n)
  {
    hide MoreAt, FirstOption, Cyclic;
    var o := p + [a];
    assert o[..n] == p[..n] && (n > 0 ==> o[..n - 1] == p[..n - 1]) && o[..|p|] == p;
    forall j: nat | j < n ensures !MoreAt(pb, o, j) {
      MoreAtStep(pb, p, a, j);
    }
    forall j: nat | n <= j < |o| ensures FirstOption(pb, o[..j], o[j]) {
      assert j < |p| ==> o[..j] == p[..j];
    }
  }

  /** What is replayed has no cycle before its last action. */
  ghost predicate FreshTarget(pb: Problem, target: seq<Action>) {
    target != [] ==> !Cyclic(pb, target[..|target| - 1])
  }

  lemma CycleBehindTarget(pb: Problem, cur: seq<Action>, target: seq<Action>)
    requires FreshTarget(pb, target) && (cur <= target || target <= cur) && Cyclic(pb, cur)
    ensures |target| <= |cur|
  {
    if |cur| < |target| {
      assert cur <= target[..|target| - 1];
      PrefixCyclic(pb, cur, target[..|target| - 1]);
    }
  }

  lemma NextIsFresh(pb: Problem, p: seq<Action>, a: Action, at: nat)
    requires !Cyclic(pb, p) && at < |p + [a]| && MoreAt(pb, p + [a], at)
    ensures FreshTarget(pb, NextOption(pb, p + [a], at))
  {
    var t := NextOption(pb, p + [a], at);
    assert t[..|t| - 1] == p[..at];
    if Cyclic(pb, p[..at]) {
      PrefixCyclic(pb, p[..at], p);
    }
  }

  /** An order without a cycle at the end of the search is the first of all good ones. */
  lemma FirstGood(pb: Problem, o: seq<Action>, target: seq<Action>, choices: seq<nat>, currchoice: nat, endchoice: nat)
    requires Replaying(pb, o, target, choices, currchoice, endchoice) && Ahead(pb, Longer(o, target))
    requires Complete(pb, o) && !Cyclic(pb, o)
    ensures Good(pb, o) && forall o' :: Good(pb, o') ==> o' == o || Later(pb, o, o')
  {
    hide Possible, NextActions, IsChoice, Pruned, Cyclic, Later;
    if |o| < |target| {
      FollowTarget(pb, o, target, choices, currchoice, endchoice);
      TakenIsNext(pb, o, target[|o|]);
    }
    forall o' | Good(pb, o') && o <= o' ensures o' == o {
      NothingBeyond(pb, o, o');
    }
  }

  lemma NothingBeyond(pb: Problem, o: seq<Action>, o': seq<Action>)
    requires Complete(pb, o) && Good(pb, o') && o <= o'
    ensures o' == o
  {
    assert o == o'[..|o|];
  }
}
