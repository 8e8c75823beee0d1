/**
 * Which actions the search may take next, said of the actions themselves: the
 * first ones left of their threads that have seen no other such action.
 */
module ScOffers {
  import opened ClockVectors
  import opened Collections
  import opened ScSearch

  /** The first action of its thread that is not in `p`. */
  predicate FirstLeft(pb: Problem, p: seq<Action>, a: Action) {
    a.tid < |pb.lists| && OfThread(p, a.tid) + [a] <= pb.lists[a.tid]
  }

  /** By the clock vector `cv`, action `b` has been seen. */
  predicate Seen(cv: ClockVector, b: Action) {
    b.tid < |cv| && b.number <= cv[b.tid]
  }

  /** `a` is the first left of its thread and, by `cv`, has seen the first one left of no other thread. */
  ghost predicate Free(pb: Problem, p: seq<Action>, cv: ClockVector, a: Action) {
    FirstLeft(pb, p, a) && forall b: Action :: FirstLeft(pb, p, b) && b.tid != a.tid ==> !Seen(cv, b)
  }

  /** The vectors of the analysis decide or, if they leave nothing to take, those of the execution. */
  ghost predicate Offered(pb: Problem, p: seq<Action>, a: Action) {
    if exists b: Action :: Free(pb, p, pb.cv(p, b), b) then Free(pb, p, pb.cv(p, a), a) else Free(pb, p, pb.hb(a), a)
  }

  predicate ByThread(acts: seq<Action>) {
    forall i, j :: 0 <= i < j < |acts| ==> acts[i].tid < acts[j].tid
  }

  /** The actions offered, in the order of their threads. */
  ghost predicate Offers(pb: Problem, p: seq<Action>, acts: seq<Action>) {
    && (forall a: Action :: a in acts <==> Offered(pb, p, a))
    && ByThread(acts)
  }

  // ---------------------------------------------------------------- the search offers just these

  lemma FrontIsFirst(pb: Problem, p: seq<Action>, a: Action)
    requires WellFormed(pb) && Possible(pb, p)
    ensures FirstLeft(pb, p, a) <==> HasNext(pb, p, a.tid) && a == Front(pb, p, a.tid)
  {
    hide WellFormed, Possible, OfThread, Count;
    if a.tid < |pb.lists| {
      TakenInOrder(pb, p, a.tid);
      var n := Count(p, a.tid);
      assert n < |pb.lists[a.tid]| ==> pb.lists[a.tid][..n + 1] == pb.lists[a.tid][..n] + [pb.lists[a.tid][n]];
      if FirstLeft(pb, p, a) {
        assert pb.lists[a.tid][n] == (OfThread(p, a.tid) + [a])[n];
      }
    }
  }

  lemma FreeIsUnblocked(pb: Problem, p: seq<Action>, cv: Action -> ClockVector, a: Action)
    requires WellFormed(pb) && Possible(pb, p)
    ensures Free(pb, p, cv(a), a) <==>
      HasNext(pb, p, a.tid) && a == Front(pb, p, a.tid) && !Blocked(pb, p, cv, a.tid)
  {
    hide WellFormed, Possible, FirstLeft, HasNext, Front;
    FrontIsFirst(pb, p, a);
    if FirstLeft(pb, p, a) {
      forall b: Action | FirstLeft(pb, p, b) && b.tid != a.tid && Seen(cv(a), b) ensures Blocked(pb, p, cv, a.tid) {
        FrontIsFirst(pb, p, b);
        HasList(pb, p, b.tid);
      }
      if i :| 0 <= i < |pb.lists| && i != a.tid && HasNext(pb, p, i) && SynchronizedSince(cv(a), Front(pb, p, i)) {
        var b := Front(pb, p, i);
        FrontThread(pb, p, i);
        FrontIsFirst(pb, p, b);
        assert Seen(cv(a), b);
      }
    }
  }

  lemma HasList(pb: Problem, p: seq<Action>, t: nat)
    requires HasNext(pb, p, t)
    ensures t < |pb.lists|
  {
  }

  lemma {:induction false} UnblockedOnes(pb: Problem, p: seq<Action>, cv: Action -> ClockVector, n: nat)
    requires WellFormed(pb) && n <= |pb.lists|
    ensures var acts := Unblocked(pb, p, cv, n);
      && (forall a: Action ::
        a in acts <==> a.tid < n && HasNext(pb, p, a.tid) && a == Front(pb, p, a.tid) && !Blocked(pb, p, cv, a.tid))
      && ByThread(acts)
  {
    hide WellFormed, HasNext, Front, Blocked;
    if n > 0 {
      UnblockedOnes(pb, p, cv, n - 1);
      UnblockedStep(pb, p, cv, n - 1);
      hide Unblocked;
      if HasNext(pb, p, n - 1) {
        FrontThread(pb, p, n - 1);
      }
      var before := Unblocked(pb, p, cv, n - 1);
      assert forall i :: 0 <= i < |before| ==> before[i] in before;
    } else {
      NoneUnblocked(pb, p, cv);
    }
  }

  lemma UnblockedAreFree(pb: Problem, p: seq<Action>, cv: Action -> ClockVector)
    requires WellFormed(pb) && Possible(pb, p)
    ensures var acts := Unblocked(pb, p, cv, |pb.lists|);
      && (forall a: Action :: a in acts <==> Free(pb, p, cv(a), a))
      && ByThread(acts)
  {
    hide WellFormed, Possible, Unblocked, Blocked, Free, Front, ByThread;
    UnblockedOnes(pb, p, cv, |pb.lists|);
    forall a: Action ensures a in Unblocked(pb, p, cv, |pb.lists|) <==> Free(pb, p, cv(a), a) {
      FreeIsUnblocked(pb, p, cv, a);
    }
  }

  /** The search has to choose among the actions offered, listed by their threads. */
  lemma NextActionsAreOffers(pb: Problem, p: seq<Action>)
    requires WellFormed(pb) && Possible(pb, p)
    ensures Offers(pb, p, NextActions(pb, p))
  {
    hide WellFormed, Possible, Unblocked, Free, Offers, ByThread;
    UnblockedAreFree(pb, p, Vectors(pb, p));
    UnblockedAreFree(pb, p, pb.hb);
    FirstOrSecond(pb, p, Unblocked(pb, p, Vectors(pb, p), |pb.lists|), Unblocked(pb, p, pb.hb, |pb.lists|));
  }

  lemma FirstOrSecond(pb: Problem, p: seq<Action>, acts: seq<Action>, acts': seq<Action>)
    requires forall a: Action :: a in acts <==> Free(pb, p, pb.cv(p, a), a)
    requires forall a: Action :: a in acts' <==> Free(pb, p, pb.hb(a), a)
    requires ByThread(acts)
    requires ByThread(acts')
    ensures Offers(pb, p, if acts != [] then acts else acts')
  {
    hide Free;
    if acts != [] {
      assert acts[0] in acts;
    }
  }

  /** There is only one such list. */
  lemma {:induction false} OneList(pb: Problem, p: seq<Action>, acts: seq<Action>, acts': seq<Action>)
    requires Offers(pb, p, acts) && Offers(pb, p, acts')
    ensures acts == acts'
  {
    hide Offered;
    SortedUnique(acts, acts');
  }

  lemma {:induction false} SortedUnique(s: seq<Action>, s': seq<Action>)
    requires forall a: Action :: a in s <==> a in s'
    requires ByThread(s) && ByThread(s')
    ensures s == s'
  {
    if s == [] {
      if s' != [] {
        HasOne(s');
      }
    } else {
      var n, n' := |s| - 1, |s'| - 1;
      assert s[n] in s';
      assert s'[n'] in s;
      assert s[n] == s'[n'];
      forall a: Action ensures a in s[..n] <==> a in s'[..n'] {
        AllButLast(s, a);
        AllButLast(s', a);
      }
      SortedUnique(s[..n], s'[..n']);
      assert s == s[..n] + [s[n]] && s' == s'[..n'] + [s'[n']];
    }
  }

  lemma HasOne(s: seq<Action>)
    requires s != []
    ensures exists a :: a in s
  {
    assert s[0] in s;
  }

  lemma AllButLast(s: seq<Action>, a: Action)
    requires s != [] && ByThread(s)
    ensures a in s[..|s| - 1] <==> a in s && a != s[|s| - 1]
  {
    assert s == s[..|s| - 1] + [s[|s| - 1]];
  }

  /** The action that may be taken: the only one offered, the one that pruning picks, or any. */
  ghost predicate Takes(pb: Problem, acts: seq<Action>, p: seq<Action>, a: Action) {
    && a in acts
    && (|acts| > 1 && pb.prune(p, acts).Some? ==>
      pb.prune(p, acts).value < |acts| && a == acts[pb.prune(p, acts).value])
  }

  lemma TakesAt(pb: Problem, o: seq<Action>, i: nat)
    requires WellFormed(pb) && Possible(pb, o) && i < |o|
    ensures Offered(pb, o[..i], o[i])
    ensures forall acts :: Offers(pb, o[..i], acts) ==> Takes(pb, acts, o[..i], o[i])
  {
    hide WellFormed, Possible, NextActions, Offered;
    PossibleAt(pb, o, i);
    PossiblePrefix(pb, o, i);
    NextActionsAreOffers(pb, o[..i]);
    forall acts | Offers(pb, o[..i], acts) ensures Takes(pb, acts, o[..i], o[i]) {
      OneList(pb, o[..i], acts, NextActions(pb, o[..i]));
    }
  }

  /** `a` is one of the actions that may be taken of those offered after `p`. */
  ghost predicate IsTaken(pb: Problem, p: seq<Action>, a: Action) {
    exists acts :: Offers(pb, p, acts) && Takes(pb, acts, p, a)
  }

  lemma TakenMayBe(pb: Problem, p: seq<Action>, a: Action)
    requires WellFormed(pb) && Possible(pb, p)
    ensures IsTaken(pb, p, a) <==> MayTake(pb, p, a)
  {
    hide WellFormed, NextActions, Offers, Possible;
    NextActionsAreOffers(pb, p);
    if acts :| Offers(pb, p, acts) && Takes(pb, acts, p, a) {
      OneList(pb, p, acts, NextActions(pb, p));
    }
  }

  /** What the orders are that the search may run through. */
  lemma {:induction false} PossibleIff(pb: Problem, o: seq<Action>)
    requires WellFormed(pb)
    ensures Possible(pb, o) <==> forall i :: 0 <= i < |o| ==> IsTaken(pb, o[..i], o[i])
  {
    hide WellFormed, Possible, MayTake, IsTaken;
    if o != [] {
      var p, a := o[..|o| - 1], o[|o| - 1];
      assert o == p + [a];
      PossibleIff(pb, p);
      assert forall i :: 0 <= i < |p| ==> p[..i] == o[..i] && p[i] == o[i];
      if Possible(pb, p) {
        TakenMayBe(pb, p, a);
      }
      if Possible(pb, o) {
        PossiblePrefix(pb, o, |p|);
        PossibleAt(pb, o, |p|);
      } else if Possible(pb, p) && MayTake(pb, p, a) {
        PossibleStep(pb, p, a);
      }
    } else {
      EmptyLog(pb);
    }
  }

  // ---------------------------------------------------------------- happens-before in the order found

  /** The analysis starts from the vectors of the execution and only raises clocks. */
  ghost predicate Raised(pb: Problem) {
    forall p: seq<Action>, a: Action, b: Action :: Seen(pb.hb(a), b) ==> Seen(pb.cv(p, a), b)
  }

  predicate NumbersGrow(pb: Problem) {
    forall t, i, j :: 0 <= t < |pb.lists| && 0 <= i < j < |pb.lists[t]| ==>
      pb.lists[t][i].number < pb.lists[t][j].number
  }

  /** No action comes before one of another thread that it has seen in the execution. */
  ghost predicate SeenFirst(pb: Problem, o: seq<Action>) {
    forall i, j :: 0 <= i < j < |o| && o[i].tid != o[j].tid ==> !Seen(pb.hb(o[i]), o[j])
  }

  lemma SeenComeFirst(pb: Problem, o: seq<Action>)
    requires WellFormed(pb) && Possible(pb, o) && Raised(pb) && NumbersGrow(pb)
    ensures SeenFirst(pb, o)
  {
    hide WellFormed, Possible, Offered, Raised, NumbersGrow, Seen;
    forall i, j | 0 <= i < j < |o| && o[i].tid != o[j].tid ensures !Seen(pb.hb(o[i]), o[j]) {
      TakesAt(pb, o, i);
      var b := LeftBefore(pb, o, i, j);
      OfferedUnseen(pb, o[..i], o[i], b);
      SeenEarlier(pb.hb(o[i]), b, o[j]);
    }
  }

  lemma OfferedUnseen(pb: Problem, p: seq<Action>, a: Action, b: Action)
    requires Offered(pb, p, a) && FirstLeft(pb, p, b) && a.tid != b.tid && Raised(pb)
    ensures !Seen(pb.hb(a), b)
  {
    hide FirstLeft, Seen;
  }

  lemma SeenEarlier(cv: ClockVector, b: Action, c: Action)
    requires b.tid == c.tid && b.number <= c.number
    ensures Seen(cv, c) ==> Seen(cv, b)
  {
  }

  /** When the `j`-th action is still to come, the first one left of its thread has no larger number. */
  lemma LeftBefore(pb: Problem, o: seq<Action>, i: nat, j: nat) returns (b: Action)
    requires WellFormed(pb) && Possible(pb, o) && i <= j < |o| && NumbersGrow(pb)
    ensures FirstLeft(pb, o[..i], b) && b.tid == o[j].tid && b.number <= o[j].number
  {
    hide WellFormed, Possible, OfThread, Count, FirstLeft, NumbersGrow, HasNext, Front, MayTake;
    var t := o[j].tid;
    PossiblePrefix(pb, o, i);
    PossiblePrefix(pb, o, j);
    PossibleAt(pb, o, j);
    TakenFront(pb, o[..j], o[j]);
    CountGrows(o[..j], i, t);
    assert o[..j][..i] == o[..i];
    EarlierFront(pb, o[..i], o[..j], t);
    b := Front(pb, o[..i], t);
    FrontThread(pb, o[..i], t);
    FrontIsFirst(pb, o[..i], b);
  }

  lemma EarlierFront(pb: Problem, p: seq<Action>, p': seq<Action>, t: nat)
    requires HasNext(pb, p', t) && Count(p, t) <= Count(p', t) && NumbersGrow(pb)
    ensures HasNext(pb, p, t) && Front(pb, p, t).number <= Front(pb, p', t).number
  {
  }

  lemma {:induction false} CountGrows(p: seq<Action>, i: nat, t: nat)
    requires i <= |p|
    ensures Count(p[..i], t) <= Count(p, t)
  {
    if i < |p| {
      CountGrows(p[..|p| - 1], i, t);
      assert p[..|p| - 1][..i] == p[..i];
    } else {
      assert p[..i] == p;
    }
  }

  // ---------------------------------------------------------------- which order is found

  /** Where the two first differ, `o` takes the action of the lower thread. */
  ghost predicate Before(o: seq<Action>, o': seq<Action>) {
    exists i: nat :: i < |o| && i < |o'| && o[..i] == o'[..i] && o[i].tid < o'[i].tid
  }

  lemma LaterIsBefore(pb: Problem, o: seq<Action>, o': seq<Action>)
    requires WellFormed(pb) && Possible(pb, o) && Later(pb, o, o')
    ensures Before(o, o')
  {
    hide WellFormed, Possible, NextActions, IsChoice, Offered, LaterAt;
    var i := LaterPosition(pb, o, o');
    PossiblePrefix(pb, o, i);
    NextActionsAreOffers(pb, o[..i]);
    LowerThread(pb, o, o', i);
  }

  lemma LowerThread(pb: Problem, o: seq<Action>, o': seq<Action>, i: nat)
    requires i < |o| && i < |o'| && LaterAt(pb, o, o', i) && ByThread(NextActions(pb, o[..i]))
    ensures o[..i] == o'[..i] && o[i].tid < o'[i].tid
  {
    hide NextActions, IsChoice;
  }

  /**
   * The order is the first to fall back on: up to its first cycle, the search has
   * taken the highest threads that it may take, and after that the lowest.
   */
  ghost predicate FallsBack(pb: Problem, o: seq<Action>, n: nat) {
    && n <= |o| && Cyclic(pb, o[..n]) && (n > 0 ==> !Cyclic(pb, o[..n - 1]))
    && (forall i, a :: 0 <= i < n && IsTaken(pb, o[..i], a) ==> a.tid <= o[i].tid)
    && (forall i, a :: n <= i < |o| && IsTaken(pb, o[..i], a) ==> o[i].tid <= a.tid)
  }

  lemma ResortFallsBack(pb: Problem, o: seq<Action>, n: nat)
    requires WellFormed(pb) && Possible(pb, o) && LastResort(pb, o, n)
    ensures FallsBack(pb, o, n)
  {
    hide WellFormed, Possible, Cyclic, IsTaken, MoreAt, FirstOption;
    forall i, a | 0 <= i < |o| && IsTaken(pb, o[..i], a)
      ensures i < n ==> a.tid <= o[i].tid
      ensures n <= i ==> o[i].tid <= a.tid
    {
      TakenThreads(pb, o, i, a);
    }
  }

  lemma TakenThreads(pb: Problem, o: seq<Action>, i: nat, a: Action)
    requires WellFormed(pb) && Possible(pb, o) && i < |o| && IsTaken(pb, o[..i], a)
    ensures !MoreAt(pb, o, i) ==> a.tid <= o[i].tid
    ensures FirstOption(pb, o[..i], o[i]) ==> o[i].tid <= a.tid
  {
    hide WellFormed, Possible, IsTaken, Offered;
    PossiblePrefix(pb, o, i);
    PossibleAt(pb, o, i);
    NextActionsAreOffers(pb, o[..i]);
    TakenMayBe(pb, o[..i], a);
    hide NextActions, Pruned;
    var acts := NextActions(pb, o[..i]);
    if !IsChoice(pb, o[..i]) {
      OnlyOneTaken(pb, o[..i], a, o[i]);
    } else {
      var k := IndexOf(acts, a);
    }
  }

  lemma OnlyOneTaken(pb: Problem, p: seq<Action>, a: Action, b: Action)
    requires MayTake(pb, p, a) && MayTake(pb, p, b) && !IsChoice(pb, p)
    ensures a == b
  {
  }

  /** All there is to say of the order at the end of the search. */
  lemma WhatIsFound(pb: Problem, o: seq<Action>, target: seq<Action>, choices: seq<nat>, currchoice: nat,
      endchoice: nat, n: nat)
    requires WellFormed(pb) && Replaying(pb, o, target, choices, currchoice, endchoice) && Complete(pb, o)
    requires if Cyclic(pb, o) then LastResort(pb, o, n) else Ahead(pb, Longer(o, target))
    ensures forall i :: 0 <= i < |o| ==> Offered(pb, o[..i], o[i]) && IsTaken(pb, o[..i], o[i])
    ensures Raised(pb) && NumbersGrow(pb) ==> SeenFirst(pb, o)
    ensures !Cyclic(pb, o) ==> Good(pb, o) && forall o' :: Good(pb, o') ==> o' == o || Before(o, o')
    ensures Cyclic(pb, o) ==> FallsBack(pb, o, n)
  {
    hide WellFormed, Possible, Replaying, Complete, Cyclic, LastResort, Ahead, Longer, Raised, NumbersGrow, SeenFirst,
      Good, Before, FallsBack, Offered, IsTaken;
    ReplayingOrder(pb, o, target, choices, currchoice, endchoice);
    PossibleIff(pb, o);
    forall i | 0 <= i < |o| ensures Offered(pb, o[..i], o[i]) {
      TakesAt(pb, o, i);
    }
    if Raised(pb) && NumbersGrow(pb) {
      SeenComeFirst(pb, o);
    }
    if Cyclic(pb, o) {
      ResortFallsBack(pb, o, n);
    } else {
      FirstGood(pb, o, target, choices, currchoice, endchoice);
      forall o' | Good(pb, o') && o' != o ensures Before(o, o') {
        LaterIsBefore(pb, o, o');
      }
    }
  }
}
