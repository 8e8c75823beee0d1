/** SCAnalysis: the backtracking search for a sequentially consistent order. */
module ScAnalysis {
  import opened Collections
  import opened ClockVectors
  import opened ScSearch
  import opened ScOffers

  class Analysis {
    const pb: Problem
    /** The actions of each thread that are not chosen yet. */
    var threadlists: seq<seq<Action>>
    /** The vectors of the analysis. */
    var cvmap: Action -> ClockVector
    var cyclic: bool

    constructor (pb: Problem)
      ensures this.pb == pb && threadlists == [] && !cyclic
    {
      this.pb, threadlists, cvmap, cyclic := pb, [], _ => [], false;
    }

    /** The state of the analysis after the actions in `p`. */
    ghost predicate After(p: seq<Action>)
      reads this
    {
      Left(pb, p, threadlists) && cvmap == Vectors(pb, p) && cyclic == Cyclic(pb, p)
    }

    /** Splits the trace by threads. */
    method BuildVectors(list: seq<Action>)
      requires threadlists == []
      modifies this`threadlists
      ensures threadlists == ThreadLists(list)
    {
      threadlists := [[]];
      var i := 0;
      while i < |list|
        invariant i <= |list| && threadlists == ThreadLists(list[..i])
      {
        var act := list[i];
        if act.tid >= |threadlists| {
          threadlists := Widened(threadlists, act.tid);
        }
        threadlists := threadlists[act.tid := threadlists[act.tid] + [act]];
        assert list[..i + 1][..i] == list[..i];
        i := i + 1;
      }
      assert list[..i] == list;
    }

    /** Whether the next action of a thread other than `t` comes before one with the vector `cv`. */
    method AnyBefore(t: nat, cv: ClockVector, ghost p: seq<Action>) returns (before: bool)
      requires Left(pb, p, threadlists) && t < |threadlists|
      ensures before == exists i ::
        0 <= i < |pb.lists| && i != t && HasNext(pb, p, i) && SynchronizedSince(cv, Front(pb, p, i))
    {
      var i := 0;
      while i < |threadlists|
        invariant i <= |threadlists|
        invariant forall j :: 0 <= j < i && j != t && HasNext(pb, p, j) ==> !SynchronizedSince(cv, Front(pb, p, j))
      {
        if i != t && threadlists[i] != [] && SynchronizedSince(cv, threadlists[i][0]) {
          assert HasNext(pb, p, i);
          return true;
        }
        i := i + 1;
      }
      return false;
    }

    /** The next actions that no other thread's next action comes before. */
    method Collect(actions: array<Action>, cv: Action -> ClockVector, ghost p: seq<Action>) returns (count: nat)
      requires Left(pb, p, threadlists) && actions.Length == |threadlists|
      modifies actions
      ensures count <= actions.Length && actions[..count] == Unblocked(pb, p, cv, |pb.lists|)
    {
      hide Left, Unblocked, HasNext, Front, Count, SynchronizedSince;
      count := 0;
      var t := 0;
      NoneUnblocked(pb, p, cv);
      assert |threadlists| == |pb.lists| by { LeftLists(pb, p, threadlists); }
      while t < |threadlists|
        invariant t <= |threadlists| && count <= t && actions[..count] == Unblocked(pb, p, cv, t)
      {
        LeftFront(pb, p, threadlists, t);
        UnblockedStep(pb, p, cv, t);
        if threadlists[t] != [] {
          var act := threadlists[t][0];
          var before := AnyBefore(t, cv(act), p);
          if !before {
            actions[count] := act;
            count := count + 1;
          }
        }
        t := t + 1;
      }
    }

    method GetNextActions(actions: array<Action>, ghost p: seq<Action>) returns (count: nat)
      requires After(p) && actions.Length == |threadlists| && WellFormed(pb) && Possible(pb, p)
      modifies actions
      ensures count <= actions.Length && actions[..count] == NextActions(pb, p)
      ensures Offers(pb, p, actions[..count])
    {
      hide WellFormed, Possible, Offers;
      NextActionsAreOffers(pb, p);
      count := Collect(actions, cvmap, p);
      if count == 0 {
        count := Collect(actions, pb.hb, p);
      }
    }

    /** The next action: the only one, the pruned one, or one by the choices; and the last choice with options left. */
    method TakeNext(actions: array<Action>, numActions: nat, choices: array<nat>, currchoice: nat, endchoice: nat,
        lastchoice: int, sclist: seq<Action>, ghost target: seq<Action>)
      returns (act: Action, currchoice': nat, lastchoice': int)
      requires WellFormed(pb) && 0 < numActions <= actions.Length && actions[..numActions] == NextActions(pb, sclist)
      requires Replaying(pb, sclist, target, choices[..], currchoice, endchoice) && choices.Length == Total(pb.lists)
      modifies choices
      ensures Steps(pb, sclist, target, old(choices[..]), currchoice, endchoice, act, choices[..])
      ensures currchoice' == if IsChoice(pb, sclist) then currchoice + 1 else currchoice
      ensures lastchoice' == if LeavesMore(pb, sclist, act) then currchoice else lastchoice
    {
      hide Possible, NextActions, WellFormed, MayTake, Log;
      currchoice', lastchoice' := currchoice, lastchoice;
      var pruned := Pruned(pb, sclist);
      if pruned.Some? {
        PrunedIsTaken(pb, sclist);
        act := actions[pruned.value];
      } else if currchoice < endchoice {
        ReplayedOption(pb, sclist, target, choices[..], currchoice, endchoice);
        act := actions[choices[currchoice]];
        EveryOptionMayBeTaken(pb, sclist, choices[currchoice]);
        if choices[currchoice] + 1 < numActions {
          lastchoice' := currchoice;
        }
        currchoice' := currchoice + 1;
      } else {
        act := actions[0];
        EveryOptionMayBeTaken(pb, sclist, 0);
        RoomForChoice(pb, sclist, act);
        choices[currchoice] := 0;
        if numActions > 1 {
          lastchoice' := currchoice;
        }
        currchoice' := currchoice + 1;
      }
    }

    /** A step of the search: what is known of the choices holds for the longer order, and no order is lost. */
    method Choose(actions: array<Action>, numActions: nat, choices: array<nat>, currchoice: nat, endchoice: nat,
        lastchoice: int, sclist: seq<Action>, ghost target: seq<Action>, ghost at: int)
      returns (act: Action, currchoice': nat, lastchoice': int, ghost at': int)
      requires WellFormed(pb) && 0 < numActions <= actions.Length && actions[..numActions] == NextActions(pb, sclist)
      requires Replaying(pb, sclist, target, choices[..], currchoice, endchoice) && choices.Length == Total(pb.lists)
      modifies choices
      ensures MayTake(pb, sclist, act) && |sclist| < Total(pb.lists)
      ensures Replaying(pb, sclist + [act], target, choices[..], currchoice', endchoice)
      ensures Standing(pb, sclist + [act], target) == Standing(pb, sclist, target)
      ensures Ahead(pb, Longer(sclist, target)) ==> Ahead(pb, Longer(sclist + [act], target))
      ensures Marked(pb, sclist, lastchoice, at) ==> Marked(pb, sclist + [act], lastchoice', at')
      ensures |target| <= |sclist| ==> FirstOption(pb, sclist, act)
    {
      hide Possible, NextActions, IsChoice, MayTake, Log, Ahead, Standing, Replaying, Marked, WellFormed, Total, Longer,
        LeavesMore, FirstOption;
      ghost var before := choices[..];
      act, currchoice', lastchoice' :=
        TakeNext(actions, numActions, choices, currchoice, endchoice, lastchoice, sclist, target);
      StepKeeps(pb, sclist, target, before, currchoice, endchoice, act, choices[..]);
      if |target| <= |sclist| {
        FreshIsFirst(pb, sclist, target, before, currchoice, endchoice, act, choices[..]);
      }
      ReplayingOrder(pb, sclist, target, before, currchoice, endchoice);
      RoomForChoice(pb, sclist, act);
      at' := if LeavesMore(pb, sclist, act) then |sclist| else at;
      if Marked(pb, sclist, lastchoice, at) {
        MarkedStep(pb, sclist, act, lastchoice, at);
      }
    }

    /** Takes the action off its list and adds the constraints of the choice. */
    method Advance(act: Action, sclist: seq<Action>)
      requires WellFormed(pb) && After(sclist) && MayTake(pb, sclist, act)
      modifies this
      ensures After(sclist + [act]) && (old(cyclic) ==> cyclic)
    {
      LeftStep(pb, sclist, threadlists, act);
      threadlists := threadlists[act.tid := threadlists[act.tid][1..]];
      assert (sclist + [act])[..|sclist|] == sclist;
      cvmap, cyclic := Vectors(pb, sclist + [act]), cyclic || pb.cycle(sclist + [act]);
    }

    /** Starts over: empty lists, then the lists and vectors of the trace. */
    method Restart(list: seq<Action>)
      requires pb.lists == ThreadLists(list)
      modifies this
      ensures After([])
    {
      threadlists, cyclic := [], false;
      BuildVectors(list);
      cvmap, cyclic := Vectors(pb, []), pb.cycle([]);
      LeftOfNone(pb);
    }

    /**
     * Finds an order of the actions of the trace. It interleaves the threads, each
     * action being one of those offered. If there are orders without a cycle, it is the
     * first of them by threads. Otherwise it is the order to fall back on.
     */
    method GenerateSC(list: seq<Action>) returns (sclist: seq<Action>)
      requires pb.lists == ThreadLists(list) && HbForward(pb) && PruneInRange(pb)
      modifies this
      ensures forall t :: OfThread(sclist, t) == OfThread(list, t)
      ensures forall i :: 0 <= i < |sclist| ==>
        Offered(pb, sclist[..i], sclist[i]) && IsTaken(pb, sclist[..i], sclist[i])
      ensures Raised(pb) && NumbersGrow(pb) ==> SeenFirst(pb, sclist)
      ensures Possible(pb, sclist) && cyclic == Cyclic(pb, sclist)
      ensures cyclic <==> forall o :: !Good(pb, o)
      ensures !cyclic ==> Good(pb, sclist) && forall o :: Good(pb, o) ==> o == sclist || Before(sclist, o)
      ensures cyclic ==> exists n: nat :: FallsBack(pb, sclist, n)
    {
      hide Possible, NextActions, IsChoice, MayTake, Log, Ahead, Standing, Replaying, Marked, Cyclic, Left, Good,
        MoreAt, LeavesMore, WellFormed, Power, Total, ThreadLists, OfThread, HbForward, PruneInRange, Vectors, Longer,
        NextOption, Listed, LastResort, FreshTarget, FirstOption, Offers, Offered, IsTaken, Raised, NumbersGrow,
        SeenFirst, FallsBack, Before;
      ListsWellFormed(pb, list);
      TotalOfThreads(list);
      Restart(list);
      LeftLists(pb, [], threadlists);
      var actions := new Action[|threadlists|];
      var choices := new nat[|list|](_ => 0);
      var endchoice, currchoice, lastchoice := 0, 0, -1;
      sclist := [];
      ghost var target: seq<Action>, at, first: nat := [], -1, 0;
      StartState(pb, choices[..]);
      LongerThanNone([]);
      StartFresh(pb);
      while true
        invariant After(sclist) && Replaying(pb, sclist, target, choices[..], currchoice, endchoice)
        invariant cyclic ==> (forall o :: !Good(pb, o)) && LastResort(pb, sclist, first) && |target| <= |sclist|
        invariant !cyclic ==> Marked(pb, sclist, lastchoice, at) && Ahead(pb, Longer(sclist, target))
        invariant choices.Length == |list| && actions.Length == |pb.lists| && FreshTarget(pb, target)
        decreases Power(|pb.lists|, Total(pb.lists)) - Standing(pb, sclist, target), Total(pb.lists) - |sclist|
      {
        LeftLists(pb, sclist, threadlists);
        ReplayingOrder(pb, sclist, target, choices[..], currchoice, endchoice);
        var numActions := GetNextActions(actions, sclist);
        if numActions == 0 {
          break;
        }
        StandingBound(pb, sclist, target);
        var act;
        act, currchoice, lastchoice, at :=
          Choose(actions, numActions, choices, currchoice, endchoice, lastchoice, sclist, target, at);
        var wasCyclic := cyclic;
        Advance(act, sclist);
        ghost var cur := sclist + [act];
        if !wasCyclic && cyclic {
          if lastchoice != -1 {
            MarkedChoice(pb, cur, lastchoice, at);
            RollbackState(pb, cur, target, choices[..], currchoice, endchoice, lastchoice, at);
            RollbackProgress(pb, cur, target, choices[..], currchoice, endchoice, lastchoice, at);
            NextIsFresh(pb, sclist, act, at);
            StartAcyclic(pb, sclist);
            choices[lastchoice] := choices[lastchoice] + 1;
            endchoice, currchoice := lastchoice + 1, 0;
            lastchoice := -1;
            Restart(list);
            sclist := [];
            target, at := NextOption(pb, cur, at), -1;
            LongerThanNone(target);
            continue;
          }
          CycleForGood(pb, cur, target, choices[..], currchoice, endchoice, at);
          CycleIsLast(pb, sclist, act, at);
          first := |cur|;
        } else if cyclic {
          ResortStep(pb, sclist, act, first);
        }
        if cyclic {
          ReplayingOrder(pb, cur, target, choices[..], currchoice, endchoice);
          CycleBehindTarget(pb, cur, target);
        }
        sclist := sclist + [act];
      }
      ReplayingOrder(pb, sclist, target, choices[..], currchoice, endchoice);
      EndOfSearch(pb, list, sclist);
      WhatIsFound(pb, sclist, target, choices[..], currchoice, endchoice, first);
    }
  }
}
