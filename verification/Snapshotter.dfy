/**
 * The copy-on-write snapshots of memory: pages are copied to the backing store
 * when they are first written after a snapshot, and copied back on a rollback.
 */
module Snapshotter {

  /** A page as it was before it was written. */
  datatype Backing<T> = Backing(page: nat, copy: T)

  /** What the records from `from` on say that page `p` was: the earliest of them wins over its present contents. */
  function Restored<T>(backing: seq<Backing<T>>, from: nat, p: nat, now: T): T
    decreases |backing| - from
  {
    if from >= |backing| then now
    else if backing[from].page == p then backing[from].copy
    else Restored(backing, from + 1, p, now)
  }

  predicate Recorded<T>(backing: seq<Backing<T>>, from: nat, p: nat) {
    exists k :: from <= k < |backing| && backing[k].page == p
  }

  lemma {:induction false} RecordedKeeps<T>(backing: seq<Backing<T>>, from: nat, p: nat, now: T, later: T)
    requires Recorded(backing, from, p)
    ensures Restored(backing, from, p, now) == Restored(backing, from, p, later)
    decreases |backing| - from
  {
    if backing[from].page != p {
      RecordedKeeps(backing, from + 1, p, now, later);
    }
  }

  /** Records from `mid` on only matter where those before it say nothing. */
  lemma {:induction false} RestoredInParts<T>(backing: seq<Backing<T>>, from: nat, mid: nat, p: nat, now: T)
    requires from <= mid <= |backing|
    ensures Restored(backing, from, p, now) == Restored(backing[..mid], from, p, Restored(backing, mid, p, now))
    decreases mid - from
  {
    if from < mid && backing[from].page != p {
      RestoredInParts(backing, from + 1, mid, p, now);
    }
  }

  lemma {:induction false} RestoredMore<T>(backing: seq<Backing<T>>, from: nat, b: Backing<T>, p: nat, now: T)
    requires from <= |backing| && (b.page == p ==> b.copy == now)
    ensures Restored(backing + [b], from, p, now) == Restored(backing, from, p, now)
    decreases |backing| - from
  {
    if from < |backing| {
      assert (backing + [b])[from] == backing[from];
      if backing[from].page != p {
        RestoredMore(backing, from + 1, b, p, now);
      }
    }
  }

  /** No page has been recorded twice since `from`. */
  predicate Once<T>(backing: seq<Backing<T>>, from: nat) {
    forall j, k :: from <= j < k < |backing| ==> backing[j].page != backing[k].page
  }

  lemma {:induction false} RestoredAt<T>(backing: seq<Backing<T>>, from: nat, k: nat, now: T)
    requires from <= k < |backing| && forall j :: from <= j < k ==> backing[j].page != backing[k].page
    ensures Restored(backing, from, backing[k].page, now) == backing[k].copy
    decreases k - from
  {
    if from < k {
      RestoredAt(backing, from + 1, k, now);
    }
  }

  lemma {:induction false} RestoredUnrecorded<T>(backing: seq<Backing<T>>, from: nat, p: nat, now: T)
    requires forall k :: from <= k < |backing| ==> backing[k].page != p
    ensures Restored(backing, from, p, now) == now
    decreases |backing| - from
  {
    if from < |backing| {
      RestoredUnrecorded(backing, from + 1, p, now);
    }
  }

  /** The parts of the state, as values. */
  ghost predicate Guarded<T>(memory: seq<T>, writable: seq<bool>, backing: seq<Backing<T>>, snapShots: seq<nat>) {
    && |writable| == |memory|
    && (if snapShots == [] then backing == [] && forall p :: 0 <= p < |memory| ==> writable[p]
        else GuardedSince(memory, writable, backing, snapShots[|snapShots| - 1]))
  }

  /** A page is open to writing exactly when it has been recorded since the last snapshot, and then only once. */
  ghost predicate GuardedSince<T>(memory: seq<T>, writable: seq<bool>, backing: seq<Backing<T>>, first: nat) {
    && |writable| == |memory| && Once(backing, first)
    && (forall p :: 0 <= p < |memory| ==> (writable[p] <==> Recorded(backing, first, p)))
  }

  ghost predicate Formed<T>(memory: seq<T>, backing: seq<Backing<T>>, snapShots: seq<nat>, taken: seq<seq<T>>) {
    && |taken| == |snapShots|
    && (forall i, j :: 0 <= i < j < |snapShots| ==> snapShots[i] <= snapShots[j])
    && (forall i :: 0 <= i < |snapShots| ==> snapShots[i] <= |backing| && |taken[i]| == |memory|)
    && (forall k :: 0 <= k < |backing| ==> backing[k].page < |memory|)
  }

  /** Each snapshot can be restored from the records since it was taken. */
  ghost predicate Restorable<T>(memory: seq<T>, backing: seq<Backing<T>>, snapShots: seq<nat>, taken: seq<seq<T>>)
    requires Formed(memory, backing, snapShots, taken)
  {
    forall i, p :: 0 <= i < |snapShots| && 0 <= p < |memory| ==>
      taken[i][p] == Restored(backing, snapShots[i], p, memory[p])
  }

  ghost predicate Sound<T>(memory: seq<T>, writable: seq<bool>, backing: seq<Backing<T>>, snapShots: seq<nat>,
      taken: seq<seq<T>>) {
    && Guarded(memory, writable, backing, snapShots)
    && Formed(memory, backing, snapShots, taken)
    && Restorable(memory, backing, snapShots, taken)
  }

  /** A protected page is recorded before it is written. */
  lemma FaultSound<T>(memory: seq<T>, writable: seq<bool>, backing: seq<Backing<T>>, snapShots: seq<nat>,
      taken: seq<seq<T>>, p: nat)
    requires Sound(memory, writable, backing, snapShots, taken) && p < |memory| && p < |writable| && !writable[p]
    ensures Sound(memory, writable[p := true], backing + [Backing(p, memory[p])], snapShots, taken)
  {
    var b := Backing(p, memory[p]);
    var first := snapShots[|snapShots| - 1];
    forall i, q | 0 <= i < |snapShots| && 0 <= q < |memory|
      ensures taken[i][q] == Restored(backing + [b], snapShots[i], q, memory[q])
    {
      RestoredMore(backing, snapShots[i], b, q, memory[q]);
    }
    FaultGuarded(memory, writable, backing, first, b);
  }

  lemma FaultGuarded<T>(memory: seq<T>, writable: seq<bool>, backing: seq<Backing<T>>, first: nat, b: Backing<T>)
    requires GuardedSince(memory, writable, backing, first) && first <= |backing| && b.page < |memory| &&
      !writable[b.page]
    ensures GuardedSince(memory, writable[b.page := true], backing + [b], first)
  {
    var backing', writable' := backing + [b], writable[b.page := true];
    assert forall k :: first <= k < |backing| ==> backing'[k] == backing[k];
    forall j, k | first <= j < k < |backing'| ensures backing'[j].page != backing'[k].page {
      if k == |backing| {
        assert backing[j].page == b.page ==> Recorded(backing, first, b.page);
      }
    }
    forall q | 0 <= q < |memory| ensures writable'[q] <==> Recorded(backing', first, q) {
      if q == b.page {
        assert backing'[|backing|].page == q;
      } else if Recorded(backing, first, q) {
        var k :| first <= k < |backing| && backing[k].page == q;
        assert backing'[k].page == q;
      }
    }
  }

  /** Writing a recorded page loses nothing. */
  lemma WriteSound<T>(memory: seq<T>, writable: seq<bool>, backing: seq<Backing<T>>, snapShots: seq<nat>,
      taken: seq<seq<T>>, p: nat, c: T)
    requires Sound(memory, writable, backing, snapShots, taken) && p < |memory| == |writable| && writable[p]
    ensures Sound(memory[p := c], writable, backing, snapShots, taken)
  {
    if snapShots != [] {
      var first := snapShots[|snapShots| - 1];
      forall i | 0 <= i < |snapShots| ensures taken[i][p] == Restored(backing, snapShots[i], p, c) {
        assert snapShots[i] <= first;
        assert Recorded(backing, first, p);
        RecordedKeeps(backing, snapShots[i], p, memory[p], c);
      }
    }
  }

  lemma TakeSound<T>(memory: seq<T>, writable: seq<bool>, backing: seq<Backing<T>>, snapShots: seq<nat>,
      taken: seq<seq<T>>, writable': seq<bool>)
    requires Formed(memory, backing, snapShots, taken) && Restorable(memory, backing, snapShots, taken)
    requires |writable'| == |memory| && forall p :: 0 <= p < |memory| ==> !writable'[p]
    ensures Sound(memory, writable', backing, snapShots + [|backing|], taken + [memory])
  {
  }

  /** The state after a rollback to the last snapshot that keeps its records. */
  lemma FastSound<T>(memory: seq<T>, writable: seq<bool>, backing: seq<Backing<T>>, snapShots: seq<nat>,
      taken: seq<seq<T>>, memory': seq<T>)
    requires Sound(memory, writable, backing, snapShots, taken) && snapShots != [] && memory' == taken[|taken| - 1]
    ensures Sound(memory', writable, backing, snapShots, taken)
  {
    var last := |snapShots| - 1;
    forall i, p | 0 <= i < |snapShots| && 0 <= p < |memory|
      ensures taken[i][p] == Restored(backing, snapShots[i], p, memory'[p])
    {
      RestoredInParts(backing, snapShots[i], snapShots[last], p, memory[p]);
      RestoredInParts(backing, snapShots[i], snapShots[last], p, memory'[p]);
      RestoredTwice(backing, snapShots[last], p, memory[p]);
    }
  }

  lemma {:induction false} RestoredTwice<T>(backing: seq<Backing<T>>, from: nat, p: nat, now: T)
    ensures Restored(backing, from, p, Restored(backing, from, p, now)) == Restored(backing, from, p, now)
    decreases |backing| - from
  {
    if from < |backing| && backing[from].page != p {
      RestoredTwice(backing, from + 1, p, now);
    }
  }

  /** The state after a rollback that drops the records since the snapshot, before that is taken again. */
  lemma BackSound<T>(memory: seq<T>, backing: seq<Backing<T>>, snapShots: seq<nat>, taken: seq<seq<T>>, id: nat,
      memory': seq<T>)
    requires Formed(memory, backing, snapShots, taken) && Restorable(memory, backing, snapShots, taken)
    requires id < |snapShots| && memory' == taken[id]
    ensures Formed(memory', backing[..snapShots[id]], snapShots[..id], taken[..id])
    ensures Restorable(memory', backing[..snapShots[id]], snapShots[..id], taken[..id])
  {
    forall i, p | 0 <= i < id && 0 <= p < |memory|
      ensures taken[i][p] == Restored(backing[..snapShots[id]], snapShots[i], p, memory'[p])
    {
      RestoredInParts(backing, snapShots[i], snapShots[id], p, memory[p]);
    }
  }

  class Snapshots<T(0)> {
    const memory: array<T>
    var writable: seq<bool>
    var backing: seq<Backing<T>>
    var snapShots: seq<nat>
    const maxBackingPages: nat
    const maxSnapShots: nat

    /** Whether rolling back to the last snapshot may keep its records. */
    const fastRollback: bool

    /** The contents of memory when each of the snapshots was taken. */
    ghost var taken: seq<seq<T>>

    ghost predicate Valid()
      reads this, memory
    {
      Kept() && Guarded(memory[..], writable, backing, snapShots)
    }

    /** All but the protection of the pages is in order. */
    ghost predicate Kept()
      reads this, memory
    {
      && Formed(memory[..], backing, snapShots, taken) && Restorable(memory[..], backing, snapShots, taken)
      && |backing| <= maxBackingPages && |snapShots| <= maxSnapShots
    }

    constructor (pages: nat, backingPages: nat, snapshots: nat, fast: bool)
      ensures Valid() && fresh(memory) && memory.Length == pages && snapShots == []
      ensures maxBackingPages == backingPages && maxSnapShots == snapshots && fastRollback == fast
    {
      fastRollback := fast;
      memory := new T[pages];
      writable := seq(pages, i => true);
      backing, snapShots, taken := [], [], [];
      maxBackingPages, maxSnapShots := backingPages, snapshots;
    }

    /** No page may be written without a fault. */
    predicate Protected()
      reads this
    {
      |writable| == memory.Length && forall p :: 0 <= p < |writable| ==> !writable[p]
    }

    /** A write to page `p`, through the fault handler if it is protected; not `ok` when the backing store is full. */
    method Write(p: nat, c: T) returns (ok: bool)
      requires Valid() && p < memory.Length
      modifies memory, `writable, `backing
      ensures Valid() && (ok <==> p < |old(writable)| && (old(writable)[p] || |old(backing)| < maxBackingPages))
      ensures memory[..] == if ok then old(memory[..])[p := c] else old(memory[..])
      ensures writable == if ok then old(writable)[p := true] else old(writable)
      ensures backing == if ok && !old(writable)[p] then old(backing) + [Backing(p, old(memory[p]))] else old(backing)
    {
      hide Formed, Restorable, GuardedSince;
      if !writable[p] {
        ok := HandleFault(p);
        if !ok {
          return;
        }
      }
      WriteSound(memory[..], writable, backing, snapShots, taken, p, c);
      ghost var was := memory[..];
      memory[p] := c;
      assert memory[..] == was[p := c];
      ok := true;
    }

    method HandleFault(p: nat) returns (ok: bool)
      requires Valid() && p < memory.Length && p < |writable| && !writable[p]
      modifies `writable, `backing
      ensures Valid() && (ok <==> |old(backing)| < maxBackingPages)
      ensures ok ==> writable == old(writable)[p := true] && backing == old(backing) + [Backing(p, memory[p])]
      ensures !ok ==> writable == old(writable) && backing == old(backing)
    {
      if |backing| == maxBackingPages {
        return false;
      }
      FaultSound(memory[..], writable, backing, snapShots, taken, p);
      backing := backing + [Backing(p, memory[p])];
      writable := writable[p := true];
      ok := true;
    }

    method TakeSnapshot() returns (ok: bool, id: nat)
      requires Kept()
      modifies `writable, `snapShots, `taken
      ensures ok <==> |old(snapShots)| < maxSnapShots
      ensures ok ==>
        Valid() && id == |old(snapShots)| && taken == old(taken) + [memory[..]] &&
        snapShots == old(snapShots) + [|backing|] && Protected()
      ensures !ok ==> taken == old(taken) && snapShots == old(snapShots) && writable == old(writable)
    {
      id := |snapShots|;
      if id == maxSnapShots {
        return false, id;
      }
      TakeSound(memory[..], writable, backing, snapShots, taken, seq(memory.Length, i => false));
      writable := seq(memory.Length, i => false);
      snapShots, taken := snapShots + [|backing|], taken + [memory[..]];
      ok := true;
    }

    /** Copies the records since the last snapshot back, each page having only one. */
    method CopyAll(first: nat)
      requires first <= |backing| && Once(backing, first) && forall k :: 0 <= k < |backing| ==>
        backing[k].page < memory.Length
      modifies memory
      ensures forall p :: 0 <= p < memory.Length ==> memory[p] == Restored(backing, first, p, old(memory[p]))
    {
      var page := first;
      while page < |backing|
        invariant first <= page <= |backing|
        invariant forall k :: first <= k < page ==> memory[backing[k].page] == backing[k].copy
        invariant forall p :: 0 <= p < memory.Length && (forall k :: first <= k < page ==> backing[k].page != p) ==>
          memory[p] == old(memory[p])
      {
        memory[backing[page].page] := backing[page].copy;
        page := page + 1;
      }
      forall p | 0 <= p < memory.Length ensures memory[p] == Restored(backing, first, p, old(memory[p])) {
        if k :| first <= k < |backing| && backing[k].page == p {
          RestoredAt(backing, first, k, old(memory[p]));
        } else {
          RestoredUnrecorded(backing, first, p, old(memory[p]));
        }
      }
    }

    /** Copies the records since `first` back, of each page only the earliest. */
    method CopyEarliest(first: nat)
      requires first <= |backing| && forall k :: 0 <= k < |backing| ==> backing[k].page < memory.Length
      modifies memory
      ensures forall p :: 0 <= p < memory.Length ==> memory[p] == Restored(backing, first, p, old(memory[p]))
    {
      var duplicates: set<nat> := {};
      var page := first;
      while page < |backing|
        invariant first <= page <= |backing|
        invariant forall p :: p in duplicates <==> exists k :: first <= k < page && backing[k].page == p
        invariant forall p :: 0 <= p < memory.Length && p in duplicates ==>
          memory[p] == Restored(backing, first, p, old(memory[p]))
        invariant forall p :: 0 <= p < memory.Length && p !in duplicates ==> memory[p] == old(memory[p])
      {
        var p := backing[page].page;
        if p !in duplicates {
          RestoredAt(backing, first, page, old(memory[p]));
          duplicates := duplicates + {p};
          memory[p] := backing[page].copy;
        }
        page := page + 1;
      }
      forall p | 0 <= p < memory.Length && p !in duplicates
        ensures memory[p] == Restored(backing, first, p, old(memory[p])) {
        RestoredUnrecorded(backing, first, p, old(memory[p]));
      }
    }

    /** Brings back the memory of snapshot `id`; the snapshots before it stay good, those after it are gone. */
    method RollBack(id: nat)
      requires Valid() && id < |snapShots|
      modifies this, memory
      ensures Valid() && memory[..] == old(taken)[id]
      ensures taken == old(taken)[..id + 1] && snapShots == old(snapShots)[..id + 1]
      ensures if fastRollback && |old(snapShots)| == id + 1 then backing == old(backing) && writable == old(writable)
        else old(snapShots)[id] <= |old(backing)| && backing == old(backing)[..old(snapShots)[id]] && Protected()
    {
      var first := snapShots[id];
      if fastRollback && |snapShots| == id + 1 {
        CopyAll(first);
        assert memory[..] == taken[id];
        FastSound(old(memory[..]), writable, backing, snapShots, taken, memory[..]);
        return;
      }
      CopyEarliest(first);
      assert memory[..] == taken[id];
      BackSound(old(memory[..]), backing, snapShots, taken, id, memory[..]);
      writable := seq(memory.Length, i => true);
      snapShots, taken := snapShots[..id], taken[..id];
      backing := backing[..first];
      var _, _ := TakeSnapshot();
    }
  }
}
