/**
 * The bounded queue with one lock for adders and one for removers: any number of
 * threads step through add and remove, one access to shared state at a time.
 */
module BlockingQueue {
  import opened RingSlots

  /** Where a thread is: the step it takes next, and its local variables. */
  datatype Pc<T> =
    | Idle
    | AddStart(item: T)       // takes the tail lock
    | AddLocked(item: T)      // tests the size, or waits
    | AddReady(item: T)       // stores the item
    | AddWritten(item: T)     // moves tail
    | AddMoved(item: T)       // increments the size
    | AddCounted              // gives the tail lock back
    | RemoveStart             // takes the head lock
    | RemoveLocked            // tests the size, or waits
    | RemoveReady             // loads the item
    | RemoveRead(out: T)      // moves head
    | RemoveMoved(out: T)     // decrements the size
    | RemoveCounted(out: T)   // gives the head lock back and returns the item
  {
    predicate HoldsTail() {
      AddLocked? || AddReady? || AddWritten? || AddMoved? || AddCounted?
    }

    predicate HoldsHead() {
      RemoveLocked? || RemoveReady? || RemoveRead? || RemoveMoved? || RemoveCounted?
    }

    /** Past the test of the size, before the size is changed. */
    predicate Adds() {
      AddReady? || AddWritten? || AddMoved?
    }

    predicate Removes() {
      RemoveReady? || RemoveRead? || RemoveMoved?
    }
  }

  datatype Owner = Free | Thread(id: nat)

  /** `added` and `removed` log the items in the order of the changes of the size. */
  datatype State<T> = State(
    capacity: nat, buffer: seq<T>, head: nat, tail: nat, size: int, headLock: Owner, tailLock: Owner,
    pc: map<nat, Pc<T>>, added: seq<T>, removed: seq<T>)
  {
    function Of(u: nat): Pc<T> {
      if u in pc then pc[u] else Idle
    }

    function At(u: nat, c: Pc<T>): State<T> {
      this.(pc := pc[u := c])
    }
  }

  /** What the environment decides: the operation an idle thread starts. A waiting thread may wake up at any time. */
  datatype Choice<T> = Add(item: T) | Remove | Go

  function Init<T>(buffer: seq<T>): State<T> {
    State(|buffer|, buffer, 0, 0, 0, Free, Free, map[], [], [])
  }

  function Next(i: nat, n: nat): nat {
    if n > 0 then (i + 1) % n else 0
  }

  /** One step of thread `u`. */
  function Step<T>(s: State<T>, u: nat, c: Choice<T>): State<T> {
    match s.Of(u)
    case Idle =>
      (match c
       case Add(item) => s.At(u, AddStart(item))
       case Remove => s.At(u, RemoveStart)
       case Go => s)
    case AddStart(item) => if s.tailLock == Free then s.At(u, AddLocked(item)).(tailLock := Thread(u)) else s
    case AddLocked(item) =>
      if s.size < s.capacity then s.At(u, AddReady(item)) else s.At(u, AddStart(item)).(tailLock := Free)
    case AddReady(item) =>
      s.At(u, AddWritten(item)).(buffer := if s.tail < |s.buffer| then s.buffer[s.tail := item] else s.buffer)
    case AddWritten(item) => s.At(u, AddMoved(item)).(tail := Next(s.tail, s.capacity))
    case AddMoved(item) => s.At(u, AddCounted).(size := s.size + 1, added := s.added + [item])
    case AddCounted => s.At(u, Idle).(tailLock := Free)
    case RemoveStart => if s.headLock == Free then s.At(u, RemoveLocked).(headLock := Thread(u)) else s
    case RemoveLocked =>
      if s.size > 0 then s.At(u, RemoveReady) else s.At(u, RemoveStart).(headLock := Free)
    case RemoveReady => if s.head < |s.buffer| then s.At(u, RemoveRead(s.buffer[s.head])) else s
    case RemoveRead(out) => s.At(u, RemoveMoved(out)).(head := Next(s.head, s.capacity))
    case RemoveMoved(out) => s.At(u, RemoveCounted(out)).(size := s.size - 1, removed := s.removed + [out])
    case RemoveCounted(_) => s.At(u, Idle).(headLock := Free)
  }

  function Run<T>(s: State<T>, schedule: seq<(nat, Choice<T>)>): State<T> {
    if schedule == [] then s
    else
      var last := schedule[|schedule| - 1];
      Step(Run(s, schedule[..|schedule| - 1]), last.0, last.1)
  }

  // ---------------------------------------------------------------- the invariant

  /** A thread is between lock and unlock exactly when it owns the lock. */
  ghost predicate Locked<T>(s: State<T>) {
    && (forall u <- s.pc :: s.pc[u].HoldsTail() <==> s.tailLock == Thread(u))
    && (forall u <- s.pc :: s.pc[u].HoldsHead() <==> s.headLock == Thread(u))
    && (s.tailLock.Thread? ==> s.tailLock.id in s.pc) && (s.headLock.Thread? ==> s.headLock.id in s.pc)
  }

  /** The position that tail stands at: one ahead of the count once the owner of the lock has moved it. */
  ghost function TailPosition<T>(s: State<T>): nat {
    |s.added| + if s.tailLock.Thread? && s.Of(s.tailLock.id).AddMoved? then 1 else 0
  }

  ghost function HeadPosition<T>(s: State<T>): nat {
    |s.removed| + if s.headLock.Thread? && s.Of(s.headLock.id).RemoveMoved? then 1 else 0
  }

  ghost predicate Counted<T>(s: State<T>) {
    && |s.buffer| == s.capacity && s.size == |s.added| - |s.removed| && 0 <= s.size <= s.capacity
    && (s.capacity > 0 ==>
      s.tail == SlotOf(TailPosition(s), s.capacity) && s.head == SlotOf(HeadPosition(s), s.capacity))
  }

  /** The slots from head to tail hold the items that were added and not yet removed. */
  ghost predicate Stored<T>(s: State<T>) {
    |s.buffer| == s.capacity && forall k :: |s.removed| <= k < |s.added| && s.capacity > 0 ==>
      s.buffer[SlotOf(k, s.capacity)] == s.added[k]
  }

  ghost predicate Delivered<T>(s: State<T>) {
    s.removed <= s.added
  }

  /** What a thread past its test of the size knows: there is room, or an item, and it keeps so. */
  ghost predicate ThreadOk<T>(s: State<T>, c: Pc<T>) {
    && |s.buffer| == s.capacity
    && (c.Adds() ==> |s.added| < |s.removed| + s.capacity)
    && (c.AddWritten? || c.AddMoved? ==>
      s.capacity > 0 && s.buffer[SlotOf(|s.added|, s.capacity)] == c.item)
    && (c.Removes() ==> |s.removed| < |s.added|)
    && (c.RemoveRead? || c.RemoveMoved? ==> |s.removed| < |s.added| && s.added[|s.removed|] == c.out)
  }

  ghost predicate AllOk<T>(s: State<T>) {
    forall u <- s.pc :: ThreadOk(s, s.pc[u])
  }

  ghost predicate Inv<T>(s: State<T>) {
    Locked(s) && Counted(s) && Stored(s) && Delivered(s) && AllOk(s)
  }

  lemma InitInv<T>(buffer: seq<T>)
    ensures Inv(Init(buffer))
  {
  }

  // ---------------------------------------------------------------- one step

  lemma OwnThread<T>(s: State<T>, u: nat)
    requires Inv(s) && u in s.pc
    ensures ThreadOk(s, s.pc[u]) && s.Of(u) == s.pc[u]
    ensures s.pc[u].HoldsTail() <==> s.tailLock == Thread(u)
    ensures s.pc[u].HoldsHead() <==> s.headLock == Thread(u)
  {
  }

  /** A thread takes only a free lock, and gives back only its own. */
  lemma StepLocks<T>(s: State<T>, u: nat, c: Choice<T>)
    ensures var s', was := Step(s, u, c), s.Of(u);
      && (s' == s || s'.pc == s.pc[u := s'.Of(u)])
      && LockStep(s.tailLock, u, was.HoldsTail(), s'.Of(u).HoldsTail(), s'.tailLock)
      && LockStep(s.headLock, u, was.HoldsHead(), s'.Of(u).HoldsHead(), s'.headLock)
  {
    StepOfOne(s, u, c);
  }

  /** A step moves the program counter of its own thread only. */
  lemma StepOfOne<T>(s: State<T>, u: nat, c: Choice<T>)
    ensures Step(s, u, c) == s || Step(s, u, c).pc == s.pc[u := Step(s, u, c).Of(u)]
  {
    match s.Of(u)
    case Idle =>
    case AddStart(_) =>
    case AddLocked(_) =>
    case RemoveLocked =>
    case _ =>
  }

  predicate LockStep(lock: Owner, u: nat, before: bool, after: bool, lock': Owner) {
    if before == after then lock' == lock
    else if after then lock == Free && lock' == Thread(u)
    else lock' == Free
  }

  lemma LockKept<T>(s: State<T>, u: nat, c: Choice<T>)
    requires Locked(s)
    ensures Locked(Step(s, u, c))
  {
    StepLocks(s, u, c);
    hide Step;
  }

  /** Other threads stay outside of the section that `u` is in. */
  lemma OthersOutside<T>(s: State<T>, u: nat, v: nat)
    requires Locked(s) && u in s.pc && v in s.pc && u != v
    ensures s.pc[u].HoldsTail() ==> !s.pc[v].HoldsTail()
    ensures s.pc[u].HoldsHead() ==> !s.pc[v].HoldsHead()
  {
  }

  /** Such a step moves no item and no position. */
  lemma QuietShape<T>(s: State<T>, u: nat, c: Choice<T>)
    requires !s.Of(u).Adds() && !s.Of(u).Removes() && |s.buffer| == s.capacity
    requires s.size == |s.added| - |s.removed|
    ensures var s' := Step(s, u, c);
      && s' == s.(pc := s'.pc, headLock := s'.headLock, tailLock := s'.tailLock)
      && (s'.pc == s.pc || s'.pc == s.pc[u := s'.Of(u)])
      && !s'.Of(u).AddMoved? && !s'.Of(u).RemoveMoved?
  {
    hide ThreadOk;
  }

  lemma QuietOk<T>(s: State<T>, u: nat, c: Choice<T>)
    requires !s.Of(u).Adds() && !s.Of(u).Removes() && |s.buffer| == s.capacity
    requires s.size == |s.added| - |s.removed|
    ensures var s' := Step(s, u, c); ThreadOk(s', s'.Of(u))
  {
  }

  lemma SameOthers<T>(s: State<T>, u: nat, s': State<T>)
    requires AllOk(s) && s' == s.(pc := s'.pc, headLock := s'.headLock, tailLock := s'.tailLock)
    requires s'.pc == s.pc || s'.pc == s.pc[u := s'.Of(u)]
    requires ThreadOk(s', s'.Of(u))
    ensures AllOk(s')
  {
    forall v <- s'.pc ensures ThreadOk(s', s'.pc[v]) {
      if v != u {
        assert ThreadOk(s, s.pc[v]);
      }
    }
  }

  lemma QuietStep<T>(s: State<T>, u: nat, c: Choice<T>)
    requires Inv(s)
    requires !s.Of(u).Adds() && !s.Of(u).Removes()
    ensures Inv(Step(s, u, c))
  {
    var s' := Step(s, u, c);
    LockKept(s, u, c);
    QuietShape(s, u, c);
    QuietOk(s, u, c);
    StepLocks(s, u, c);
    SameOthers(s, u, s');
    QuietPositions(s, u, s');
    hide Step, Locked, AllOk, TailPosition, HeadPosition;
  }

  lemma QuietPositions<T>(s: State<T>, u: nat, s': State<T>)
    requires Locked(s) && Locked(s') && s' == s.(pc := s'.pc, headLock := s'.headLock, tailLock := s'.tailLock)
    requires s'.pc == s.pc || s'.pc == s.pc[u := s'.Of(u)]
    requires !s.Of(u).AddMoved? && !s'.Of(u).AddMoved? && !s.Of(u).RemoveMoved? && !s'.Of(u).RemoveMoved?
    ensures TailPosition(s') == TailPosition(s) && HeadPosition(s') == HeadPosition(s)
  {
  }

  /** The item goes to a slot that holds none of the items in the queue. */
  lemma StoreStep<T>(s: State<T>, u: nat, c: Choice<T>)
    requires Inv(s) && s.Of(u).AddReady?
    ensures Inv(Step(s, u, c))
  {
    var s' := Step(s, u, c);
    LockKept(s, u, c);
    OwnThread(s, u);
    var n := |s.added|;
    assert s.tail == SlotOf(n, s.capacity);
    forall k | |s.removed| <= k < n ensures s'.buffer[SlotOf(k, s.capacity)] == s.added[k] {
      if SlotOf(k, s.capacity) == s.tail {
        SameSlot(k, n, s.capacity);
      }
    }
    forall v <- s'.pc ensures ThreadOk(s', s'.pc[v]) {
      if v != u {
        OwnThread(s, v);
        OthersOutside(s, u, v);
      }
    }
  }

  lemma TailStep<T>(s: State<T>, u: nat, c: Choice<T>)
    requires Inv(s) && s.Of(u).AddWritten?
    ensures Inv(Step(s, u, c))
  {
    var s' := Step(s, u, c);
    LockKept(s, u, c);
    OwnThread(s, u);
    NextTurn(|s.added|, s.capacity);
    assert TailPosition(s') == TailPosition(s) + 1 && HeadPosition(s') == HeadPosition(s);
    forall v <- s'.pc ensures ThreadOk(s', s'.pc[v]) {
      if v != u {
        OwnThread(s, v);
      }
    }
  }

  lemma CountUp<T>(s: State<T>, u: nat, c: Choice<T>)
    requires Inv(s) && s.Of(u).AddMoved?
    ensures Inv(Step(s, u, c))
  {
    var s' := Step(s, u, c);
    LockKept(s, u, c);
    OwnThread(s, u);
    assert TailPosition(s') == TailPosition(s) && HeadPosition(s') == HeadPosition(s);
    forall v <- s'.pc ensures ThreadOk(s', s'.pc[v]) {
      if v != u {
        OwnThread(s, v);
        OthersOutside(s, u, v);
      }
    }
  }

  lemma LoadStep<T>(s: State<T>, u: nat, c: Choice<T>)
    requires Inv(s) && s.Of(u).RemoveReady?
    ensures Inv(Step(s, u, c))
  {
    var s' := Step(s, u, c);
    LockKept(s, u, c);
    OwnThread(s, u);
    assert TailPosition(s') == TailPosition(s) && HeadPosition(s') == HeadPosition(s);
    forall v <- s'.pc ensures ThreadOk(s', s'.pc[v]) {
      if v != u {
        OwnThread(s, v);
      }
    }
  }

  lemma HeadStep<T>(s: State<T>, u: nat, c: Choice<T>)
    requires Inv(s) && s.Of(u).RemoveRead?
    ensures Inv(Step(s, u, c))
  {
    var s' := Step(s, u, c);
    LockKept(s, u, c);
    OwnThread(s, u);
    NextTurn(|s.removed|, s.capacity);
    assert TailPosition(s') == TailPosition(s) && HeadPosition(s') == HeadPosition(s) + 1;
    forall v <- s'.pc ensures ThreadOk(s', s'.pc[v]) {
      if v != u {
        OwnThread(s, v);
      }
    }
  }

  lemma CountDown<T>(s: State<T>, u: nat, c: Choice<T>)
    requires Inv(s) && s.Of(u).RemoveMoved?
    ensures Inv(Step(s, u, c))
  {
    var s' := Step(s, u, c);
    LockKept(s, u, c);
    OwnThread(s, u);
    assert TailPosition(s') == TailPosition(s) && HeadPosition(s') == HeadPosition(s);
    forall v <- s'.pc ensures ThreadOk(s', s'.pc[v]) {
      if v != u {
        OwnThread(s, v);
        OthersOutside(s, u, v);
      }
    }
  }

  lemma StepInv<T>(s: State<T>, u: nat, c: Choice<T>)
    requires Inv(s)
    ensures Inv(Step(s, u, c))
  {
    hide Inv, Step;
    match s.Of(u)
    case AddReady(_) => StoreStep(s, u, c);
    case AddWritten(_) => TailStep(s, u, c);
    case AddMoved(_) => CountUp(s, u, c);
    case RemoveReady => LoadStep(s, u, c);
    case RemoveRead(_) => HeadStep(s, u, c);
    case RemoveMoved(_) => CountDown(s, u, c);
    case _ => QuietStep(s, u, c);
  }

  lemma {:induction false} RunInv<T>(s: State<T>, schedule: seq<(nat, Choice<T>)>)
    requires Inv(s)
    ensures Inv(Run(s, schedule))
  {
    hide Inv, Step;
    if schedule != [] {
      var last := schedule[|schedule| - 1];
      RunInv(s, schedule[..|schedule| - 1]);
      StepInv(Run(s, schedule[..|schedule| - 1]), last.0, last.1);
    }
  }

  // ---------------------------------------------------------------- what every run guarantees

  /** The items that were added and not yet removed. */
  ghost function Queue<T>(s: State<T>): seq<T>
    requires |s.removed| <= |s.added|
  {
    s.added[|s.removed|..]
  }

  /** Each step is a step of a bounded first-in first-out queue or leaves it alone. */
  lemma StepRefinesQueue<T>(s: State<T>, u: nat, c: Choice<T>)
    requires Inv(s) && |s.removed| <= |s.added|
    ensures var s' := Step(s, u, c);
      && Inv(s') && |s'.removed| <= |s'.added| && |Queue(s)| == s.size <= s.capacity
      && (|| (!s.Of(u).AddMoved? && !s.Of(u).RemoveMoved? && Queue(s') == Queue(s))
          || (s.Of(u).AddMoved? && |Queue(s)| < s.capacity && Queue(s') == Queue(s) + [s.Of(u).item])
          || (s.Of(u).RemoveMoved? && Queue(s) != [] && s.Of(u).out == Queue(s)[0] && Queue(s') == Queue(s)[1..]))
  {
    StepInv(s, u, c);
    Sizes(s);
    Sizes(Step(s, u, c));
    if s.Of(u).AddMoved? || s.Of(u).RemoveMoved? {
      OwnThread(s, u);
      hide Inv;
    } else {
      SameLogs(s, u, c);
      hide Inv, Step;
    }
  }

  lemma Sizes<T>(s: State<T>)
    requires Inv(s)
    ensures s.size == |s.added| - |s.removed| && 0 <= s.size <= s.capacity
  {
  }

  lemma SameLogs<T>(s: State<T>, u: nat, c: Choice<T>)
    requires !s.Of(u).AddMoved? && !s.Of(u).RemoveMoved?
    ensures Step(s, u, c).added == s.added && Step(s, u, c).removed == s.removed
  {
  }

  /** A thread that stores an item and a thread that loads one are at different slots. */
  ghost predicate Apart<T>(s: State<T>) {
    forall u, v | u in s.pc && v in s.pc && s.pc[u].AddReady? && s.pc[v].RemoveReady? :: s.tail != s.head
  }

  /** At most one thread stores, and at most one loads. */
  ghost predicate Alone<T>(s: State<T>) {
    forall u, v | u in s.pc && v in s.pc && u != v ::
      !(s.pc[u].HoldsTail() && s.pc[v].HoldsTail()) && !(s.pc[u].HoldsHead() && s.pc[v].HoldsHead())
  }

  lemma StoreApartFromLoad<T>(s: State<T>, u: nat, v: nat)
    requires Inv(s) && u in s.pc && v in s.pc && s.pc[u].AddReady? && s.pc[v].RemoveReady?
    ensures s.tail != s.head
  {
    OwnThread(s, u);
    OwnThread(s, v);
    if s.tail == s.head {
      SameSlot(|s.removed|, |s.added|, s.capacity);
    }
  }

  /** In every run values come out in the order in which they went in, none lost and none twice. */
  lemma EveryRunIsFifo<T>(buffer: seq<T>, schedule: seq<(nat, Choice<T>)>)
    ensures var s := Run(Init(buffer), schedule);
      && s.removed <= s.added && 0 <= s.size == |s.added| - |s.removed| <= |buffer|
      && Apart(s) && Alone(s)
  {
    InitInv(buffer);
    RunInv(Init(buffer), schedule);
    CapacityStays(Init(buffer), schedule);
    var s := Run(Init(buffer), schedule);
    hide Run;
    forall u, v | u in s.pc && v in s.pc && s.pc[u].AddReady? && s.pc[v].RemoveReady? ensures s.tail != s.head {
      StoreApartFromLoad(s, u, v);
    }
    hide AllOk, Stored;
  }

  lemma {:induction false} CapacityStays<T>(s: State<T>, schedule: seq<(nat, Choice<T>)>)
    ensures Run(s, schedule).capacity == s.capacity
  {
    if schedule != [] {
      CapacityStays(s, schedule[..|schedule| - 1]);
    }
  }
}
