/**
 * The bounded queue without locks: any number of threads step through add and
 * remove, one load, compare-and-swap or store at a time.
 */
module NonBlockingQueue {
  import opened Collections
  import opened RingSlots

  /** Where a thread is: the step it takes next, and its local variables. */
  datatype Pc<T> =
    | Idle
    | AddStart(item: T)                // loads tail
    | AddLoaded(item: T, pos: nat)     // loads the slot's seq
    | AddReady(item: T, pos: nat)      // swaps tail
    | AddClaimed(item: T, pos: nat)    // stores the slot's data
    | AddWritten(item: T, pos: nat)    // stores the slot's seq
    | RemoveStart                      // loads head
    | RemoveLoaded(pos: nat)           // loads the slot's seq
    | RemoveReady(pos: nat)            // swaps head
    | RemoveClaimed(pos: nat)          // loads the slot's data
    | RemoveRead(pos: nat, out: T)     // stores the slot's seq
  {
    /** The thread holds the slot of position `p`, between its swap of tail and its store of seq. */
    predicate Adds(p: nat) {
      (AddClaimed? || AddWritten?) && pos == p
    }

    predicate Removes(p: nat) {
      (RemoveClaimed? || RemoveRead?) && pos == p
    }
  }

  /** `added` logs the items in the order of the swaps of tail, `removed` the values returned, by position. */
  datatype State<T> = State(
    capacity: nat, seqs: seq<nat>, data: seq<T>, head: nat, tail: nat, pc: map<nat, Pc<T>>,
    added: seq<T>, removed: map<nat, T>)
  {
    predicate Formed() {
      capacity > 0 && |seqs| == capacity && |data| == capacity
    }

    function Of(u: nat): Pc<T> {
      if u in pc then pc[u] else Idle
    }

    function At(u: nat, c: Pc<T>): State<T> {
      this.(pc := pc[u := c])
    }
  }

  /** What the environment decides: the operation an idle thread starts, and whether a weak swap fails for no reason. */
  datatype Choice<T> = Add(item: T) | Remove | Go(fails: bool)

  function Init<T>(capacity: nat, data: seq<T>): State<T> {
    State(capacity, seq(capacity, i => i), data, 0, 0, map[], [], map[])
  }

  /** One step of thread `u`. */
  function Step<T>(s: State<T>, u: nat, c: Choice<T>): (s': State<T>)
    requires s.Formed()
    ensures s'.Formed() && s'.capacity == s.capacity
  {
    match s.Of(u)
    case Idle =>
      (match c
       case Add(item) => s.At(u, AddStart(item))
       case Remove => s.At(u, RemoveStart)
       case Go(_) => s)
    case AddStart(item) => s.At(u, AddLoaded(item, s.tail))
    case AddLoaded(item, pos) =>
      s.At(u, if s.seqs[pos % s.capacity] == pos then AddReady(item, pos) else AddStart(item))
    case AddReady(item, pos) =>
      if s.tail == pos && !(c.Go? && c.fails)
      then s.At(u, AddClaimed(item, pos)).(tail := pos + 1, added := s.added + [item])
      else s.At(u, AddStart(item))
    case AddClaimed(item, pos) =>
      s.At(u, AddWritten(item, pos)).(data := s.data[pos % s.capacity := item])
    case AddWritten(item, pos) =>
      s.At(u, Idle).(seqs := s.seqs[pos % s.capacity := pos + 1])
    case RemoveStart => s.At(u, RemoveLoaded(s.head))
    case RemoveLoaded(pos) =>
      s.At(u, if s.seqs[pos % s.capacity] == pos + 1 then RemoveReady(pos) else RemoveStart)
    case RemoveReady(pos) =>
      if s.head == pos && !(c.Go? && c.fails)
      then s.At(u, RemoveClaimed(pos)).(head := pos + 1)
      else s.At(u, RemoveStart)
    case RemoveClaimed(pos) => s.At(u, RemoveRead(pos, s.data[pos % s.capacity]))
    case RemoveRead(pos, out) =>
      s.At(u, Idle).(seqs := s.seqs[pos % s.capacity := pos + s.capacity], removed := s.removed[pos := out])
  }

  function Run<T>(s: State<T>, schedule: seq<(nat, Choice<T>)>): (s': State<T>)
    requires s.Formed()
    ensures s'.Formed() && s'.capacity == s.capacity
  {
    if schedule == [] then s
    else
      var before := Run(s, schedule[..|schedule| - 1]);
      var last := schedule[|schedule| - 1];
      Step(before, last.0, last.1)
  }

  // ---------------------------------------------------------------- the invariant

  ghost predicate HasAdder<T>(pc: map<nat, Pc<T>>, p: nat) {
    exists u <- pc :: pc[u].Adds(p)
  }

  ghost predicate HasRemover<T>(pc: map<nat, Pc<T>>, p: nat) {
    exists u <- pc :: pc[u].Removes(p)
  }

  /** The slot waits for the item of position `p`. */
  ghost predicate Waiting<T>(s: State<T>, p: nat) {
    s.head <= p < s.head + s.capacity && s.tail <= p + s.capacity && (p < s.tail ==> HasAdder(s.pc, p))
  }

  /** The slot holds the item of position `p`. */
  ghost predicate Holding<T>(s: State<T>, i: nat, p: nat)
    requires i < |s.data|
  {
    && p < s.tail <= p + s.capacity && s.head <= p + s.capacity
    && p < |s.added| && s.data[i] == s.added[p] && (p < s.head ==> HasRemover(s.pc, p))
  }

  ghost predicate SlotOk<T>(s: State<T>, i: nat)
    requires s.Formed() && i < s.capacity
  {
    if s.seqs[i] % s.capacity == i then Waiting(s, s.seqs[i])
    else s.seqs[i] > 0 && (s.seqs[i] - 1) % s.capacity == i && Holding(s, i, s.seqs[i] - 1)
  }

  ghost predicate ThreadOk<T>(s: State<T>, c: Pc<T>)
    requires s.Formed()
  {
    match c
    case Idle => true
    case AddStart(_) => true
    case AddLoaded(_, pos) => pos <= s.tail
    case AddReady(_, pos) => pos < s.tail || (pos == s.tail && s.seqs[pos % s.capacity] == pos)
    case AddClaimed(item, pos) => pos < |s.added| && s.added[pos] == item && s.seqs[pos % s.capacity] == pos
    case AddWritten(item, pos) =>
      pos < |s.added| && s.added[pos] == item && s.seqs[pos % s.capacity] == pos && s.data[pos % s.capacity] == item
    case RemoveStart => true
    case RemoveLoaded(pos) => pos <= s.head
    case RemoveReady(pos) => pos < s.head || (pos == s.head && s.seqs[pos % s.capacity] == pos + 1)
    case RemoveClaimed(pos) => pos < s.head && s.seqs[pos % s.capacity] == pos + 1 && pos !in s.removed
    case RemoveRead(pos, out) =>
      && pos < s.head && s.seqs[pos % s.capacity] == pos + 1 && pos !in s.removed
      && pos < |s.added| && out == s.added[pos]
  }

  /** No position is claimed twice. */
  ghost predicate Exclusive<T>(pc: map<nat, Pc<T>>) {
    forall u <- pc, v <- pc, p: nat | u != v ::
      !(pc[u].Adds(p) && pc[v].Adds(p)) && !(pc[u].Removes(p) && pc[v].Removes(p))
  }

  /** Thread `u` adds or removes the value of position `p`. */
  ghost predicate Owns<T>(s: State<T>, u: nat, p: nat) {
    s.Of(u).Adds(p) || s.Of(u).Removes(p)
  }

  /** Between its swap and its store of seq, a thread alone has its slot, whatever round the others are in. */
  ghost predicate OneOwner<T>(s: State<T>)
    requires s.capacity > 0
  {
    forall u, v, p: nat, q: nat | u != v && Owns(s, u, p) && Owns(s, v, q) ::
      SlotOf(p, s.capacity) != SlotOf(q, s.capacity)
  }

  /** Every position passed by head has been delivered once, with its item, or is about to be. */
  ghost predicate Delivered<T>(s: State<T>)
    requires s.Formed()
  {
    && (forall p <- s.removed :: p < s.head && p < |s.added| && s.removed[p] == s.added[p])
    && (forall p: nat | p < s.head :: p in s.removed || s.seqs[p % s.capacity] == p + 1)
  }

  ghost predicate Inv<T>(s: State<T>) {
    && s.Formed() && s.capacity >= 2
    && s.head <= s.tail <= s.head + s.capacity && |s.added| == s.tail
    && (forall i: nat | i < s.capacity :: SlotOk(s, i))
    && (forall u <- s.pc :: ThreadOk(s, s.pc[u]))
    && Exclusive(s.pc)
    && Delivered(s)
  }

  lemma InitInv<T>(capacity: nat, data: seq<T>)
    requires capacity >= 2 && |data| == capacity
    ensures Inv(Init(capacity, data))
  {
    var s := Init(capacity, data);
    forall i: nat | i < capacity ensures SlotOk(s, i) {
      assert s.seqs[i] == i;
      SmallSlot(i, capacity);
    }
  }

  lemma SmallSlot(i: nat, n: nat)
    requires i < n
    ensures i % n == i
  {
  }

  lemma OwnersApart<T>(s: State<T>, u: nat, v: nat, p: nat, q: nat)
    requires Inv(s) && u != v && Owns(s, u, p) && Owns(s, v, q)
    ensures SlotOf(p, s.capacity) != SlotOf(q, s.capacity)
  {
    hide SlotOk, Delivered;
    assert ThreadOk(s, s.pc[u]) && ThreadOk(s, s.pc[v]);
    NextSlot(p, s.capacity);
    NextSlot(q, s.capacity);
  }

  /** No slot has two owners, be they adders or removers of the same or of different positions. */
  lemma SlotsHaveOneOwner<T>(s: State<T>)
    requires Inv(s)
    ensures s.capacity > 0 && OneOwner(s)
  {
    assert s.capacity > 0;
    hide Inv, Owns;
    forall u, v, p: nat, q: nat | u != v && Owns(s, u, p) && Owns(s, v, q)
      ensures SlotOf(p, s.capacity) != SlotOf(q, s.capacity)
    {
      OwnersApart(s, u, v, p, q);
    }
  }

  // ---------------------------------------------------------------- what each step keeps

  lemma ClaimsKept<T>(pc: map<nat, Pc<T>>, u: nat, c: Pc<T>, p: nat)
    ensures (u in pc && pc[u].Adds(p) ==> c.Adds(p)) && HasAdder(pc, p) ==> HasAdder(pc[u := c], p)
    ensures (u in pc && pc[u].Removes(p) ==> c.Removes(p)) && HasRemover(pc, p) ==> HasRemover(pc[u := c], p)
    ensures c.Adds(p) ==> HasAdder(pc[u := c], p)
    ensures c.Removes(p) ==> HasRemover(pc[u := c], p)
  {
    var pc' := pc[u := c];
    assert pc'[u] == c;
    if HasAdder(pc, p) {
      var v :| v in pc && pc[v].Adds(p);
      assert v != u ==> pc'[v].Adds(p);
    }
    if HasRemover(pc, p) {
      var v :| v in pc && pc[v].Removes(p);
      assert v != u ==> pc'[v].Removes(p);
    }
  }

  /** The claims of thread `u` stay as they are. */
  ghost predicate SameClaims<T>(s: State<T>, u: nat, c: Pc<T>) {
    forall p: nat :: c.Adds(p) == s.Of(u).Adds(p) && c.Removes(p) == s.Of(u).Removes(p)
  }

  lemma LocalSlot<T>(s: State<T>, u: nat, c: Pc<T>, i: nat)
    requires s.Formed() && i < s.capacity && SlotOk(s, i) && SameClaims(s, u, c)
    ensures SlotOk(s.At(u, c), i)
  {
    hide HasAdder, HasRemover;
    ClaimsKept(s.pc, u, c, s.seqs[i]);
    if s.seqs[i] > 0 {
      ClaimsKept(s.pc, u, c, s.seqs[i] - 1);
    }
  }

  lemma LocalExclusive<T>(s: State<T>, u: nat, c: Pc<T>)
    requires Exclusive(s.pc) && SameClaims(s, u, c)
    ensures Exclusive(s.pc[u := c])
  {
  }

  /** A thread takes a step that touches nothing shared. */
  lemma LocalStep<T>(s: State<T>, u: nat, c: Pc<T>)
    requires Inv(s) && ThreadOk(s, c) && SameClaims(s, u, c)
    ensures Inv(s.At(u, c))
  {
    hide SlotOk, Exclusive, SameClaims;
    var s' := s.At(u, c);
    LocalExclusive(s, u, c);
    forall i: nat | i < s.capacity ensures SlotOk(s', i) {
      LocalSlot(s, u, c, i);
    }
    forall v <- s'.pc ensures ThreadOk(s', s'.pc[v]) {
      assert v != u ==> ThreadOk(s, s.pc[v]);
    }
  }

  lemma ClaimTailSlot<T>(s: State<T>, u: nat, item: T, i: nat)
    requires Inv(s) && s.Of(u) == AddReady(item, s.tail) && s.seqs[s.tail % s.capacity] == s.tail && i < s.capacity
    ensures SlotOk(s.At(u, AddClaimed(item, s.tail)).(tail := s.tail + 1, added := s.added + [item]), i)
  {
    hide Exclusive, Delivered, ThreadOk, HasAdder, HasRemover;
    assert SlotOk(s, i);
    var c := AddClaimed(item, s.tail);
    var t := if s.seqs[i] % s.capacity == i then s.seqs[i] else s.seqs[i] - 1;
    SlotAgain(t, s.capacity);
    ClaimsKept(s.pc, u, c, t);
  }

  lemma ClaimedExclusive<T>(pc: map<nat, Pc<T>>, u: nat, c: Pc<T>, p: nat)
    requires Exclusive(pc) && forall v <- pc :: !pc[v].Adds(p) || c.Removes(p)
    requires forall v <- pc :: !pc[v].Removes(p) || c.Adds(p)
    requires c.Adds(p) || c.Removes(p)
    ensures Exclusive(pc[u := c])
  {
  }

  lemma TailSlotFree<T>(s: State<T>)
    requires Inv(s) && s.seqs[s.tail % s.capacity] == s.tail
    ensures s.tail < s.head + s.capacity
  {
    SlotBound(s.tail, s.capacity);
    assert SlotOk(s, s.tail % s.capacity);
  }

  lemma TailClaimed<T>(s: State<T>, u: nat, item: T, s': State<T>)
    requires Inv(s) && s.Of(u) == AddReady(item, s.tail)
    requires s' == s.At(u, AddClaimed(item, s.tail)).(tail := s.tail + 1, added := s.added + [item])
    ensures Inv(s')
  {
    hide SlotOk, Exclusive;
    assert ThreadOk(s, s.pc[u]);
    TailSlotFree(s);
    forall i: nat | i < s.capacity ensures SlotOk(s', i) {
      ClaimTailSlot(s, u, item, i);
    }
    forall v <- s'.pc ensures ThreadOk(s', s'.pc[v]) {
      assert v != u ==> ThreadOk(s, s.pc[v]);
    }
    forall v <- s.pc ensures !s.pc[v].Adds(s.tail) {
      assert ThreadOk(s, s.pc[v]);
    }
    ClaimedExclusive(s.pc, u, AddClaimed(item, s.tail), s.tail);
  }

  /** The swap of tail reserves the slot for one thread. */
  lemma ClaimTail<T>(s: State<T>, u: nat, item: T, s': State<T>)
    requires Inv(s) && s.Of(u) == AddReady(item, s.tail)
    requires s' == s.At(u, AddClaimed(item, s.tail)).(tail := s.tail + 1, added := s.added + [item])
    ensures Inv(s') && Owns(s', u, s.tail) && s'.capacity > 0 && OneOwner(s')
  {
    TailClaimed(s, u, item, s');
    hide Inv, OneOwner;
    SlotsHaveOneOwner(s');
  }

  lemma WriteSlot<T>(s: State<T>, u: nat, item: T, pos: nat, i: nat)
    requires Inv(s) && s.Of(u) == AddClaimed(item, pos) && i < s.capacity && pos % s.capacity < s.capacity
    ensures SlotOk(s.At(u, AddWritten(item, pos)).(data := s.data[pos % s.capacity := item]), i)
  {
    hide Exclusive, Delivered, HasAdder, HasRemover;
    assert ThreadOk(s, s.pc[u]);
    LocalSlot(s, u, AddWritten(item, pos), i);
  }

  /** A claimed slot is written, which nobody else looks at. */
  lemma WriteData<T>(s: State<T>, u: nat, item: T, pos: nat, s': State<T>)
    requires Inv(s) && s.Of(u) == AddClaimed(item, pos) && pos % s.capacity < s.capacity
    requires s' == s.At(u, AddWritten(item, pos)).(data := s.data[pos % s.capacity := item])
    ensures Inv(s')
  {
    hide SlotOk;
    assert ThreadOk(s, s.pc[u]);
    forall i: nat | i < s.capacity ensures SlotOk(s', i) {
      WriteSlot(s, u, item, pos, i);
    }
    LocalExclusive(s, u, AddWritten(item, pos));
    forall v <- s'.pc ensures ThreadOk(s', s'.pc[v]) {
      assert v != u ==> ThreadOk(s, s.pc[v]);
      assert v != u ==> !(s.pc[v].Adds(pos) && s.pc[u].Adds(pos));
    }
  }

  lemma PublishSlot<T>(s: State<T>, u: nat, item: T, pos: nat, i: nat)
    requires Inv(s) && s.Of(u) == AddWritten(item, pos) && i < s.capacity && pos % s.capacity < s.capacity
    ensures SlotOk(s.At(u, Idle).(seqs := s.seqs[pos % s.capacity := pos + 1]), i)
  {
    hide Exclusive, Delivered, HasAdder, HasRemover;
    assert ThreadOk(s, s.pc[u]);
    assert SlotOk(s, i);
    NextSlot(pos, s.capacity);
    var t := if s.seqs[i] % s.capacity == i then s.seqs[i] else s.seqs[i] - 1;
    ClaimsKept(s.pc, u, Idle, t);
  }

  lemma ReleasedExclusive<T>(pc: map<nat, Pc<T>>, u: nat)
    requires Exclusive(pc)
    ensures Exclusive(pc[u := Idle])
  {
  }

  /** The item is handed over to the removers. */
  lemma Publish<T>(s: State<T>, u: nat, item: T, pos: nat, s': State<T>)
    requires Inv(s) && s.Of(u) == AddWritten(item, pos) && pos % s.capacity < s.capacity
    requires s' == s.At(u, Idle).(seqs := s.seqs[pos % s.capacity := pos + 1])
    ensures Inv(s')
  {
    hide SlotOk, HasAdder, HasRemover;
    assert ThreadOk(s, s.pc[u]);
    forall i: nat | i < s.capacity ensures SlotOk(s', i) {
      PublishSlot(s, u, item, pos, i);
    }
    ReleasedExclusive(s.pc, u);
    forall v <- s'.pc ensures ThreadOk(s', s'.pc[v]) {
      PublishThread(s, u, v, item, pos, s');
    }
    if pos > 0 {
      NextSlot(pos - 1, s.capacity);
    }
    assert Delivered(s');
  }

  lemma PublishThread<T>(s: State<T>, u: nat, v: nat, item: T, pos: nat, s': State<T>)
    requires Inv(s) && s.Of(u) == AddWritten(item, pos) && pos % s.capacity < s.capacity
    requires s' == s.At(u, Idle).(seqs := s.seqs[pos % s.capacity := pos + 1]) && v in s'.pc
    ensures ThreadOk(s', s'.pc[v])
  {
    hide SlotOk, HasAdder, HasRemover, Delivered;
    assert ThreadOk(s, s.pc[u]);
    if v != u {
      assert ThreadOk(s, s.pc[v]);
      assert !(s.pc[v].Adds(pos) && s.pc[u].Adds(pos));
      if pos > 0 {
        NextSlot(pos - 1, s.capacity);
      }
    }
  }

  lemma ClaimHeadSlot<T>(s: State<T>, u: nat, i: nat)
    requires Inv(s) && s.Of(u) == RemoveReady(s.head) && s.seqs[s.head % s.capacity] == s.head + 1 && i < s.capacity
    ensures SlotOk(s.At(u, RemoveClaimed(s.head)).(head := s.head + 1), i)
  {
    hide Exclusive, Delivered, ThreadOk, HasAdder, HasRemover;
    assert SlotOk(s, i);
    var t := if s.seqs[i] % s.capacity == i then s.seqs[i] else s.seqs[i] - 1;
    SlotAgain(t, s.capacity);
    ClaimsKept(s.pc, u, RemoveClaimed(s.head), t);
  }

  lemma HeadSlotFull<T>(s: State<T>)
    requires Inv(s) && s.seqs[s.head % s.capacity] == s.head + 1
    ensures s.head < s.tail
  {
    SlotBound(s.head, s.capacity);
    NextSlot(s.head, s.capacity);
    assert SlotOk(s, s.head % s.capacity);
  }

  lemma HeadClaimed<T>(s: State<T>, u: nat, s': State<T>)
    requires Inv(s) && s.Of(u) == RemoveReady(s.head)
    requires s' == s.At(u, RemoveClaimed(s.head)).(head := s.head + 1)
    ensures Inv(s')
  {
    hide SlotOk, Exclusive;
    assert ThreadOk(s, s.pc[u]);
    HeadSlotFull(s);
    forall i: nat | i < s.capacity ensures SlotOk(s', i) {
      ClaimHeadSlot(s, u, i);
    }
    forall v <- s'.pc ensures ThreadOk(s', s'.pc[v]) {
      assert v != u ==> ThreadOk(s, s.pc[v]);
    }
    forall v <- s.pc ensures !s.pc[v].Removes(s.head) {
      assert ThreadOk(s, s.pc[v]);
    }
    ClaimedExclusive(s.pc, u, RemoveClaimed(s.head), s.head);
  }

  /** The swap of head reserves the item for one thread. */
  lemma ClaimHead<T>(s: State<T>, u: nat, s': State<T>)
    requires Inv(s) && s.Of(u) == RemoveReady(s.head)
    requires s' == s.At(u, RemoveClaimed(s.head)).(head := s.head + 1)
    ensures Inv(s') && Owns(s', u, s.head) && s'.capacity > 0 && OneOwner(s')
  {
    HeadClaimed(s, u, s');
    hide Inv, OneOwner;
    SlotsHaveOneOwner(s');
  }

  /** The item is read before its slot can be used again. */
  lemma ReadData<T>(s: State<T>, u: nat, pos: nat)
    requires Inv(s) && s.Of(u) == RemoveClaimed(pos) && pos % s.capacity < s.capacity
    ensures ThreadOk(s, RemoveRead(pos, s.data[pos % s.capacity]))
  {
    hide Exclusive, Delivered;
    assert ThreadOk(s, s.pc[u]);
    assert SlotOk(s, pos % s.capacity);
    NextSlot(pos, s.capacity);
  }

  lemma ReleaseSlot<T>(s: State<T>, u: nat, pos: nat, out: T, i: nat)
    requires Inv(s) && s.Of(u) == RemoveRead(pos, out) && i < s.capacity && pos % s.capacity < s.capacity
    ensures SlotOk(s.At(u, Idle).(seqs := s.seqs[pos % s.capacity := pos + s.capacity],
      removed := s.removed[pos := out]), i)
  {
    hide Exclusive, Delivered, HasAdder, HasRemover;
    assert ThreadOk(s, s.pc[u]);
    assert SlotOk(s, i);
    NextSlot(pos, s.capacity);
    SlotAgain(pos, s.capacity);
    var t := if s.seqs[i] % s.capacity == i then s.seqs[i] else s.seqs[i] - 1;
    ClaimsKept(s.pc, u, Idle, t);
  }

  lemma ReleaseThread<T>(s: State<T>, u: nat, v: nat, pos: nat, out: T, s': State<T>)
    requires Inv(s) && s.Of(u) == RemoveRead(pos, out) && pos % s.capacity < s.capacity
    requires s' == s.At(u, Idle).(seqs := s.seqs[pos % s.capacity := pos + s.capacity],
      removed := s.removed[pos := out])
    requires v in s'.pc
    ensures ThreadOk(s', s'.pc[v])
  {
    hide SlotOk, HasAdder, HasRemover, Delivered;
    assert ThreadOk(s, s.pc[u]);
    if v != u {
      assert ThreadOk(s, s.pc[v]);
      assert !(s.pc[v].Removes(pos) && s.pc[u].Removes(pos));
      NextSlot(pos, s.capacity);
    }
  }

  lemma ReleaseDelivers<T>(s: State<T>, u: nat, pos: nat, out: T, s': State<T>)
    requires s.Formed() && s'.Formed() && Delivered(s) && ThreadOk(s, RemoveRead(pos, out))
    requires s'.seqs == s.seqs[pos % s.capacity := pos + s.capacity] && s'.removed == s.removed[pos := out]
    requires s'.head == s.head && s'.added == s.added && s'.capacity == s.capacity
    ensures Delivered(s')
  {
  }

  /** The slot is handed on to the adder of the next round. */
  lemma Release<T>(s: State<T>, u: nat, pos: nat, out: T, s': State<T>)
    requires Inv(s) && s.Of(u) == RemoveRead(pos, out) && pos % s.capacity < s.capacity
    requires s' == s.At(u, Idle).(seqs := s.seqs[pos % s.capacity := pos + s.capacity],
      removed := s.removed[pos := out])
    ensures Inv(s')
  {
    hide SlotOk, Exclusive, HasAdder, HasRemover;
    assert ThreadOk(s, s.pc[u]);
    forall i: nat | i < s.capacity ensures SlotOk(s', i) {
      ReleaseSlot(s, u, pos, out, i);
    }
    ReleasedExclusive(s.pc, u);
    forall v <- s'.pc ensures ThreadOk(s', s'.pc[v]) {
      ReleaseThread(s, u, v, pos, out, s');
    }
    ReleaseDelivers(s, u, pos, out, s');
  }

  // ---------------------------------------------------------------- runs

  lemma ThreadKnows<T>(s: State<T>, u: nat)
    requires Inv(s)
    ensures s.Formed() && (u in s.pc ==> ThreadOk(s, s.pc[u]))
  {
  }

  lemma AddStepInv<T>(s: State<T>, u: nat, c: Choice<T>)
    requires Inv(s) && (s.Of(u).AddReady? || s.Of(u).AddClaimed? || s.Of(u).AddWritten?)
    ensures Inv(Step(s, u, c))
  {
    hide Inv, HasAdder, HasRemover, OneOwner, Owns;
    ThreadKnows(s, u);
    var s', pos := Step(s, u, c), s.Of(u).pos;
    SlotBound(pos, s.capacity);
    match s.Of(u)
    case AddReady(item, _) =>
      if s.tail == pos && !(c.Go? && c.fails) {
        ClaimTail(s, u, item, s');
      } else {
        LocalStep(s, u, s'.pc[u]);
      }
    case AddClaimed(item, _) => WriteData(s, u, item, pos, s');
    case AddWritten(item, _) => Publish(s, u, item, pos, s');
  }

  lemma RemoveStepInv<T>(s: State<T>, u: nat, c: Choice<T>)
    requires Inv(s) && (s.Of(u).RemoveReady? || s.Of(u).RemoveClaimed? || s.Of(u).RemoveRead?)
    ensures Inv(Step(s, u, c))
  {
    hide Inv, HasAdder, HasRemover, OneOwner, Owns;
    ThreadKnows(s, u);
    var s', pos := Step(s, u, c), s.Of(u).pos;
    SlotBound(pos, s.capacity);
    match s.Of(u)
    case RemoveReady(_) =>
      if s.head == pos && !(c.Go? && c.fails) {
        ClaimHead(s, u, s');
      } else {
        LocalStep(s, u, s'.pc[u]);
      }
    case RemoveClaimed(_) =>
      ReadData(s, u, pos);
      LocalStep(s, u, s'.pc[u]);
    case RemoveRead(_, out) => Release(s, u, pos, out, s');
  }

  lemma StepInv<T>(s: State<T>, u: nat, c: Choice<T>)
    requires Inv(s)
    ensures Inv(Step(s, u, c))
  {
    var pc := s.Of(u);
    if pc.AddReady? || pc.AddClaimed? || pc.AddWritten? {
      AddStepInv(s, u, c);
    } else if pc.RemoveReady? || pc.RemoveClaimed? || pc.RemoveRead? {
      RemoveStepInv(s, u, c);
    } else {
      ThreadKnows(s, u);
      hide Inv;
      var s' := Step(s, u, c);
      if s' != s {
        LocalStep(s, u, s'.pc[u]);
      }
    }
  }

  lemma {:induction false} RunInv<T>(s: State<T>, schedule: seq<(nat, Choice<T>)>)
    requires Inv(s)
    ensures Inv(Run(s, schedule))
  {
    if schedule != [] {
      RunInv(s, schedule[..|schedule| - 1]);
      var last := schedule[|schedule| - 1];
      StepInv(Run(s, schedule[..|schedule| - 1]), last.0, last.1);
    }
  }

  /** The queue that the positions describe. */
  ghost function Queue<T>(s: State<T>): seq<T>
    requires s.head <= s.tail <= |s.added|
  {
    s.added[s.head..s.tail]
  }

  lemma SamePositions<T>(s: State<T>, u: nat, c: Choice<T>)
    requires s.Formed() && !s.Of(u).AddReady? && !s.Of(u).RemoveReady?
    ensures var s' := Step(s, u, c); s'.head == s.head && s'.tail == s.tail && s'.added == s.added
  {
  }

  lemma AddPositions<T>(s: State<T>, u: nat, c: Choice<T>)
    requires Inv(s) && s.Of(u).AddReady?
    ensures var s' := Step(s, u, c);
      && s'.head == s.head
      && (|| (s'.tail == s.tail && s'.added == s.added)
          || (s'.tail == s.tail + 1 && s'.added == s.added + [s.Of(u).item] && s.tail < s.head + s.capacity))
  {
    hide SlotOk, Exclusive, Delivered;
    assert ThreadOk(s, s.pc[u]);
    if s.seqs[s.tail % s.capacity] == s.tail {
      TailSlotFree(s);
    }
  }

  lemma RemovePositions<T>(s: State<T>, u: nat, c: Choice<T>)
    requires Inv(s) && s.Of(u).RemoveReady?
    ensures var s' := Step(s, u, c);
      s'.tail == s.tail && s'.added == s.added && (s'.head == s.head || (s'.head == s.head + 1 && s.head < s.tail))
  {
    hide SlotOk, Exclusive, Delivered;
    assert ThreadOk(s, s.pc[u]);
    if s.seqs[s.head % s.capacity] == s.head + 1 {
      HeadSlotFull(s);
    }
  }

  lemma Positions<T>(s: State<T>)
    requires Inv(s)
    ensures s.Formed() && s.head <= s.tail <= s.head + s.capacity && |s.added| == s.tail
  {
  }

  /** Each step is a step of a bounded first-in first-out queue or leaves it alone. */
  lemma StepRefinesQueue<T>(s: State<T>, u: nat, c: Choice<T>)
    requires Inv(s) && s.head <= s.tail <= |s.added|
    ensures var s' := Step(s, u, c);
      && Inv(s') && |Queue(s)| <= s.capacity
      && (|| Queue(s') == Queue(s)
          || (s.Of(u).AddReady? && |Queue(s)| < s.capacity && Queue(s') == Queue(s) + [s.Of(u).item])
          || (s.Of(u).RemoveReady? && Queue(s) != [] && Queue(s') == Queue(s)[1..]))
  {
    hide Inv, Step;
    StepInv(s, u, c);
    Positions(s);
    Positions(Step(s, u, c));
    if s.Of(u).AddReady? {
      AddPositions(s, u, c);
    } else if s.Of(u).RemoveReady? {
      RemovePositions(s, u, c);
    } else {
      SamePositions(s, u, c);
    }
  }

  lemma NothingLost<T>(s: State<T>, k: nat)
    requires Inv(s) && k < s.head && k !in s.removed
    ensures HasRemover(s.pc, k)
  {
    hide HasRemover, HasAdder, Exclusive, ThreadOk;
    SlotBound(k, s.capacity);
    NextSlot(k, s.capacity);
    assert SlotOk(s, k % s.capacity);
  }

  lemma InvParts<T>(s: State<T>)
    requires Inv(s)
    ensures Exclusive(s.pc) && s.Formed() && Delivered(s)
  {
  }

  /** The positions whose values are returned in a run, in the order of the returns. */
  function Returned<T>(s: State<T>, schedule: seq<(nat, Choice<T>)>): seq<nat>
    requires s.Formed()
  {
    if schedule == [] then []
    else
      var before := schedule[..|schedule| - 1];
      var pc := Run(s, before).Of(schedule[|schedule| - 1].0);
      Returned(s, before) + if pc.RemoveRead? then [pc.pos] else []
  }

  /** A step that returns a value does so for a position that no step returned before. */
  lemma ReturnsOnce<T>(s: State<T>, u: nat, c: Choice<T>)
    requires Inv(s)
    ensures var removed' := Step(s, u, c).removed;
      if s.Of(u).RemoveRead? then
        var pos := s.Of(u).pos;
        pos !in s.removed && pos < |s.added| && removed' == s.removed[pos := s.added[pos]]
      else removed' == s.removed
  {
    hide SlotOk, Exclusive, Delivered;
    if u in s.pc {
      assert ThreadOk(s, s.pc[u]);
    }
  }

  lemma {:induction false} RunReturnsOnce<T>(s: State<T>, schedule: seq<(nat, Choice<T>)>)
    requires Inv(s) && s.removed == map[]
    ensures Distinct(Returned(s, schedule))
    ensures forall p: nat :: p in Returned(s, schedule) <==> p in Run(s, schedule).removed
  {
    if schedule != [] {
      var before, last := schedule[..|schedule| - 1], schedule[|schedule| - 1];
      RunReturnsOnce(s, before);
      RunInv(s, before);
      hide Inv, Step;
      ReturnsOnce(Run(s, before), last.0, last.1);
    }
  }

  /** What every run of any number of threads guarantees: the k-th value removed is the k-th value added. */
  lemma EveryRunIsFifo<T>(capacity: nat, data: seq<T>, schedule: seq<(nat, Choice<T>)>)
    requires capacity >= 2 && |data| == capacity
    ensures var s := Run(Init(capacity, data), schedule);
      && s.head <= s.tail <= s.head + capacity && |s.added| == s.tail
      && (forall k <- s.removed :: k < s.head && s.removed[k] == s.added[k])
      && (forall k: nat | k < s.head :: k in s.removed || HasRemover(s.pc, k))
      && s.capacity > 0 && OneOwner(s)
    ensures var returned := Returned(Init(capacity, data), schedule);
      Distinct(returned) && forall k: nat :: k in returned <==> k in Run(Init(capacity, data), schedule).removed
  {
    InitInv(capacity, data);
    RunInv(Init(capacity, data), schedule);
    RunReturnsOnce(Init(capacity, data), schedule);
    var s := Run(Init(capacity, data), schedule);
    hide Inv, HasRemover, Run, OneOwner, Returned, Distinct;
    Positions(s);
    InvParts(s);
    SlotsHaveOneOwner(s);
    forall k: nat | k < s.head && k !in s.removed ensures HasRemover(s.pc, k) {
      NothingLost(s, k);
    }
  }

  /** An adder finds its slot taken exactly when the queue is full or the last value there is still being removed. */
  lemma AddBlockedIff<T>(s: State<T>)
    requires Inv(s)
    ensures s.seqs[s.tail % s.capacity] != s.tail <==>
        s.tail == s.head + s.capacity || (s.tail >= s.capacity && HasRemover(s.pc, s.tail - s.capacity))
    ensures s.seqs[s.tail % s.capacity] <= s.tail
  {
    hide Exclusive, Delivered, HasAdder, ThreadOk;
    var n, i := s.capacity, s.tail % s.capacity;
    SlotBound(s.tail, n);
    assert SlotOk(s, i);
    var t := if s.seqs[i] % n == i then s.seqs[i] else s.seqs[i] - 1;
    if s.tail < t + n {
      if t <= s.tail {
        SameSlot(t, s.tail, n);
      } else {
        SameSlot(s.tail, t, n);
      }
    }
    if s.tail >= n && HasRemover(s.pc, s.tail - n) {
      RemoverHolds(s, s.tail - n);
      SlotAgain(s.tail - n, n);
    }
  }

  lemma RemoverHolds<T>(s: State<T>, p: nat)
    requires Inv(s) && HasRemover(s.pc, p)
    ensures s.seqs[p % s.capacity] == p + 1
  {
    var u :| u in s.pc && s.pc[u].Removes(p);
    assert ThreadOk(s, s.pc[u]);
  }

  /** A remover finds nothing exactly when the queue is empty or its first value is still being added. */
  lemma RemoveBlockedIff<T>(s: State<T>)
    requires Inv(s)
    ensures s.seqs[s.head % s.capacity] != s.head + 1 <==> s.head == s.tail || HasAdder(s.pc, s.head)
    ensures s.seqs[s.head % s.capacity] <= s.head + 1
  {
    hide Exclusive, Delivered, HasRemover, ThreadOk;
    var n, i := s.capacity, s.head % s.capacity;
    SlotBound(s.head, n);
    NextSlot(s.head, n);
    assert SlotOk(s, i);
    var t := if s.seqs[i] % n == i then s.seqs[i] else s.seqs[i] - 1;
    if t <= s.head && s.head < t + n {
      SameSlot(t, s.head, n);
    } else if s.head <= t && t < s.head + n {
      SameSlot(s.head, t, n);
    }
    if HasAdder(s.pc, s.head) {
      AdderHolds(s, s.head);
    }
  }

  lemma AdderHolds<T>(s: State<T>, p: nat)
    requires Inv(s) && HasAdder(s.pc, p)
    ensures s.seqs[p % s.capacity] == p
  {
    var u :| u in s.pc && s.pc[u].Adds(p);
    assert ThreadOk(s, s.pc[u]);
  }

  // ---------------------------------------------------------------- a capacity of one

  predicate Bounded<T>(s: State<T>) {
    s.head <= s.tail <= s.head + s.capacity
  }

  lemma RunOn<T>(s: State<T>, schedule: seq<(nat, Choice<T>)>, u: nat, c: Choice<T>)
    requires s.Formed()
    ensures Run(s, schedule + [(u, c)]) == Step(Run(s, schedule), u, c)
  {
    assert (schedule + [(u, c)])[..|schedule|] == schedule;
  }

  lemma Steps<T>(s: State<T>, before: seq<(nat, Choice<T>)>, n: nat)
      returns (after: seq<(nat, Choice<T>)>, s': State<T>)
    requires s.Formed()
    ensures s' == Run(s, after)
    ensures s' == Go(Run(s, before), n)
  {
    if n == 0 {
      after, s' := before, Run(s, before);
    } else {
      after, s' := Steps(s, before, n - 1);
      RunOn(s, after, 0, Choice.Go(false));
      after := after + [(0, Choice.Go(false))];
      s' := Step(s', 0, Choice.Go(false));
    }
  }

  /** Thread 0 takes `n` steps. */
  function Go<T>(s: State<T>, n: nat): (s': State<T>)
    requires s.Formed()
    ensures s'.Formed()
  {
    if n == 0 then s else Step(Go(s, n - 1), 0, Choice.Go(false))
  }

  lemma AddAlone<T>(s: State<T>, before: seq<(nat, Choice<T>)>, x: T) returns (after: seq<(nat, Choice<T>)>)
    requires s.Formed()
    requires var t := Run(s, before); t.capacity == 1 && t.Of(0) == Idle && t.seqs[0] == t.tail
    ensures var t, t' := Run(s, before), Run(s, after);
      t'.capacity == 1 && t'.Of(0) == Idle && t'.seqs[0] == t'.tail == t.tail + 1 && t'.head == t.head
  {
    RunOn(s, before, 0, Choice.Add(x));
    var s';
    after, s' := Steps(s, before + [(0, Choice.Add(x))], 5);
    AddSteps(Run(s, before), x, s');
  }

  lemma AddSteps<T>(t: State<T>, x: T, t': State<T>)
    requires t.Formed() && t.capacity == 1 && t.Of(0) == Idle && t.seqs[0] == t.tail
    requires t' == Go(Step(t, 0, Choice.Add(x)), 5)
    ensures t'.capacity == 1 && t'.Of(0) == Idle && t'.seqs[0] == t'.tail == t.tail + 1 && t'.head == t.head
  {
    var t0 := Step(t, 0, Choice.Add(x));
    assert t.tail % 1 == 0;
    assert Go(t0, 1) == t0.At(0, AddLoaded(x, t.tail));
    assert Go(t0, 2) == t0.At(0, AddReady(x, t.tail));
    assert Go(t0, 3) == t0.At(0, AddClaimed(x, t.tail)).(tail := t.tail + 1, added := t.added + [x]);
    assert Go(t0, 4).Of(0) == AddWritten(x, t.tail) && Go(t0, 4).seqs == t.seqs;
  }

  /** The bounds hold in every run exactly when the capacity is not one. */
  lemma BoundedIffTwo<T(!new)>(capacity: nat, data: seq<T>, x: T)
    requires capacity >= 1 && |data| == capacity
    ensures (forall schedule: seq<(nat, Choice<T>)> :: Bounded(Run(Init(capacity, data), schedule))) <==> capacity >= 2
  {
    var s := Init(capacity, data);
    if capacity >= 2 {
      forall schedule: seq<(nat, Choice<T>)> ensures Bounded(Run(s, schedule)) {
        EveryRunIsFifo(capacity, data, schedule);
      }
    } else {
      var once := AddAlone(s, [], x);
      var twice := AddAlone(s, once, x);
      assert !Bounded(Run(s, twice));
    }
  }
}
