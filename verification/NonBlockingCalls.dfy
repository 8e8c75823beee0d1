/**
 * The calls of the queue without locks, as seen from outside: when a call begins and
 * ends, and when it swaps tail or head.
 */
module NonBlockingCalls {
  import opened Collections
  import opened RingSlots
  import opened NonBlockingQueue

  /** What a step shows of a thread; a swap comes with the item logged at its position. */
  datatype Event<T> =
    | Begin(op: Choice<T>)
    | SwapTail(pos: nat, item: T)
    | SwapHead(pos: nat, item: T)
    | End(returned: map<nat, T>)

  /** How far the call of a thread is. */
  datatype Stage<T> =
    | NoCall
    | AddOpen(item: T)
    | AddSwapped(item: T, pos: nat)
    | RemoveOpen
    | RemoveSwapped(pos: nat, item: T)
    | Broken

  /** The law of calls: one swap between the begin and the end, of the own item, or of the one that is returned. */
  ghost function Follow<T(!new)>(stage: Stage<T>, e: Event<T>): Stage<T> {
    match e
    case Begin(Add(item)) => if stage == NoCall then AddOpen(item) else Broken
    case Begin(Remove) => if stage == NoCall then RemoveOpen else Broken
    case SwapTail(pos, item) => if stage == AddOpen(item) then AddSwapped(item, pos) else Broken
    case SwapHead(pos, item) => if stage == RemoveOpen then RemoveSwapped(pos, item) else Broken
    case End(returned) =>
      if stage.AddSwapped? && returned == map[] then NoCall
      else if stage.RemoveSwapped? && returned == map[stage.pos := stage.item] then NoCall
      else Broken
    case _ => Broken
  }

  ghost function FollowAll<T(!new)>(stage: Stage<T>, events: seq<Event<T>>): Stage<T> {
    if events == [] then stage else Follow(FollowAll(stage, events[..|events| - 1]), events[|events| - 1])
  }

  /** The entries of `m'` for keys that `m` does not have. */
  function NewlyIn<T>(m: map<nat, T>, m': map<nat, T>): map<nat, T> {
    m' - m.Keys
  }

  /** What the step from `s` to `s'`, made by thread `u`, shows of thread `v`. */
  ghost function Observed<T(!new)>(s: State<T>, s': State<T>, u: nat, c: Choice<T>, v: nat): seq<Event<T>>
    requires s.tail != s'.tail ==> s.tail < |s'.added|
    requires s.head != s'.head ==> s.head < |s'.added|
  {
    (if s.Of(v).Idle? && !s'.Of(v).Idle? then [Begin(c)] else []) +
    (if u == v && s.tail != s'.tail then [SwapTail(s.tail, s'.added[s.tail])] else []) +
    (if u == v && s.head != s'.head then [SwapHead(s.head, s'.added[s.head])] else []) +
    (if !s.Of(v).Idle? && s'.Of(v).Idle? then [End(NewlyIn(s.removed, s'.removed))] else [])
  }

  function StageOf<T>(s: State<T>, c: Pc<T>): Stage<T> {
    match c
    case Idle => NoCall
    case AddStart(item) => AddOpen(item)
    case AddLoaded(item, _) => AddOpen(item)
    case AddReady(item, _) => AddOpen(item)
    case AddClaimed(item, pos) => AddSwapped(item, pos)
    case AddWritten(item, pos) => AddSwapped(item, pos)
    case RemoveStart => RemoveOpen
    case RemoveLoaded(_) => RemoveOpen
    case RemoveReady(_) => RemoveOpen
    case RemoveClaimed(pos) => if pos < |s.added| then RemoveSwapped(pos, s.added[pos]) else Broken
    case RemoveRead(pos, out) => RemoveSwapped(pos, out)
  }

  /** Tail and head only move on, over positions whose items are logged; the logs only grow. */
  lemma SwapsAreLogged<T>(s: State<T>, u: nat, c: Choice<T>)
    requires Inv(s)
    ensures var s' := Step(s, u, c);
      && Inv(s') && s.added <= s'.added
      && (s.tail != s'.tail ==> s.tail < |s'.added|)
      && (s.head != s'.head ==> s.head < |s'.added|)
  {
    StepInv(s, u, c);
    Positions(s);
    Positions(Step(s, u, c));
    hide Inv;
  }

  ghost predicate Logged<T>(s: State<T>, s': State<T>) {
    && s.added <= s'.added && s.head <= |s.added|
    && (s.tail != s'.tail ==> s.tail < |s'.added|) && (s.head != s'.head ==> s.head < |s'.added|)
  }

  /** What the thread shows is what the law of calls allows, and leaves it where its program counter is. */
  ghost predicate Obeys<T(!new)>(s: State<T>, s': State<T>, u: nat, c: Choice<T>, v: nat)
    requires Logged(s, s')
  {
    FollowAll(StageOf(s, s.Of(v)), Observed(s, s', u, c, v)) == StageOf(s', s'.Of(v))
  }

  lemma OtherObeys<T(!new)>(s: State<T>, u: nat, c: Choice<T>, v: nat)
    requires s.Formed() && Logged(s, Step(s, u, c)) && u != v && ThreadOk(s, s.Of(v))
    ensures Obeys(s, Step(s, u, c), u, c, v)
  {
    hide NewlyIn;
    assert Step(s, u, c).Of(v) == s.Of(v);
    hide Step;
  }

  lemma BeginObeys<T(!new)>(s: State<T>, u: nat, c: Choice<T>)
    requires s.Formed() && s.Of(u).Idle? && Logged(s, Step(s, u, c))
    ensures Obeys(s, Step(s, u, c), u, c, u)
  {
    hide NewlyIn;
    var s' := Step(s, u, c);
    assert Observed(s, s', u, c, u) == if c.Go? then [] else [Begin(c)];
    FollowOne(StageOf(s, s.Of(u)), Begin(c));
  }

  lemma SwapTailObeys<T(!new)>(s: State<T>, u: nat, c: Choice<T>)
    requires s.Formed() && s.Of(u).AddReady? && Logged(s, Step(s, u, c)) && |s.added| == s.tail
    ensures Obeys(s, Step(s, u, c), u, c, u)
  {
    hide NewlyIn;
    var s', item, pos := Step(s, u, c), s.Of(u).item, s.Of(u).pos;
    if s.tail != s'.tail {
      assert s'.added == s.added + [item] && s'.Of(u) == AddClaimed(item, pos) && s'.head == s.head && pos == s.tail;
      hide Step;
      assert Observed(s, s', u, c, u) == [SwapTail(pos, item)];
      FollowOne(StageOf(s, s.Of(u)), SwapTail(pos, item));
    } else {
      assert s'.Of(u) == AddStart(item);
      assert s'.head == s.head;
      hide Step;
      assert Observed(s, s', u, c, u) == [];
    }
  }

  lemma SwapHeadObeys<T(!new)>(s: State<T>, u: nat, c: Choice<T>)
    requires s.Formed() && s.Of(u).RemoveReady? && Logged(s, Step(s, u, c))
    ensures Obeys(s, Step(s, u, c), u, c, u)
  {
    hide NewlyIn;
    var s', pos := Step(s, u, c), s.Of(u).pos;
    if s.head != s'.head {
      assert Observed(s, s', u, c, u) == [SwapHead(pos, s'.added[pos])];
      FollowOne(StageOf(s, s.Of(u)), SwapHead(pos, s'.added[pos]));
    }
  }

  lemma EndAddObeys<T(!new)>(s: State<T>, u: nat, c: Choice<T>)
    requires s.Formed() && s.Of(u).AddWritten? && Logged(s, Step(s, u, c))
    ensures Obeys(s, Step(s, u, c), u, c, u)
  {
    var s' := Step(s, u, c);
    NothingNew(s.removed);
    assert s'.Of(u).Idle? && s'.removed == s.removed && s'.tail == s.tail && s'.head == s.head;
    hide Step, NewlyIn;
    assert Observed(s, s', u, c, u) == [End(map[])];
    FollowOne(StageOf(s, s.Of(u)), End(map[]));
  }

  lemma EndRemoveObeys<T(!new)>(s: State<T>, u: nat, c: Choice<T>)
    requires s.Formed() && s.Of(u).RemoveRead? && ThreadOk(s, s.Of(u)) && Logged(s, Step(s, u, c))
    ensures Obeys(s, Step(s, u, c), u, c, u)
  {
    var s', pos, out := Step(s, u, c), s.Of(u).pos, s.Of(u).out;
    OnlyNew(s.removed, pos, out);
    assert s'.Of(u).Idle? && s'.removed == s.removed[pos := out] && s'.tail == s.tail && s'.head == s.head;
    hide Step, ThreadOk, NewlyIn;
    assert Observed(s, s', u, c, u) == [End(map[pos := out])];
    FollowOne(StageOf(s, s.Of(u)), End(map[pos := out]));
  }

  lemma OnlyNew<T(!new)>(m: map<nat, T>, k: nat, v: T)
    requires k !in m
    ensures NewlyIn(m, m[k := v]) == map[k := v]
  {
  }

  lemma NothingNew<T(!new)>(m: map<nat, T>)
    ensures NewlyIn(m, m) == map[]
  {
  }

  /** The next step is neither a swap nor the first or last one of a call. */
  predicate IsLocal<T>(pc: Pc<T>) {
    pc.AddStart? || pc.AddLoaded? || pc.AddClaimed? || pc.RemoveStart? || pc.RemoveLoaded? || pc.RemoveClaimed?
  }

  lemma LocalObeys<T(!new)>(s: State<T>, u: nat, c: Choice<T>)
    requires s.Formed() && ThreadOk(s, s.Of(u)) && Logged(s, Step(s, u, c))
    requires (s.Of(u).RemoveClaimed? ==> HoldsItem(s, s.Of(u).pos)) && IsLocal(s.Of(u))
    ensures Obeys(s, Step(s, u, c), u, c, u)
  {
    hide NewlyIn;
    assert Observed(s, Step(s, u, c), u, c, u) == [];
  }

  ghost predicate HoldsItem<T>(s: State<T>, pos: nat)
    requires s.Formed()
  {
    pos < |s.added| && s.data[pos % s.capacity] == s.added[pos]
  }

  lemma ClaimedHolds<T>(s: State<T>, u: nat)
    requires Inv(s) && s.Of(u).RemoveClaimed?
    ensures s.Formed() && HoldsItem(s, s.Of(u).pos)
  {
    Positions(s);
    SlotBound(s.Of(u).pos, s.capacity);
    ReadData(s, u, s.Of(u).pos);
  }

  lemma ThreadFacts<T>(s: State<T>, u: nat, c: Choice<T>)
    requires Inv(s)
    ensures s.Formed() && ThreadOk(s, s.Of(u)) && Logged(s, Step(s, u, c)) && |s.added| == s.tail
  {
    SwapsAreLogged(s, u, c);
    hide SlotOk, Exclusive, Delivered, Step;
  }

  /** A step shows nothing of other threads and, of its own thread, what the law of calls allows. */
  lemma StepObeys<T(!new)>(s: State<T>, u: nat, c: Choice<T>, v: nat)
    requires Inv(s)
    ensures s.Formed() && Logged(s, Step(s, u, c)) && Obeys(s, Step(s, u, c), u, c, v)
  {
    ThreadFacts(s, u, c);
    ThreadFacts(s, v, c);
    if s.Of(u).RemoveClaimed? {
      ClaimedHolds(s, u);
    }
    hide Inv, Step, Obeys, Logged, ThreadOk, HoldsItem, Observed;
    if v != u {
      OtherObeys(s, u, c, v);
    } else {
      match s.Of(u)
      case Idle => BeginObeys(s, u, c);
      case AddReady(_, _) => SwapTailObeys(s, u, c);
      case AddWritten(_, _) => EndAddObeys(s, u, c);
      case RemoveReady(_) => SwapHeadObeys(s, u, c);
      case RemoveRead(_, _) => EndRemoveObeys(s, u, c);
      case _ => LocalObeys(s, u, c);
    }
  }

  lemma FollowOne<T(!new)>(stage: Stage<T>, e: Event<T>)
    ensures FollowAll(stage, [e]) == Follow(stage, e)
  {
    assert [e][..0] == [];
  }

  lemma {:induction false} FollowBoth<T(!new)>(stage: Stage<T>, es: seq<Event<T>>, fs: seq<Event<T>>)
    ensures FollowAll(stage, es + fs) == FollowAll(FollowAll(stage, es), fs)
  {
    if fs == [] {
      assert es + fs == es;
    } else {
      FollowBoth(stage, es, fs[..|fs| - 1]);
      assert (es + fs)[..|es + fs| - 1] == es + fs[..|fs| - 1];
    }
  }

  // ---------------------------------------------------------------- runs

  /** All that a run shows of thread `v`, in order. */
  ghost function History<T(!new)>(s: State<T>, schedule: seq<(nat, Choice<T>)>, v: nat): seq<Event<T>>
    requires Inv(s)
  {
    if schedule == [] then [] else
    var before, last := schedule[..|schedule| - 1], schedule[|schedule| - 1];
    RunInv(s, before);
    StepObeys(Run(s, before), last.0, last.1, v);
    History(s, before, v) + Observed(Run(s, before), Step(Run(s, before), last.0, last.1), last.0, last.1, v)
  }

  /** In every run the calls of every thread obey the law, and the open one is as far as the thread is. */
  lemma {:induction false} CallsObeyLaw<T(!new)>(s: State<T>, schedule: seq<(nat, Choice<T>)>, v: nat)
    requires Inv(s)
    ensures Inv(Run(s, schedule))
    ensures var s' := Run(s, schedule);
      FollowAll(StageOf(s, s.Of(v)), History(s, schedule, v)) == StageOf(s', s'.Of(v)) != Broken
  {
    RunInv(s, schedule);
    NotBroken(Run(s, schedule), v);
    hide Inv, Step;
    if schedule != [] {
      var before, last := schedule[..|schedule| - 1], schedule[|schedule| - 1];
      CallsObeyLaw(s, before, v);
      var s1 := Run(s, before);
      StepObeys(s1, last.0, last.1, v);
      FollowBoth(StageOf(s, s.Of(v)), History(s, before, v),
        Observed(s1, Step(s1, last.0, last.1), last.0, last.1, v));
    }
  }

  lemma NotBroken<T>(s: State<T>, v: nat)
    requires Inv(s)
    ensures StageOf(s, s.Of(v)) != Broken
  {
    ThreadFacts(s, v, Remove);
    hide Inv;
  }

  /** The `i`-th event is the one that comes next in a row of calls: begin, swap and end by turns. */
  ghost predicate InTurn<T(!new)>(h: seq<Event<T>>, i: nat)
    requires i < |h|
  {
    match i % 3
    case 0 => h[i].Begin? && !h[i].op.Go?
    case 1 => if h[i - 1] == Begin(Remove) then h[i].SwapHead? else h[i].SwapTail? && h[i - 1] == Begin(Add(h[i].item))
    case _ => if h[i - 1].SwapHead? then h[i] == End(map[h[i - 1].pos := h[i - 1].item]) else h[i] == End(map[])
  }

  /** Calls one after the other, each with one swap between its begin and its end; the last one may be open. */
  ghost predicate Calls<T(!new)>(h: seq<Event<T>>) {
    forall i: nat :: i < |h| ==> InTurn(h, i)
  }

  /** The stage that the events end in. */
  ghost predicate EndsIn<T(!new)>(h: seq<Event<T>>, stage: Stage<T>) {
    match stage
    case NoCall => |h| % 3 == 0
    case AddOpen(item) => |h| % 3 == 1 && h[|h| - 1] == Begin(Add(item))
    case RemoveOpen => |h| % 3 == 1 && h[|h| - 1] == Begin(Remove)
    case AddSwapped(item, pos) => |h| % 3 == 2 && h[|h| - 1] == SwapTail(pos, item)
    case RemoveSwapped(pos, item) => |h| % 3 == 2 && h[|h| - 1] == SwapHead(pos, item)
    case Broken => false
  }

  lemma {:induction false} LawMeansCalls<T(!new)>(h: seq<Event<T>>)
    requires FollowAll(NoCall, h) != Broken
    ensures Calls(h) && EndsIn(h, FollowAll(NoCall, h))
  {
    if h != [] {
      var before, e := h[..|h| - 1], h[|h| - 1];
      LawMeansCalls(before);
      assert h == before + [e];
      OneMoreEvent(before, FollowAll(NoCall, before), e);
    }
  }

  lemma OneMoreEvent<T(!new)>(h: seq<Event<T>>, stage: Stage<T>, e: Event<T>)
    requires Calls(h) && EndsIn(h, stage) && Follow(stage, e) != Broken
    ensures Calls(h + [e]) && EndsIn(h + [e], Follow(stage, e))
  {
    var h' := h + [e];
    forall i: nat | i < |h'| ensures InTurn(h', i) {
      if i < |h| {
        assert InTurn(h, i) && h'[i] == h[i] && (i > 0 ==> h'[i - 1] == h[i - 1]);
      } else if i > 0 {
        assert h'[i - 1] == h[i - 1];
      }
    }
  }

  /** Every call of every thread makes one swap, with its own item or the one it returns, and only then comes back. */
  lemma EveryCallIsServed<T(!new)>(capacity: nat, data: seq<T>, schedule: seq<(nat, Choice<T>)>, v: nat)
    requires capacity >= 2 && |data| == capacity
    ensures Inv(Init(capacity, data))
    ensures var s, h := Run(Init(capacity, data), schedule), History(Init(capacity, data), schedule, v);
      Calls(h) && EndsIn(h, StageOf(s, s.Of(v)))
  {
    InitInv(capacity, data);
    CallsObeyLaw(Init(capacity, data), schedule, v);
    LawMeansCalls(History(Init(capacity, data), schedule, v));
  }

  // ---------------------------------------------------------------- a thread on its own

  function Alone<T>(s: State<T>, u: nat, n: nat): (s': State<T>)
    requires s.Formed()
    ensures s'.Formed() && s'.capacity == s.capacity
  {
    if n == 0 then s else Step(Alone(s, u, n - 1), u, Go(false))
  }

  lemma {:induction false} AloneFirst<T>(s: State<T>, u: nat, n: nat)
    requires s.Formed() && n > 0
    ensures Alone(s, u, n) == Alone(Step(s, u, Go(false)), u, n - 1)
  {
    if n > 1 {
      AloneFirst(s, u, n - 1);
    }
  }

  lemma AddsAlone<T>(s: State<T>, u: nat)
    requires s.Formed() && s.Of(u).AddStart? && s.seqs[s.tail % s.capacity] == s.tail
    ensures var s' := Alone(s, u, 5); s'.Of(u).Idle? && s'.added == s.added + [s.Of(u).item]
  {
    var s1 := Step(s, u, Go(false));
    var s2 := Step(s1, u, Go(false));
    var s3 := Step(s2, u, Go(false));
    var s4 := Step(s3, u, Go(false));
    assert s1.Of(u).AddLoaded? && s2.Of(u).AddReady? && s3.Of(u).AddClaimed? && s4.Of(u).AddWritten?;
    FiveSteps(s, u);
  }

  lemma FiveSteps<T>(s: State<T>, u: nat)
    requires s.Formed()
    ensures Alone(s, u, 5) == Step(Step(Step(Step(Step(s, u, Go(false)), u, Go(false)), u, Go(false)), u, Go(false)),
      u, Go(false))
    ensures Alone(s, u, 3) == Step(Step(Step(s, u, Go(false)), u, Go(false)), u, Go(false))
  {
    hide Step;
    assert Alone(s, u, 1) == Step(s, u, Go(false));
    assert Alone(s, u, 2) == Step(Alone(s, u, 1), u, Go(false));
    assert Alone(s, u, 3) == Step(Alone(s, u, 2), u, Go(false));
    assert Alone(s, u, 4) == Step(Alone(s, u, 3), u, Go(false));
  }

  /** Unless the queue is full or the old value is still being removed, an adder on its own gets through. */
  lemma AddGetsThrough<T>(s: State<T>, u: nat) returns (n: nat)
    requires s.Formed() && (s.Of(u).AddStart? || s.Of(u).AddLoaded? || s.Of(u).AddReady?)
    requires s.seqs[s.tail % s.capacity] == s.tail
    ensures n <= if s.Of(u).AddStart? then 5 else if s.Of(u).AddReady? then 6 else 7
    ensures Alone(s, u, n).Of(u).Idle? && Alone(s, u, n).added == s.added + [s.Of(u).item]
    decreases if s.Of(u).AddStart? then 0 else if s.Of(u).AddReady? then 1 else 2
  {
    var s1 := Step(s, u, Go(false));
    if s.Of(u).AddStart? {
      AddsAlone(s, u);
      n := 5;
    } else if s.Of(u).AddReady? && s.tail == s.Of(u).pos {
      FiveSteps(s, u);
      n := 3;
    } else {
      var m := AddGetsThrough(s1, u);
      n := m + 1;
      AloneFirst(s, u, n);
    }
  }

  lemma RemovesAlone<T>(s: State<T>, u: nat)
    requires s.Formed() && s.Of(u).RemoveStart? && s.seqs[s.head % s.capacity] == s.head + 1
    ensures var s' := Alone(s, u, 5); s'.Of(u).Idle? && s'.removed == s.removed[s.head := s.data[s.head % s.capacity]]
  {
    var s1 := Step(s, u, Go(false));
    var s2 := Step(s1, u, Go(false));
    var s3 := Step(s2, u, Go(false));
    var s4 := Step(s3, u, Go(false));
    assert s1.Of(u).RemoveLoaded? && s2.Of(u).RemoveReady? && s3.Of(u).RemoveClaimed? && s4.Of(u).RemoveRead?;
    FiveSteps(s, u);
  }

  /** Unless the queue is empty or its first value is still being added, a remover on its own gets through. */
  lemma RemoveGetsThrough<T>(s: State<T>, u: nat) returns (n: nat)
    requires s.Formed() && (s.Of(u).RemoveStart? || s.Of(u).RemoveLoaded? || s.Of(u).RemoveReady?)
    requires s.seqs[s.head % s.capacity] == s.head + 1
    ensures n <= if s.Of(u).RemoveStart? then 5 else if s.Of(u).RemoveReady? then 6 else 7
    ensures Alone(s, u, n).Of(u).Idle?
    ensures Alone(s, u, n).removed == s.removed[s.head := s.data[s.head % s.capacity]]
    decreases if s.Of(u).RemoveStart? then 0 else if s.Of(u).RemoveReady? then 1 else 2
  {
    var s1 := Step(s, u, Go(false));
    if s.Of(u).RemoveStart? {
      RemovesAlone(s, u);
      n := 5;
    } else if s.Of(u).RemoveReady? && s.head == s.Of(u).pos {
      FiveSteps(s, u);
      n := 3;
    } else {
      var m := RemoveGetsThrough(s1, u);
      n := m + 1;
      AloneFirst(s, u, n);
    }
  }

  /** Once it has swapped, a thread on its own ends its call. */
  lemma SwappedGetsThrough<T>(s: State<T>, u: nat) returns (n: nat)
    requires s.Formed()
    requires s.Of(u).AddClaimed? || s.Of(u).AddWritten? || s.Of(u).RemoveClaimed? || s.Of(u).RemoveRead?
    ensures n <= 2 && Alone(s, u, n).Of(u).Idle?
  {
    assert Alone(s, u, 1) == Step(s, u, Go(false));
    assert Alone(s, u, 2) == Step(Alone(s, u, 1), u, Go(false));
    n := if s.Of(u).AddWritten? || s.Of(u).RemoveRead? then 1 else 2;
  }
}
