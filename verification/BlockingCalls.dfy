/**
 * The calls of the queue with locks, as seen from outside: when a call begins and
 * ends, and when it changes the size.
 */
module BlockingCalls {
  import opened Collections
  import opened BlockingQueue

  /** What a step shows of a thread; a change of the size comes with the item logged for it. */
  datatype Event<T> =
    | Begin(op: Choice<T>)
    | CountUp(item: T)
    | CountDown(item: T)
    | End(returned: Option<T>)

  /** How far the call of a thread is. */
  datatype Stage<T> =
    | NoCall
    | AddOpen(item: T)
    | AddDone
    | RemoveOpen
    | RemoveDone(item: T)
    | Broken

  /** The law of calls: one change of the size between the begin and the end, for the item added or returned. */
  ghost function Follow<T(!new)>(stage: Stage<T>, e: Event<T>): Stage<T> {
    match e
    case Begin(Add(item)) => if stage == NoCall then AddOpen(item) else Broken
    case Begin(Remove) => if stage == NoCall then RemoveOpen else Broken
    case CountUp(item) => if stage == AddOpen(item) then AddDone else Broken
    case CountDown(item) => if stage == RemoveOpen then RemoveDone(item) else Broken
    case End(None) => if stage == AddDone then NoCall else Broken
    case End(Some(item)) => if stage == RemoveDone(item) then NoCall else Broken
    case _ => Broken
  }

  ghost function FollowAll<T(!new)>(stage: Stage<T>, events: seq<Event<T>>): Stage<T> {
    if events == [] then stage else Follow(FollowAll(stage, events[..|events| - 1]), events[|events| - 1])
  }

  /** The value that the call of the thread comes back with, if it is about to. */
  function Value<T>(pc: Pc<T>): Option<T> {
    if pc.RemoveCounted? then Some(pc.out) else None
  }

  /** What the step from `s` to `s'`, made by thread `u`, shows of thread `v`. */
  ghost function Observed<T(!new)>(s: State<T>, s': State<T>, u: nat, c: Choice<T>, v: nat): seq<Event<T>> {
    (if s.Of(v).Idle? && !s'.Of(v).Idle? then [Begin(c)] else []) +
    (if u == v && s'.size > s.size && s'.added != [] then [CountUp(s'.added[|s'.added| - 1])] else []) +
    (if u == v && s'.size < s.size && s'.removed != [] then [CountDown(s'.removed[|s'.removed| - 1])] else []) +
    (if !s.Of(v).Idle? && s'.Of(v).Idle? then [End(Value(s.Of(v)))] else [])
  }

  function StageOf<T>(pc: Pc<T>): Stage<T> {
    match pc
    case Idle => NoCall
    case AddStart(item) => AddOpen(item)
    case AddLocked(item) => AddOpen(item)
    case AddReady(item) => AddOpen(item)
    case AddWritten(item) => AddOpen(item)
    case AddMoved(item) => AddOpen(item)
    case AddCounted => AddDone
    case RemoveStart => RemoveOpen
    case RemoveLocked => RemoveOpen
    case RemoveReady => RemoveOpen
    case RemoveRead(_) => RemoveOpen
    case RemoveMoved(_) => RemoveOpen
    case RemoveCounted(out) => RemoveDone(out)
  }

  /** What the thread shows is what the law of calls allows, and leaves it where its program counter is. */
  ghost predicate Obeys<T(!new)>(s: State<T>, s': State<T>, u: nat, c: Choice<T>, v: nat) {
    FollowAll(StageOf(s.Of(v)), Observed(s, s', u, c, v)) == StageOf(s'.Of(v))
  }

  lemma FollowOne<T(!new)>(stage: Stage<T>, e: Event<T>)
    ensures FollowAll(stage, [e]) == Follow(stage, e)
  {
    assert [e][..0] == [];
  }

  lemma {:induction false} FollowBoth<T(!new)>(stage: Stage<T>, es: seq<Event<T>>, fs: seq<Event<T>>)
    ensures FollowAll(stage, es + fs) == FollowAll(FollowAll(stage, es), fs)
  {
    if fs == [] {
      assert es + fs == es;
    } else {
      FollowBoth(stage, es, fs[..|fs| - 1]);
      assert (es + fs)[..|es + fs| - 1] == es + fs[..|fs| - 1];
    }
  }

  lemma OtherObeys<T(!new)>(s: State<T>, u: nat, c: Choice<T>, v: nat)
    requires u != v
    ensures Obeys(s, Step(s, u, c), u, c, v)
  {
    OthersStay(s, u, c, v);
    hide Step;
  }

  lemma OthersStay<T>(s: State<T>, u: nat, c: Choice<T>, v: nat)
    requires u != v
    ensures Step(s, u, c).Of(v) == s.Of(v)
  {
  }

  lemma BeginObeys<T(!new)>(s: State<T>, u: nat, c: Choice<T>)
    requires s.Of(u).Idle?
    ensures Obeys(s, Step(s, u, c), u, c, u)
  {
    assert Observed(s, Step(s, u, c), u, c, u) == if c.Go? then [] else [Begin(c)];
    FollowOne(StageOf(s.Of(u)), Begin(c));
  }

  lemma CountObeys<T(!new)>(s: State<T>, u: nat, c: Choice<T>)
    requires s.Of(u).AddMoved? || s.Of(u).RemoveMoved?
    ensures Obeys(s, Step(s, u, c), u, c, u)
  {
    var e := if s.Of(u).AddMoved? then CountUp(s.Of(u).item) else CountDown(s.Of(u).out);
    assert Observed(s, Step(s, u, c), u, c, u) == [e];
    FollowOne(StageOf(s.Of(u)), e);
  }

  lemma EndObeys<T(!new)>(s: State<T>, u: nat, c: Choice<T>)
    requires s.Of(u).AddCounted? || s.Of(u).RemoveCounted?
    ensures Obeys(s, Step(s, u, c), u, c, u)
  {
    assert Observed(s, Step(s, u, c), u, c, u) == [End(Value(s.Of(u)))];
    FollowOne(StageOf(s.Of(u)), End(Value(s.Of(u))));
  }

  /** The next step is neither the first nor the last one of a call and does not change the size. */
  predicate IsLocal<T>(pc: Pc<T>) {
    !(pc.Idle? || pc.AddMoved? || pc.RemoveMoved? || pc.AddCounted? || pc.RemoveCounted?)
  }

  lemma LocalObeys<T(!new)>(s: State<T>, u: nat, c: Choice<T>)
    requires IsLocal(s.Of(u))
    ensures Obeys(s, Step(s, u, c), u, c, u)
  {
    LocalStep(s, u, c);
    hide Step;
    assert Observed(s, Step(s, u, c), u, c, u) == [];
  }

  lemma LocalStep<T>(s: State<T>, u: nat, c: Choice<T>)
    requires IsLocal(s.Of(u))
    ensures Step(s, u, c).size == s.size && StageOf(Step(s, u, c).Of(u)) == StageOf(s.Of(u))
  {
  }

  /** A step shows nothing of other threads and, of its own thread, what the law of calls allows. */
  lemma StepObeys<T(!new)>(s: State<T>, u: nat, c: Choice<T>, v: nat)
    ensures Obeys(s, Step(s, u, c), u, c, v)
  {
    hide Step, Obeys;
    if v != u {
      OtherObeys(s, u, c, v);
    } else {
      match s.Of(u)
      case Idle => BeginObeys(s, u, c);
      case AddMoved(_) => CountObeys(s, u, c);
      case RemoveMoved(_) => CountObeys(s, u, c);
      case AddCounted => EndObeys(s, u, c);
      case RemoveCounted(_) => EndObeys(s, u, c);
      case _ => LocalObeys(s, u, c);
    }
  }

  // ---------------------------------------------------------------- runs

  /** All that a run shows of thread `v`, in order. */
  ghost function History<T(!new)>(s: State<T>, schedule: seq<(nat, Choice<T>)>, v: nat): seq<Event<T>> {
    if schedule == [] then [] else
    var before, last := schedule[..|schedule| - 1], schedule[|schedule| - 1];
    History(s, before, v) + Observed(Run(s, before), Run(s, schedule), last.0, last.1, v)
  }

  /** In every run the calls of every thread obey the law, and the open one is as far as the thread is. */
  lemma {:induction false} CallsObeyLaw<T(!new)>(s: State<T>, schedule: seq<(nat, Choice<T>)>, v: nat)
    ensures FollowAll(StageOf(s.Of(v)), History(s, schedule, v)) == StageOf(Run(s, schedule).Of(v)) != Broken
  {
    NotBroken(Run(s, schedule).Of(v));
    hide Step, Observed, StageOf, Follow;
    if schedule != [] {
      var before, last := schedule[..|schedule| - 1], schedule[|schedule| - 1];
      CallsObeyLaw(s, before, v);
      StepObeys(Run(s, before), last.0, last.1, v);
      FollowBoth(StageOf(s.Of(v)), History(s, before, v),
        Observed(Run(s, before), Run(s, schedule), last.0, last.1, v));
    }
  }

  lemma NotBroken<T>(pc: Pc<T>)
    ensures StageOf(pc) != Broken
  {
  }

  /** The `i`-th event is the one that comes next in a row of calls: begin, change of the size and end by turns. */
  ghost predicate InTurn<T(!new)>(h: seq<Event<T>>, i: nat)
    requires i < |h|
  {
    match i % 3
    case 0 => h[i].Begin? && !h[i].op.Go?
    case 1 => if h[i - 1] == Begin(Remove) then h[i].CountDown? else h[i].CountUp? && h[i - 1] == Begin(Add(h[i].item))
    case _ => h[i] == End(if h[i - 1].CountDown? then Some(h[i - 1].item) else None)
  }

  /** Calls one after the other, each with one change of the size between begin and end; the last may be open. */
  ghost predicate Calls<T(!new)>(h: seq<Event<T>>) {
    forall i: nat :: i < |h| ==> InTurn(h, i)
  }

  /** The stage that the events end in. */
  ghost predicate EndsIn<T(!new)>(h: seq<Event<T>>, stage: Stage<T>) {
    match stage
    case NoCall => |h| % 3 == 0
    case AddOpen(item) => |h| % 3 == 1 && h[|h| - 1] == Begin(Add(item))
    case RemoveOpen => |h| % 3 == 1 && h[|h| - 1] == Begin(Remove)
    case AddDone => |h| % 3 == 2 && h[|h| - 1].CountUp?
    case RemoveDone(item) => |h| % 3 == 2 && h[|h| - 1] == CountDown(item)
    case Broken => false
  }

  lemma {:induction false} LawMeansCalls<T(!new)>(h: seq<Event<T>>)
    requires FollowAll(NoCall, h) != Broken
    ensures Calls(h) && EndsIn(h, FollowAll(NoCall, h))
  {
    if h != [] {
      var before, e := h[..|h| - 1], h[|h| - 1];
      LawMeansCalls(before);
      assert h == before + [e];
      OneMoreEvent(before, FollowAll(NoCall, before), e);
    }
  }

  lemma OneMoreEvent<T(!new)>(h: seq<Event<T>>, stage: Stage<T>, e: Event<T>)
    requires Calls(h) && EndsIn(h, stage) && Follow(stage, e) != Broken
    ensures Calls(h + [e]) && EndsIn(h + [e], Follow(stage, e))
  {
    var h' := h + [e];
    forall i: nat | i < |h'| ensures InTurn(h', i) {
      if i < |h| {
        assert InTurn(h, i) && h'[i] == h[i] && (i > 0 ==> h'[i - 1] == h[i - 1]);
      } else if i > 0 {
        assert h'[i - 1] == h[i - 1];
      }
    }
  }

  /** Every call changes the size once, for its own item or the one it returns, and only then comes back. */
  lemma EveryCallIsServed<T(!new)>(buffer: seq<T>, schedule: seq<(nat, Choice<T>)>, v: nat)
    ensures var h := History(Init(buffer), schedule, v);
      Calls(h) && EndsIn(h, StageOf(Run(Init(buffer), schedule).Of(v)))
  {
    CallsObeyLaw(Init(buffer), schedule, v);
    LawMeansCalls(History(Init(buffer), schedule, v));
  }

  // ---------------------------------------------------------------- what comes back

  function Listed<T>(value: Option<T>): seq<T> {
    if value.Some? then [value.value] else []
  }

  /** The values that calls come back with in a run, in the order in which they give the head lock back. */
  function Returned<T>(s: State<T>, schedule: seq<(nat, Choice<T>)>): seq<T> {
    if schedule == [] then [] else
    var before := schedule[..|schedule| - 1];
    Returned(s, before) + Listed(Value(Run(s, before).Of(schedule[|schedule| - 1].0)))
  }

  /** The value that the owner of the head lock has counted and not yet come back with. */
  function Pending<T>(s: State<T>): seq<T> {
    if s.headLock.Thread? then Listed(Value(s.Of(s.headLock.id))) else []
  }

  /** A step hands on what is pending: removed is always what came back, and what is pending. */
  lemma StepReturns<T>(s: State<T>, u: nat, c: Choice<T>, returned: seq<T>)
    requires Locked(s) && s.removed == returned + Pending(s)
    ensures Step(s, u, c).removed == returned + Listed(Value(s.Of(u))) + Pending(Step(s, u, c))
  {
  }

  /** In every run, the values returned are those removed, in order; only the last one may be still to come back. */
  lemma {:induction false} ReturnedAreRemoved<T>(buffer: seq<T>, schedule: seq<(nat, Choice<T>)>)
    ensures var s := Run(Init(buffer), schedule);
      s.removed == Returned(Init(buffer), schedule) + Pending(s) && |Pending(s)| <= 1
  {
    if schedule != [] {
      var before, last := schedule[..|schedule| - 1], schedule[|schedule| - 1];
      ReturnedAreRemoved(buffer, before);
      InitInv(buffer);
      RunInv(Init(buffer), before);
      StepReturns(Run(Init(buffer), before), last.0, last.1, Returned(Init(buffer), before));
    }
  }

  // ---------------------------------------------------------------- a thread on its own

  function Alone<T>(s: State<T>, u: nat, n: nat): State<T> {
    if n == 0 then s else Step(Alone(s, u, n - 1), u, Go)
  }

  lemma {:induction false} AloneFirst<T>(s: State<T>, u: nat, n: nat)
    requires n > 0
    ensures Alone(s, u, n) == Alone(Step(s, u, Go), u, n - 1)
  {
    hide Step;
    if n > 1 {
      AloneFirst(s, u, n - 1);
    }
  }

  /** The steps to the end of a call that does not have to wait. */
  function StepsLeft<T>(pc: Pc<T>): nat {
    match pc
    case Idle => 0
    case AddCounted => 1
    case RemoveCounted(_) => 1
    case AddMoved(_) => 2
    case RemoveMoved(_) => 2
    case AddWritten(_) => 3
    case RemoveRead(_) => 3
    case AddReady(_) => 4
    case RemoveReady => 4
    case AddLocked(_) => 5
    case RemoveLocked => 5
    case AddStart(_) => 6
    case RemoveStart => 6
  }

  /** The thread does not have to wait for its lock or for the size. */
  predicate MayGo<T>(s: State<T>, u: nat) {
    && (s.Of(u).AddStart? ==> s.tailLock == Free) && (s.Of(u).RemoveStart? ==> s.headLock == Free)
    && (s.Of(u).AddStart? || s.Of(u).AddLocked? ==> s.size < s.capacity)
    && (s.Of(u).RemoveStart? || s.Of(u).RemoveLocked? ==> s.size > 0)
    && (s.Of(u).RemoveReady? || s.Of(u).RemoveStart? || s.Of(u).RemoveLocked? ==> s.head < |s.buffer|)
  }

  lemma GoesOn<T>(s: State<T>, u: nat)
    requires MayGo(s, u) && !s.Of(u).Idle?
    ensures MayGo(Step(s, u, Go), u) && StepsLeft(Step(s, u, Go).Of(u)) == StepsLeft(s.Of(u)) - 1
  {
  }

  /** A call that does not have to wait comes to its end. */
  lemma {:induction false} GetsThrough<T>(s: State<T>, u: nat)
    requires MayGo(s, u)
    ensures Alone(s, u, StepsLeft(s.Of(u))).Of(u).Idle?
    decreases StepsLeft(s.Of(u))
  {
    if !s.Of(u).Idle? {
      GoesOn(s, u);
      hide Step, MayGo;
      AloneFirst(s, u, StepsLeft(s.Of(u)));
      GetsThrough(Step(s, u, Go), u);
    }
  }

  /** In every run, a thread may go on unless its lock is taken, or the queue is full for it or empty. */
  lemma MayGoUnless<T>(s: State<T>, u: nat)
    requires Inv(s)
    ensures MayGo(s, u) || (s.Of(u).AddStart? && s.tailLock != Free) || (s.Of(u).RemoveStart? && s.headLock != Free) ||
      ((s.Of(u).AddStart? || s.Of(u).AddLocked?) && |Queue(s)| == s.capacity) ||
      ((s.Of(u).RemoveStart? || s.Of(u).RemoveLocked?) && Queue(s) == [])
  {
  }
}
