/**
 * What a sequence of puts makes of an empty table, slot by slot, and when every
 * search in the tables it goes through comes to an end.
 */
module HashTableRuns {
  import opened HashTableSpec

  // ---------------------------------------------------------------- the mask

  predicate IsPowerOfTwo(n: nat) {
    n == 1 || (n > 1 && n % 2 == 0 && IsPowerOfTwo(n / 2))
  }

  lemma Doubled(n: nat)
    requires IsPowerOfTwo(n)
    ensures IsPowerOfTwo(2 * n)
  {
    assert n > 0 && 2 * n / 2 == n && 2 * n % 2 == 0;
  }

  /** The bitwise and. */
  function And(a: nat, b: nat): nat {
    if a == 0 || b == 0 then 0 else 2 * And(a / 2, b / 2) + (a % 2) * (b % 2)
  }

  /** The mask of a power of two keeps the remainder. */
  lemma {:induction false} MaskIsRemainder(index: nat, capacity: nat)
    requires IsPowerOfTwo(capacity)
    ensures And(index, capacity - 1) == index % capacity
    decreases capacity
  {
    if capacity > 1 {
      var half := capacity / 2;
      MaskIsRemainder(index / 2, half);
      AndStep(index, half);
      HalfRemainder(index, half);
    }
  }

  lemma AndStep(index: nat, half: nat)
    requires half > 0
    ensures And(index, 2 * half - 1) == 2 * And(index / 2, half - 1) + index % 2
  {
    assert (2 * half - 1) / 2 == half - 1 && (2 * half - 1) % 2 == 1;
  }

  lemma HalfRemainder(x: nat, half: nat)
    requires half > 0
    ensures x % (2 * half) == 2 * (x / 2 % half) + x % 2
  {
    var q, r := x / 2 / half, x / 2 % half;
    assert x == 2 * (q * half + r) + x % 2;
    Regroup(q, half, r);
    RemainderIs(q, 2 * half, 2 * r + x % 2, x);
  }

  lemma Regroup(q: nat, half: nat, r: nat)
    ensures 2 * (q * half + r) == q * (2 * half) + 2 * r
  {
  }

  lemma RemainderIs(q: nat, n: nat, r: nat, x: nat)
    requires n > 0 && x == q * n + r && r < n
    ensures x % n == r
  {
    var q', r' := x / n, x % n;
    assert x == q' * n + r';
    if q > q' {
      Gap(q, q', n);
    } else if q < q' {
      Gap(q', q, n);
    }
  }

  lemma Gap(a: nat, b: nat, n: nat)
    requires a > b
    ensures a * n >= b * n + n
  {
    Split(a - b - 1, b + 1, n);
    Split(1, b, n);
  }

  lemma Split(a: nat, b: nat, n: nat)
    ensures (a + b) * n == a * n + b * n && a * n >= 0
  {
  }

  // ---------------------------------------------------------------- puts as functions

  /** The number of slots a search passes, from the `d`-th on, until it meets the key or an empty slot. */
  function Stop<V>(t: seq<Entry<V>>, home: nat, key: nat, d: nat): (e: nat)
    requires home < |t| && d <= |t|
    ensures d <= e <= |t|
    decreases |t| - d
  {
    if d == |t| || t[Slot(home, d, |t|)].key == key || t[Slot(home, d, |t|)].key == 0 then d
    else Stop(t, home, key, d + 1)
  }

  lemma {:induction false} StopMeets<V>(t: seq<Entry<V>>, home: nat, key: nat, d: nat)
    requires home < |t| && d <= |t|
    ensures var e := Stop(t, home, key, d);
      && (forall i :: d <= i < e ==> t[Slot(home, i, |t|)].key != 0 && t[Slot(home, i, |t|)].key != key)
      && (e < |t| ==> t[Slot(home, e, |t|)].key == key || t[Slot(home, e, |t|)].key == 0)
    decreases |t| - d
  {
    if !(d == |t| || t[Slot(home, d, |t|)].key == key || t[Slot(home, d, |t|)].key == 0) {
      StopMeets(t, home, key, d + 1);
    }
  }

  /** The slots once an entry is written where the search ends; unchanged if it never does. */
  function WrittenAt<V>(t: seq<Entry<V>>, hash: nat -> nat, entry: Entry<V>, key: nat): seq<Entry<V>>
    requires |t| > 0
  {
    var home := hash(entry.key) % |t|;
    var e := Stop(t, home, key, 0);
    if e < |t| then t[Slot(home, e, |t|) := entry] else t
  }

  function EmptySlots<V>(n: nat, zero: V): seq<Entry<V>> {
    seq(n, _ => Entry(0, zero))
  }

  /** The first `b` slots moved to a table of `n` slots. */
  function Rehash<V>(was: seq<Entry<V>>, hash: nat -> nat, n: nat, b: nat, zero: V): (t: seq<Entry<V>>)
    requires b <= |was| && n > 0
    ensures |t| == n
  {
    if b == 0 then EmptySlots(n, zero) else WrittenAt(Rehash(was, hash, n, b - 1, zero), hash, was[b - 1], 0)
  }

  datatype Table<V> = Table(slots: seq<Entry<V>>, size: nat)

  function Grown<V>(s: Table<V>, hash: nat -> nat, zero: V): (t: seq<Entry<V>>)
    requires |s.slots| > 0
    ensures |t| > 0
  {
    if s.size > |s.slots| / 2 then Rehash(s.slots, hash, 2 * |s.slots|, |s.slots|, zero) else s.slots
  }

  function Put<V>(s: Table<V>, hash: nat -> nat, key: nat, val: V, zero: V): (s': Table<V>)
    requires |s.slots| > 0
    ensures |s'.slots| > 0
  {
    var t := Grown(s, hash, zero);
    var e := Stop(t, hash(key) % |t|, key, 0);
    var there := e < |t| && t[Slot(hash(key) % |t|, e, |t|)].key == key;
    Table(WrittenAt(t, hash, Entry(key, val), key), if there then s.size else s.size + 1)
  }

  /** The table after the puts, in their order, into an empty one. */
  function Puts<V>(capacity: nat, hash: nat -> nat, puts: seq<Entry<V>>, zero: V): (s: Table<V>)
    requires capacity > 0
    ensures |s.slots| > 0
  {
    if puts == [] then Table(EmptySlots(capacity, zero), 0)
    else
      var last := puts[|puts| - 1];
      Put(Puts(capacity, hash, puts[..|puts| - 1], zero), hash, last.key, last.val, zero)
  }

  // ---------------------------------------------------------------- what they keep

  lemma StopsInTime<V>(t: seq<Entry<V>>, place: map<nat, nat>, home: nat, key: nat)
    requires Placed(t, place) && |place| < |t| && home < |t|
    ensures var e := Stop(t, home, key, 0); e < |t| && Filled(t, home, e)
  {
    StopMeets(t, home, key, 0);
    SearchEnds(t, place, home, Stop(t, home, key, 0));
  }

  /** Moving one slot keeps the new table sound, with what was moved so far. */
  lemma MoveOne<V>(was: seq<Entry<V>>, there: map<nat, nat>, hash: nat -> nat, b: nat, t: seq<Entry<V>>,
      place: map<nat, nat>) returns (place': map<nat, nat>)
    requires Sound(t, hash, place) && Placed(was, there) && |there| < |t|
    requires b < |was| && Copied(was, there, b, t, place)
    ensures var t' := WrittenAt(t, hash, was[b], 0);
      Sound(t', hash, place') && Copied(was, there, b + 1, t', place')
  {
    hide Sound, Copied, Placed, Contents, Filled;
    SoundParts(t, hash, place);
    CopiedSize(was, there, b, t, place);
    var home := hash(was[b].key) % |t|;
    StopMeets(t, home, 0, 0);
    StopsInTime(t, place, home, 0);
    var e := Stop(t, home, 0, 0);
    if was[b].key == 0 {
      EmptySound(t, hash, place, Slot(home, e, |t|), was[b].val);
      place' := place;
    } else {
      NotCopiedYet(was, there, b, t, place);
      InsertSound(t, hash, place, was[b].key, was[b].val, e);
      place' := place[was[b].key := Slot(home, e, |t|)];
    }
    CopyOne(was, there, b, t, place, Slot(home, e, |t|));
  }

  lemma {:induction false} RehashSound<V>(was: seq<Entry<V>>, there: map<nat, nat>, hash: nat -> nat, n: nat, b: nat,
      zero: V)
      returns (place: map<nat, nat>)
    requires Placed(was, there) && |there| < n && b <= |was|
    ensures var t := Rehash(was, hash, n, b, zero);
      Sound(t, hash, place) && Copied(was, there, b, t, place)
  {
    hide Sound, Copied, Placed;
    if b == 0 {
      place := map[];
      ClearedSound(EmptySlots(n, zero), hash);
      NothingCopied(was, there, EmptySlots(n, zero));
    } else {
      var before := RehashSound(was, there, hash, n, b - 1, zero);
      place := MoveOne(was, there, hash, b - 1, Rehash(was, hash, n, b - 1, zero), before);
    }
  }

  /** While slots are moved, there is an empty slot for the next one. */
  lemma RoomForNext<V>(was: seq<Entry<V>>, there: map<nat, nat>, hash: nat -> nat, n: nat, b: nat, zero: V, home: nat)
    requires Placed(was, there) && |there| < n && b <= |was| && home < n
    ensures Stop(Rehash(was, hash, n, b, zero), home, 0, 0) < n
  {
    var t := Rehash(was, hash, n, b, zero);
    var place := RehashSound(was, there, hash, n, b, zero);
    CopiedSize(was, there, b, t, place);
    StopsInTime(t, place, home, 0);
  }

  /** The table is sound, counts its keys, and is at most one over half full. */
  ghost predicate Good<V>(s: Table<V>, hash: nat -> nat, place: map<nat, nat>) {
    Sound(s.slots, hash, place) && s.size == |place| && s.size <= |s.slots| / 2 + 1
  }

  lemma GrownGood<V>(s: Table<V>, hash: nat -> nat, place: map<nat, nat>, zero: V) returns (place': map<nat, nat>)
    requires Good(s, hash, place) && |s.slots| >= 3
    ensures var t := Grown(s, hash, zero);
      && Sound(t, hash, place') && Placed(s.slots, place) && Placed(t, place')
      && |place'| == s.size <= |t| / 2 && |t| >= |s.slots|
      && Contents(t, place') == Contents(s.slots, place)
  {
    hide Sound, Copied, Placed, Contents;
    SoundParts(s.slots, hash, place);
    if s.size > |s.slots| / 2 {
      place' := RehashSound(s.slots, place, hash, 2 * |s.slots|, |s.slots|, zero);
      SoundParts(Grown(s, hash, zero), hash, place');
      CopiedAll(s.slots, place, Grown(s, hash, zero), place');
    } else {
      place' := place;
    }
  }

  /** A put sets one key and keeps all others, whether the table grows or not. */
  lemma PutGood<V>(s: Table<V>, hash: nat -> nat, place: map<nat, nat>, key: nat, val: V, zero: V)
      returns (place': map<nat, nat>)
    requires Good(s, hash, place) && |s.slots| >= 3 && key != 0
    ensures var s' := Put(s, hash, key, val, zero);
      && Good(s', hash, place') && |s'.slots| >= |s.slots|
      && Placed(s.slots, place) && Placed(s'.slots, place')
      && Contents(s'.slots, place') == Contents(s.slots, place)[key := val]
  {
    var before := GrownGood(s, hash, place, zero);
    hide Sound, Placed, Contents, Filled, Grown;
    var t := Grown(s, hash, zero);
    var home := hash(key) % |t|;
    StopMeets(t, home, key, 0);
    StopsInTime(t, before, home, key);
    var i := Slot(home, Stop(t, home, key, 0), |t|);
    if t[i].key == key {
      KeyPlaced(t, before, i);
      UpdateSound(t, hash, before, key, val);
      place' := before;
    } else {
      KeyAbsent(t, hash, before, key, Stop(t, home, key, 0));
      InsertSound(t, hash, before, key, val, Stop(t, home, key, 0));
      place' := before[key := i];
    }
    SoundParts(Put(s, hash, key, val, zero).slots, hash, place');
  }

  /** The search for a key ends where the key is, or at an empty slot if it is nowhere. */
  lemma SearchFinds<V>(t: seq<Entry<V>>, hash: nat -> nat, place: map<nat, nat>, key: nat)
    requires Sound(t, hash, place) && |place| < |t| && key != 0
    ensures var home := hash(key) % |t|; var e := Stop(t, home, key, 0);
      && e < |t| && t[Slot(home, e, |t|)].key == (if key in place then key else 0)
      && (key in place ==> place[key] == Slot(home, e, |t|))
  {
    var home := hash(key) % |t|;
    StopMeets(t, home, key, 0);
    StopsInTime(t, place, home, key);
    if t[Slot(home, Stop(t, home, key, 0), |t|)].key == 0 {
      KeyAbsent(t, hash, place, key, Stop(t, home, key, 0));
    }
  }

  lemma KeyPlaced<V>(t: seq<Entry<V>>, place: map<nat, nat>, i: nat)
    requires Placed(t, place) && i < |t| && t[i].key != 0
    ensures t[i].key in place && place[t[i].key] == i
  {
  }

  predicate NonzeroKeys<V>(puts: seq<Entry<V>>) {
    forall i :: 0 <= i < |puts| ==> puts[i].key != 0
  }

  /** The last value put for each key. */
  ghost function LastValues<V>(puts: seq<Entry<V>>): map<nat, V> {
    if puts == [] then map[]
    else var last := puts[|puts| - 1]; LastValues(puts[..|puts| - 1])[last.key := last.val]
  }

  /** After every sequence of puts, however often the table has grown, it stands for the last values. */
  lemma {:induction false} PutsGood<V>(capacity: nat, hash: nat -> nat, puts: seq<Entry<V>>, zero: V)
      returns (place: map<nat, nat>)
    requires capacity >= 3 && NonzeroKeys(puts)
    ensures var s := Puts(capacity, hash, puts, zero);
      && Good(s, hash, place) && |s.slots| >= capacity && Placed(s.slots, place)
      && Contents(s.slots, place) == LastValues(puts)
  {
    hide Good, Put, Placed, Contents;
    if puts == [] {
      place := map[];
      StartGood(capacity, hash, zero);
    } else {
      var last := puts[|puts| - 1];
      var before := PutsGood(capacity, hash, puts[..|puts| - 1], zero);
      place := PutGood(Puts(capacity, hash, puts[..|puts| - 1], zero), hash, before, last.key, last.val, zero);
    }
  }

  lemma StartGood<V>(capacity: nat, hash: nat -> nat, zero: V)
    requires capacity > 0
    ensures var t := EmptySlots(capacity, zero);
      Good(Table(t, 0), hash, map[]) && Placed(t, map[]) && Contents(t, map[]) == map[]
  {
    ClearedSound(EmptySlots(capacity, zero), hash);
  }

  // ---------------------------------------------------------------- the least capacity

  /** Whatever key is looked up, the search comes to the key or to an empty slot. */
  ghost predicate SearchesEnd<V>(t: seq<Entry<V>>, hash: nat -> nat)
    requires |t| > 0
  {
    forall key: nat :: key != 0 ==> Stop(t, hash(key) % |t|, key, 0) < |t|
  }

  lemma PlacedSearchesEnd<V>(t: seq<Entry<V>>, hash: nat -> nat, place: map<nat, nat>)
    requires Sound(t, hash, place) && |place| < |t|
    ensures SearchesEnd(t, hash)
  {
    forall key: nat | key != 0 ensures Stop(t, hash(key) % |t|, key, 0) < |t| {
      StopsInTime(t, place, hash(key) % |t|, key);
    }
  }

  ghost predicate Full<V>(t: seq<Entry<V>>) {
    forall i :: 0 <= i < |t| ==> t[i].key != 0
  }

  /** In a full table, the search for a key that is not there goes round for ever. */
  lemma SearchGoesRound<V>(t: seq<Entry<V>>, hash: nat -> nat, key: nat)
    requires |t| > 0 && Full(t) && key != 0 && forall i :: 0 <= i < |t| ==> t[i].key != key
    ensures !SearchesEnd(t, hash)
  {
    StopMeets(t, hash(key) % |t|, key, 0);
    assert Stop(t, hash(key) % |t|, key, 0) == |t|;
  }

  /** As many keys as slots fill one slot or two, wherever they belong; then no search for another key ends. */
  lemma SmallTableFills<V>(capacity: nat, hash: nat -> nat, val: V, zero: V) returns (puts: seq<Entry<V>>)
    requires 1 <= capacity <= 2
    ensures NonzeroKeys(puts) && !SearchesEnd(Puts(capacity, hash, puts, zero).slots, hash)
  {
    var a, b := Entry(1, val), Entry(2, val);
    assert [a][..0] == [] && [a, b][..1] == [a];
    var none := Puts(capacity, hash, [], zero);
    var one := Put(none, hash, 1, val, zero);
    assert Puts(capacity, hash, [a], zero) == one;
    OneInSmall(capacity, hash, none, val, zero);
    if capacity == 1 {
      puts := [a];
      SearchGoesRound(one.slots, hash, 3);
    } else {
      puts := [a, b];
      assert Puts(capacity, hash, puts, zero) == Put(one, hash, 2, val, zero);
      TwoInSmall(hash, one, val, zero);
      SearchGoesRound(Put(one, hash, 2, val, zero).slots, hash, 3);
    }
  }

  lemma OneInSmall<V>(capacity: nat, hash: nat -> nat, none: Table<V>, val: V, zero: V)
    requires 1 <= capacity <= 2 && none == Table(EmptySlots(capacity, zero), 0)
    ensures var one := Put(none, hash, 1, val, zero);
      one.size == 1 && |one.slots| == capacity && one.slots[hash(1) % capacity].key == 1 &&
      forall i :: 0 <= i < capacity && i != hash(1) % capacity ==> one.slots[i].key == 0
  {
    assert Grown(none, hash, zero) == none.slots;
    assert Stop(none.slots, hash(1) % capacity, 1, 0) == 0;
  }

  lemma TwoInSmall<V>(hash: nat -> nat, one: Table<V>, val: V, zero: V)
    requires one.size == 1 && |one.slots| == 2 && one.slots[hash(1) % 2].key == 1
    requires forall i :: 0 <= i < 2 && i != hash(1) % 2 ==> one.slots[i].key == 0
    ensures var t := Put(one, hash, 2, val, zero).slots; |t| == 2 && Full(t) && t[0].key != 3 && t[1].key != 3
  {
    var t, home := one.slots, hash(2) % 2;
    assert Grown(one, hash, zero) == t;
    StopMeets(t, home, 2, 0);
    if home == hash(1) % 2 {
      assert Stop(t, home, 2, 1) == 1;
    }
  }

  /** In all tables that puts lead to from the given capacity, searches end. */
  ghost predicate AlwaysEnds<V(!new)>(capacity: nat, hash: nat -> nat, zero: V)
    requires capacity > 0
  {
    forall puts: seq<Entry<V>> :: NonzeroKeys(puts) ==> SearchesEnd(Puts(capacity, hash, puts, zero).slots, hash)
  }

  /** With the load factor 0.5, all searches in all tables that puts lead to end exactly for capacities from 4 on. */
  lemma SearchesEndIff<V(!new)>(capacity: nat, hash: nat -> nat, val: V, zero: V)
    requires IsPowerOfTwo(capacity)
    ensures AlwaysEnds(capacity, hash, zero) <==> capacity >= 4
  {
    if capacity >= 4 {
      forall puts: seq<Entry<V>> | NonzeroKeys(puts) ensures SearchesEnd(Puts(capacity, hash, puts, zero).slots, hash) {
        var place := PutsGood(capacity, hash, puts, zero);
        PlacedSearchesEnd(Puts(capacity, hash, puts, zero).slots, hash, place);
      }
    } else {
      var puts := SmallTableFills(capacity, hash, val, zero);
    }
  }
}
