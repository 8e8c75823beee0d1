/**
 * Open addressing with linear probing: where the slots of a table may hold their
 * keys, and why every search comes to an end.
 */
module HashTableSpec {
  /** A slot; the key 0 stands for an empty one. */
  datatype Entry<V> = Entry(key: nat, val: V)

  /** The slot `d` steps after `home`, going round at the end of the table. */
  function Slot(home: nat, d: nat, n: nat): (i: nat)
    requires home < n && d < n
    ensures i < n
  {
    if home + d < n then home + d else home + d - n
  }

  /** How many steps a search that starts at `home` takes to slot `i`. */
  function Steps(home: nat, i: nat, n: nat): (d: nat)
    requires home < n && i < n
    ensures d < n && Slot(home, d, n) == i
  {
    if home <= i then i - home else i + n - home
  }

  lemma StepsOfSlot(home: nat, d: nat, n: nat)
    requires home < n && d < n
    ensures Steps(home, Slot(home, d, n), n) == d
  {
  }

  /** No empty slot on the way of a search that starts at `home`, in its first `d` steps. */
  ghost predicate Filled<V>(t: seq<Entry<V>>, home: nat, d: nat) {
    home < |t| && d <= |t| && forall e :: 0 <= e < d ==> t[Slot(home, e, |t|)].key != 0
  }

  /** A search for the key in slot `i` gets there before it meets an empty slot. */
  ghost predicate Found<V>(t: seq<Entry<V>>, hash: nat -> nat, i: nat)
    requires i < |t|
  {
    t[i].key != 0 ==> Filled(t, hash(t[i].key) % |t|, Steps(hash(t[i].key) % |t|, i, |t|))
  }

  /** `place` tells where each key is. */
  ghost predicate Placed<V>(t: seq<Entry<V>>, place: map<nat, nat>) {
    && (forall k <- place :: place[k] < |t| && t[place[k]].key == k && k != 0)
    && (forall i :: 0 <= i < |t| && t[i].key != 0 ==> t[i].key in place && place[t[i].key] == i)
  }

  ghost predicate Sound<V>(t: seq<Entry<V>>, hash: nat -> nat, place: map<nat, nat>) {
    |t| > 0 && Placed(t, place) && forall i :: 0 <= i < |t| ==> Found(t, hash, i)
  }

  /** The map that the table stands for. */
  ghost function Contents<V>(t: seq<Entry<V>>, place: map<nat, nat>): map<nat, V>
    requires Placed(t, place)
  {
    map k | k in place :: t[place[k]].val
  }

  /** The keys of the first `n` slots. */
  ghost function KeysOf<V>(t: seq<Entry<V>>, n: nat): set<nat>
    requires n <= |t|
  {
    set i | 0 <= i < n :: t[i].key
  }

  lemma {:induction false} CountKeys<V>(t: seq<Entry<V>>, place: map<nat, nat>, n: nat)
    requires Placed(t, place) && n <= |t| && forall i :: 0 <= i < n ==> t[i].key != 0
    ensures |KeysOf(t, n)| == n && KeysOf(t, n) <= place.Keys
  {
    if n > 0 {
      CountKeys(t, place, n - 1);
      assert KeysOf(t, n) == KeysOf(t, n - 1) + {t[n - 1].key};
      assert forall i :: 0 <= i < n - 1 ==> place[t[i].key] == i != place[t[n - 1].key];
    }
  }

  lemma SubsetSize(a: set<nat>, b: set<nat>)
    requires a <= b
    ensures |a| <= |b|
  {
    assert a + (b - a) == b;
  }

  /** A table with more slots than keys has an empty slot. */
  lemma SomeSlotIsEmpty<V>(t: seq<Entry<V>>, place: map<nat, nat>)
    requires Placed(t, place) && |place| < |t|
    ensures exists i :: 0 <= i < |t| && t[i].key == 0
  {
    assert |place| == |place.Keys|;
    if forall i :: 0 <= i < |t| ==> t[i].key != 0 {
      CountKeys(t, place, |t|);
      SubsetSize(KeysOf(t, |t|), place.Keys);
    }
  }

  /** A search that has gone all the way round would have met the empty slot. */
  lemma SearchEnds<V>(t: seq<Entry<V>>, place: map<nat, nat>, home: nat, d: nat)
    requires Placed(t, place) && |place| < |t| && Filled(t, home, d)
    ensures d < |t|
  {
    SomeSlotIsEmpty(t, place);
    var i :| 0 <= i < |t| && t[i].key == 0;
    var e := Steps(home, i, |t|);
    assert t[Slot(home, e, |t|)].key == 0;
  }

  /** A search that meets an empty slot before its key is right to give up. */
  lemma KeyAbsent<V>(t: seq<Entry<V>>, hash: nat -> nat, place: map<nat, nat>, key: nat, d: nat)
    requires Sound(t, hash, place) && key != 0 && d < |t|
    requires t[Slot(hash(key) % |t|, d, |t|)].key == 0
    requires forall e :: 0 <= e < d ==> t[Slot(hash(key) % |t|, e, |t|)].key != key
    ensures key !in place
  {
    if key in place {
      KeyOnTheWay(t, hash, place, key);
    }
  }

  lemma KeyOnTheWay<V>(t: seq<Entry<V>>, hash: nat -> nat, place: map<nat, nat>, key: nat)
    requires Sound(t, hash, place) && key in place
    ensures exists e :: 0 <= e < |t| && t[Slot(hash(key) % |t|, e, |t|)].key == key && Filled(t, hash(key) % |t|, e)
  {
    assert Found(t, hash, place[key]);
    assert t[Slot(hash(key) % |t|, Steps(hash(key) % |t|, place[key], |t|), |t|)].key == key;
  }

  /** A new key in the empty slot where the search for it ended. */
  lemma InsertSound<V>(t: seq<Entry<V>>, hash: nat -> nat, place: map<nat, nat>, key: nat, val: V, d: nat)
    requires Sound(t, hash, place) && key != 0 && key !in place && d < |t|
    requires Filled(t, hash(key) % |t|, d) && t[Slot(hash(key) % |t|, d, |t|)].key == 0
    ensures var i := Slot(hash(key) % |t|, d, |t|); var t' := t[i := Entry(key, val)];
      Sound(t', hash, place[key := i]) && Contents(t', place[key := i]) == Contents(t, place)[key := val]
  {
    var home := hash(key) % |t|;
    var i := Slot(home, d, |t|);
    var t' := t[i := Entry(key, val)];
    StepsOfSlot(home, d, |t|);
    forall j | 0 <= j < |t'| ensures Found(t', hash, j) {
      assert j != i ==> Found(t, hash, j);
    }
  }

  /** A new value for a key that is in the table. */
  lemma UpdateSound<V>(t: seq<Entry<V>>, hash: nat -> nat, place: map<nat, nat>, key: nat, val: V)
    requires Sound(t, hash, place) && key in place
    ensures var t' := t[place[key] := Entry(key, val)];
      Sound(t', hash, place) && Contents(t', place) == Contents(t, place)[key := val]
  {
    var t' := t[place[key] := Entry(key, val)];
    forall j | 0 <= j < |t'| ensures Found(t', hash, j) {
      assert Found(t, hash, j);
    }
  }

  /** An empty slot may be written as long as it stays empty. */
  lemma EmptySound<V>(t: seq<Entry<V>>, hash: nat -> nat, place: map<nat, nat>, i: nat, val: V)
    requires Sound(t, hash, place) && i < |t| && t[i].key == 0
    ensures var t' := t[i := Entry(0, val)];
      Sound(t', hash, place) && Contents(t', place) == Contents(t, place)
  {
    var t' := t[i := Entry(0, val)];
    forall j | 0 <= j < |t'| ensures Found(t', hash, j) {
      assert Found(t, hash, j);
    }
  }

  lemma ClearedSound<V>(t: seq<Entry<V>>, hash: nat -> nat)
    requires |t| > 0 && forall i :: 0 <= i < |t| ==> t[i].key == 0
    ensures Sound(t, hash, map[]) && Contents(t, map[]) == map[]
  {
  }

  lemma SoundParts<V>(t: seq<Entry<V>>, hash: nat -> nat, place: map<nat, nat>)
    requires Sound(t, hash, place)
    ensures |t| > 0 && Placed(t, place)
  {
  }

  /** The next slot of a search. */
  lemma StepOn(home: nat, d: nat, n: nat)
    requires home < n && 0 < d < n
    ensures (Slot(home, d - 1, n) + 1) % n == Slot(home, d, n)
  {
    var i := Slot(home, d - 1, n) + 1;
    if i == n {
      assert n % n == 0;
    } else {
      assert i % n == i;
    }
  }

  // ---------------------------------------------------------------- a larger table

  /** The new table `t` holds what the first `n` slots of the old one hold. */
  ghost predicate Copied<V>(was: seq<Entry<V>>, there: map<nat, nat>, n: nat, t: seq<Entry<V>>, place: map<nat, nat>) {
    && (forall k <- place ::
      k in there && there[k] < n && place[k] < |t| && there[k] < |was| && t[place[k]] == was[there[k]])
    && (forall k <- there | there[k] < n :: k in place)
  }

  lemma NothingCopied<V>(was: seq<Entry<V>>, there: map<nat, nat>, t: seq<Entry<V>>)
    ensures Copied(was, there, 0, t, map[])
  {
  }

  lemma CopiedSize<V>(was: seq<Entry<V>>, there: map<nat, nat>, n: nat, t: seq<Entry<V>>, place: map<nat, nat>)
    requires Copied(was, there, n, t, place)
    ensures |place| <= |there|
  {
    assert place.Keys <= there.Keys && |place| == |place.Keys| && |there| == |there.Keys|;
    SubsetSize(place.Keys, there.Keys);
  }

  lemma NotCopiedYet<V>(was: seq<Entry<V>>, there: map<nat, nat>, n: nat, t: seq<Entry<V>>, place: map<nat, nat>)
    requires Copied(was, there, n, t, place) && Placed(was, there) && n < |was| && was[n].key != 0
    ensures was[n].key !in place
  {
  }

  lemma CopyOne<V>(was: seq<Entry<V>>, there: map<nat, nat>, n: nat, t: seq<Entry<V>>, place: map<nat, nat>, index: nat)
    requires Copied(was, there, n, t, place) && Placed(was, there) && Placed(t, place)
    requires n < |was| && index < |t| && t[index].key == 0
    ensures Copied(was, there, n + 1, t[index := was[n]], if was[n].key == 0 then place else place[was[n].key := index])
  {
  }

  lemma CopiedAll<V>(was: seq<Entry<V>>, there: map<nat, nat>, t: seq<Entry<V>>, place: map<nat, nat>)
    requires Copied(was, there, |was|, t, place) && Placed(was, there) && Placed(t, place)
    ensures Contents(t, place) == Contents(was, there) && |place| == |there|
  {
    assert place.Keys == there.Keys && |place| == |place.Keys| && |there| == |there.Keys|;
  }
}
