/** HashTable: a table without deletion that grows when it is half full. */
module HashTable {
  import opened HashTableSpec
  import opened HashTableRuns

  const UINT_MAX := 0xffff_ffff

  class HashTable<V(0)> {
    var table: array<Entry<V>>
    var capacity: nat
    var capacitymask: nat
    var size: nat
    var threshold: nat
    /** Where the search for a key starts, before it is cut to the capacity. */
    const hash: nat -> nat
    /** The value for keys that are not in the table. */
    const zero: V
    ghost var place: map<nat, nat>

    ghost function Now(): Table<V>
      reads this, table
    {
      Table(table[..], size)
    }

    /** The mask and the threshold are those of the table's length. */
    predicate Masked()
      reads this
    {
      table.Length == capacity && IsPowerOfTwo(capacity) && capacitymask == capacity - 1 && threshold == capacity / 2
    }

    ghost predicate Valid()
      reads this, table
    {
      Masked() && capacity >= 4 && Good(Now(), hash, place)
    }

    /** The keys put so far, each with the value it was put with last. */
    ghost function Contents(): map<nat, V>
      reads this, table
      requires Valid()
    {
      HashTableSpec.Contents(table[..], place)
    }

    constructor (initialcapacity: nat, hash: nat -> nat, zero: V)
      ensures fresh(table) && table.Length == capacity == initialcapacity
      ensures Valid() <==> IsPowerOfTwo(initialcapacity) && initialcapacity >= 4
      ensures Valid() ==> Contents() == map[]
      ensures this.hash == hash && this.zero == zero
      ensures initialcapacity > 0 ==> Now() == Puts(initialcapacity, hash, [], zero)
    {
      table := new Entry<V>[initialcapacity](_ => Entry(0, zero));
      capacity, size, threshold := initialcapacity, 0, initialcapacity / 2;
      capacitymask := if initialcapacity == 0 then UINT_MAX else initialcapacity - 1;
      this.hash, this.zero, place := hash, zero, map[];
      new;
      assert table[..] == EmptySlots(initialcapacity, zero);
      if initialcapacity > 0 {
        ClearedSound(table[..], hash);
      }
    }

    /** The slot where the search for the key ends. */
    method Probe(key: nat) returns (index: nat)
      requires Masked() && capacity > 0 && Stop(table[..], hash(key) % capacity, key, 0) < capacity
      ensures index == Slot(hash(key) % capacity, Stop(table[..], hash(key) % capacity, key, 0), capacity)
    {
      MaskIsRemainder(hash(key), capacity);
      index := And(hash(key), capacitymask);
      ghost var home, d := index, 0;
      while table[index].key != key && table[index].key != 0
        invariant d < capacity && index == Slot(home, d, capacity)
        invariant Stop(table[..], home, key, d) == Stop(table[..], home, key, 0)
        decreases capacity - d
      {
        d := d + 1;
        MaskIsRemainder(index + 1, capacity);
        StepOn(home, d, capacity);
        index := And(index + 1, capacitymask);
      }
    }

    /** The key gets the value, whether it had one before or not; no other key changes. */
    method Put(key: nat, val: V)
      requires Valid() && key != 0
      modifies this, table
      ensures Valid() && (table == old(table) || fresh(table))
      ensures Contents() == old(Contents())[key := val]
      ensures Now() == HashTableRuns.Put(old(Now()), hash, key, val, zero)
    {
      hide Sound, Placed, HashTableSpec.Contents, Rehash, Stop, IsPowerOfTwo, Filled;
      ghost var was := Now();
      ghost var after := PutGood(was, hash, place, key, val, zero);
      if size > threshold {
        Doubled(capacity);
        Resize(2 * capacity);
      }
      ghost var t := table[..];
      assert t == Grown(was, hash, zero);
      SearchFinds(t, hash, place, key);
      var index := Probe(key);
      if table[index].key == key {
        table[index] := Entry(key, val);
      } else {
        table[index] := Entry(key, val);
        size := size + 1;
      }
      assert table[..] == t[index := Entry(key, val)];
      place := after;
    }

    method Get(key: nat) returns (val: V)
      requires Valid() && key != 0
      ensures val == if key in Contents() then Contents()[key] else zero
    {
      SearchFinds(table[..], hash, place, key);
      var index := Probe(key);
      return if table[index].key == key then table[index].val else zero;
    }

    method Contains(key: nat) returns (found: bool)
      requires Valid() && key != 0
      ensures found <==> key in Contents()
    {
      SearchFinds(table[..], hash, place, key);
      var index := Probe(key);
      return table[index].key == key;
    }

    method Reset()
      requires Valid()
      modifies this, table
      ensures Valid() && Contents() == map[]
      ensures table == old(table) && Now() == Puts(capacity, hash, [], zero)
    {
      forall i | 0 <= i < table.Length {
        table[i] := Entry(0, zero);
      }
      size, place := 0, map[];
      assert table[..] == EmptySlots(capacity, zero);
      ClearedSound(table[..], hash);
    }

    /** Puts an entry of the old table into the first empty slot of the new one on its way. */
    method CopyBin(entry: Entry<V>)
      requires Masked() && capacity > 0 && Stop(table[..], hash(entry.key) % capacity, 0, 0) < capacity
      modifies table
      ensures table[..] == WrittenAt(old(table[..]), hash, entry, 0)
    {
      MaskIsRemainder(hash(entry.key), capacity);
      var index := And(hash(entry.key), capacitymask);
      ghost var home, d := index, 0;
      while table[index].key != 0
        invariant d < capacity && index == Slot(home, d, capacity)
        invariant Stop(table[..], home, 0, d) == Stop(table[..], home, 0, 0)
        invariant table[..] == old(table[..])
        decreases capacity - d
      {
        d := d + 1;
        MaskIsRemainder(index + 1, capacity);
        StepOn(home, d, capacity);
        index := And(index + 1, capacitymask);
      }
      table[index] := entry;
    }

    /** Moves all slots, the empty ones included, of a smaller table into this one. */
    method CopyBins(oldtable: array<Entry<V>>, oldcapacity: nat, ghost there: map<nat, nat>)
      requires Masked() && capacity > |there| && table[..] == EmptySlots(capacity, zero)
      requires oldtable != table && oldtable.Length == oldcapacity && Placed(oldtable[..], there)
      modifies table
      ensures table[..] == Rehash(oldtable[..], hash, capacity, oldcapacity, zero)
    {
      hide Placed, Stop, IsPowerOfTwo, WrittenAt;
      ghost var was := oldtable[..];
      var bin := 0;
      while bin < oldcapacity
        invariant bin <= oldcapacity && oldtable[..] == was
        invariant table[..] == Rehash(was, hash, capacity, bin, zero)
      {
        RoomForNext(was, there, hash, capacity, bin, zero, hash(oldtable[bin].key) % capacity);
        CopyBin(oldtable[bin]);
        bin := bin + 1;
      }
    }

    method Resize(newsize: nat)
      requires Valid() && IsPowerOfTwo(newsize) && newsize >= capacity
      modifies this
      ensures Valid() && fresh(table) && capacity == newsize && size == old(size)
      ensures table[..] == Rehash(old(table[..]), hash, newsize, old(capacity), zero)
      ensures Contents() == old(Contents())
    {
      hide Sound, Placed, HashTableSpec.Contents, Copied, Rehash, IsPowerOfTwo;
      var oldtable, oldcapacity := table, capacity;
      ghost var was, there := table[..], place;
      SoundParts(was, hash, there);
      table := new Entry<V>[newsize](_ => Entry(0, zero));
      capacity, capacitymask, threshold := newsize, newsize - 1, newsize / 2;
      assert table[..] == EmptySlots(newsize, zero);
      CopyBins(oldtable, oldcapacity, there);
      place := RehashSound(was, there, hash, newsize, oldcapacity, zero);
      SoundParts(table[..], hash, place);
      CopiedAll(was, there, table[..], place);
    }
  }
}
