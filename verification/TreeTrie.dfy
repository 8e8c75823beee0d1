/**
 * The digital search tree of a tree bin, as the map from the places in use to
 * the chunk sizes found there: what keeps it a search tree, and which of its
 * places a search for a size has to visit.
 */
module TreeTrie {
  import opened TreeIndex

  /** A place in a bin's tree: the sizes below it agree in all but their `level` low bits. */
  datatype Slot = Slot(index: nat, level: int, prefix: nat)

  function RootSlot(i: nat): Slot {
    Slot(i, StartLevel(i), StartPrefix(i))
  }

  function Kid(s: Slot, bit: nat): Slot {
    Slot(s.index, s.level - 1, 2 * s.prefix + bit)
  }

  function Up(s: Slot): Slot {
    Slot(s.index, s.level + 1, s.prefix / 2)
  }

  /** The places where a chunk of `size` can be. */
  function Path(i: nat, size: nat, level: nat): Slot {
    Slot(i, level, Prefix(size, level))
  }

  /** The place is one that `size` passes on its way down. */
  predicate OnPath(s: Slot, size: nat) {
    0 <= s.level <= StartLevel(s.index) && Prefix(size, s.level) == s.prefix
  }

  predicate Binned(i: nat, size: nat) {
    size < TWO_64 && i == TreeIndexOf(size) && InBin(i, size)
  }

  predicate Rooted(key: map<Slot, nat>, s: Slot) {
    s == RootSlot(s.index) || Up(s) in key
  }

  /** The invariant of each tree. */
  ghost predicate Trie(key: map<Slot, nat>) {
    && (forall s <- key :: OnPath(s, key[s]))
    && (forall s {:trigger Rooted(key, s)} :: s in key ==> Rooted(key, s))
    && (forall s <- key, t <- key :: key[s] == key[t] && s.index == t.index ==> s == t)
  }

  /** Each size is filed in its own bin. */
  ghost predicate AllBinned(key: map<Slot, nat>) {
    forall s <- key :: Binned(s.index, key[s])
  }

  /** The place `t` is `s` or below it. */
  predicate InSubtree(key: map<Slot, nat>, s: Slot, t: Slot) {
    t in key && t.index == s.index && t.level <= s.level && 0 <= s.level && Prefix(key[t], s.level) == s.prefix
  }

  /** All places between a used place and its root are used. */
  lemma {:induction false} PathUsed(key: map<Slot, nat>, s: Slot, size: nat, level: nat)
    requires Trie(key) && s in key && s.level <= level <= StartLevel(s.index)
    requires Prefix(size, s.level) == s.prefix
    ensures Path(s.index, size, level) in key
    decreases level
  {
    if s.level < level {
      PathUsed(key, s, size, level - 1);
      var below := Path(s.index, size, level - 1);
      assert Up(below) == Path(s.index, size, level);
      assert Rooted(key, below);
    }
  }

  lemma RootUsed(key: map<Slot, nat>, s: Slot)
    requires Trie(key) && AllBinned(key) && s in key
    ensures RootSlot(s.index) in key
  {
    PathUsed(key, s, key[s], StartLevel(s.index));
    BinPrefix(s.index, key[s]);
  }

  /** A size that is at no used place of its path is nowhere. */
  lemma SizeAbsent(key: map<Slot, nat>, size: nat, i: nat, level: int)
    requires Trie(key) && -1 <= level < StartLevel(i)
    requires level >= 0 ==> Path(i, size, level) !in key
    requires forall m: nat | level < m <= StartLevel(i) && Path(i, size, m) in key :: key[Path(i, size, m)] != size
    ensures forall t <- key | t.index == i :: key[t] != size
  {
    forall t <- key | t.index == i ensures key[t] != size {
      if key[t] == size {
        assert OnPath(t, size) && t == Path(i, size, t.level);
        if t.level <= level {
          PathUsed(key, t, size, level);
        }
      }
    }
  }

  lemma AddLeaf(key: map<Slot, nat>, s: Slot, size: nat)
    requires Trie(key) && s !in key && Rooted(key, s) && OnPath(s, size)
    requires forall t <- key | t.index == s.index :: key[t] != size
    ensures Trie(key[s := size])
  {
    var key' := key[s := size];
    forall t <- key' ensures Rooted(key', t) {
      assert t == s || Rooted(key, t);
    }
  }

  predicate Leaf(key: map<Slot, nat>, s: Slot) {
    Kid(s, 0) !in key && Kid(s, 1) !in key
  }

  /** Nothing hangs below an unused place. */
  lemma UnusedIsLeaf(key: map<Slot, nat>, s: Slot)
    requires Trie(key) && s !in key && s.level <= StartLevel(s.index)
    ensures Leaf(key, s)
  {
    assert Up(Kid(s, 0)) == s && Up(Kid(s, 1)) == s;
    assert !Rooted(key, Kid(s, 0)) && !Rooted(key, Kid(s, 1));
  }

  lemma LeafIsNotAbove(key: map<Slot, nat>, s: Slot, t: Slot)
    requires Leaf(key, s) && t in key
    ensures Up(t) != s
  {
    assert t == Kid(Up(t), t.prefix % 2);
  }

  lemma RemoveLeaf(key: map<Slot, nat>, s: Slot, key': map<Slot, nat>)
    requires Trie(key) && Leaf(key, s)
    requires forall t :: t in key' <==> t in key && t != s
    requires forall t <- key' :: key'[t] == key[t]
    ensures Trie(key')
  {
    forall t <- key' ensures Rooted(key', t) {
      assert Rooted(key, t);
      LeafIsNotAbove(key, s, t);
    }
  }

  /** A leaf below `s` may take the place of `s`. */
  lemma ReplaceByLeaf(key: map<Slot, nat>, s: Slot, r: Slot, key': map<Slot, nat>)
    requires Trie(key) && s in key && InSubtree(key, s, r) && Leaf(key, r) && r != s
    requires forall t :: t in key' <==> t in key && t != r
    requires forall t <- key' :: key'[t] == if t == s then key[r] else key[t]
    ensures Trie(key')
  {
    forall t <- key' ensures Rooted(key', t) {
      assert Rooted(key, t);
      LeafIsNotAbove(key, r, t);
    }
    assert OnPath(r, key[r]) && OnPath(s, key[s]);
    assert OnPath(s, key'[s]);
  }

  lemma SubtreeSelf(key: map<Slot, nat>, s: Slot)
    requires Trie(key) && s in key
    ensures InSubtree(key, s, s)
  {
    assert OnPath(s, key[s]);
  }

  lemma SubtreeTrans(key: map<Slot, nat>, s: Slot, t: Slot, u: Slot)
    requires Trie(key) && InSubtree(key, s, t) && InSubtree(key, t, u)
    ensures InSubtree(key, s, u)
  {
    assert OnPath(t, key[t]);
    PrefixUp(key[t], t.level, s.level);
    PrefixUp(key[u], t.level, s.level);
  }

  lemma BelowIsNotRoot(key: map<Slot, nat>, s: Slot, t: Slot)
    requires Trie(key) && s in key && InSubtree(key, s, t) && t != s
    ensures t != RootSlot(t.index)
  {
    assert OnPath(s, key[s]) && OnPath(t, key[t]);
  }

  lemma KidBelow(key: map<Slot, nat>, s: Slot, bit: nat)
    requires Trie(key) && bit < 2 && s in key && Kid(s, bit) in key
    ensures InSubtree(key, s, Kid(s, bit))
  {
    var k := Kid(s, bit);
    assert OnPath(k, key[k]) && OnPath(s, key[s]);
    PrefixStep(key[k], k.level);
  }

  /** What is below `s` but not at `s` is below one of its children. */
  lemma SubtreeSplit(key: map<Slot, nat>, s: Slot, t: Slot)
    requires Trie(key) && s in key && InSubtree(key, s, t) && t != s
    ensures s.level > 0
    ensures Kid(s, BitAt(key[t], s.level - 1)) in key
    ensures InSubtree(key, Kid(s, BitAt(key[t], s.level - 1)), t)
  {
    assert OnPath(t, key[t]) && OnPath(s, key[s]);
    PrefixStep(key[t], s.level - 1);
    PathUsed(key, t, key[t], s.level - 1);
  }

  /** Left subtrees hold smaller sizes than right ones. */
  lemma LeftBelowRight(key: map<Slot, nat>, s: Slot, t: Slot, u: Slot)
    requires Trie(key) && s in key
    requires InSubtree(key, Kid(s, 0), t) && InSubtree(key, Kid(s, 1), u)
    ensures key[t] < key[u]
  {
    PrefixOrder(key[t], key[u], s.level - 1);
  }

  /** Bins of smaller index hold smaller sizes. */
  lemma BinOrder(i: nat, j: nat, s: nat, t: nat)
    requires InBin(i, s) && InBin(j, t) && i < j
    ensures s < t
  {
    MinSizeMonotone(i + 1, j);
  }
}
