/**
 * What keeps the tree bins sound: each change of the chunks' fields that filing
 * or taking out a chunk makes, against what it means for the trees.
 */
module TreeBinsSpec {
  import opened Collections
  import opened TreeIndex
  import opened TreeTrie
  import opened TreeLinks

  /** The fields of the allocator that make up the tree bins. */
  datatype Memory = Memory(
    size: map<Addr, nat>, fd: map<Addr, Addr>, bk: map<Addr, Addr>, child: map<Addr, Children>,
    parent: map<Addr, Link>, index: map<Addr, nat>, treebins: seq<Addr>, treemap: set<nat>)

  /** What they mean: the size at each place in use, the chunks there, and the place of each chunk. */
  datatype Trees = Trees(key: map<Slot, nat>, ring: map<Slot, seq<Addr>>, own: map<Addr, Slot>)

  ghost predicate Sound(m: Memory, g: Trees) {
    && Trie(g.key) && AllBinned(g.key)
    && Filed(g.key, g.ring, m.size, g.own)
    && AllLinked(g.ring, m.fd, m.bk)
    && ChildLinks(g.ring, g.own, m.child)
    && ParentLinks(g.ring, g.own, m.parent)
    && Indexed(g.own, m.index)
    && Roots(g.ring, m.treebins, m.treemap)
  }

  /** Ring `r` of size `k` is put at place `s`, used or not. */
  ghost predicate Put(g: Trees, s: Slot, k: nat, r: seq<Addr>, g': Trees) {
    g'.key == g.key[s := k] && g'.ring == g.ring[s := r] && Moved(g.own, s, r, g'.own)
  }

  /** Place `s` falls out of use. */
  ghost predicate Drop(g: Trees, s: Slot, g': Trees) {
    g'.key == g.key - {s} && g'.ring == g.ring - {s} && Moved(g.own, s, [], g'.own)
  }

  /** A chunk that is about to be filed. */
  ghost predicate Ready(m: Memory, g: Trees, x: Addr, s: nat, i: nat) {
    && x != NULL && x !in g.own && x in m.size && m.size[x] == s && Binned(i, s)
    && x in m.index && m.index[x] == i && x in m.child && m.child[x] == NO_CHILDREN
  }

  ghost function PutTrees(g: Trees, s: Slot, k: nat, r: seq<Addr>): (g': Trees)
    ensures Put(g, s, k, r, g')
  {
    Trees(g.key[s := k], g.ring[s := r], Place(g.own, s, r))
  }

  ghost function DropTrees(g: Trees, s: Slot): (g': Trees)
    ensures Drop(g, s, g')
  {
    Trees(g.key - {s}, g.ring - {s}, Place(g.own, s, []))
  }

  /** All places in use stay in use for the same sizes. */
  ghost predicate SameKeys(key: map<Slot, nat>, key': map<Slot, nat>) {
    forall s <- key :: s in key' && key'[s] == key[s]
  }

  lemma PutSameKeys(g: Trees, s: Slot, k: nat, r: seq<Addr>)
    requires s in g.key ==> g.key[s] == k
    ensures SameKeys(g.key, PutTrees(g, s, k, r).key)
  {
  }

  /** Writing the fields of a chunk that is not filed does no harm. */
  lemma PrepareKeeps(m: Memory, g: Trees, x: Addr, s: nat, i: nat, m': Memory)
    requires Sound(m, g) && x != NULL && x !in g.own && x in m.size && m.size[x] == s
    requires m' == m.(index := m.index[x := i], child := m.child[x := NO_CHILDREN])
    ensures Sound(m', g) && (Binned(i, s) ==> Ready(m', g, x, s, i))
  {
    hide Trie, AllBinned, Filed, AllLinked, ParentLinks, Roots, Binned, ChildrenOf;
  }

  lemma StartTrie(key: map<Slot, nat>, s: nat, i: nat)
    requires Trie(key) && AllBinned(key) && Binned(i, s) && RootSlot(i) !in key
    ensures Trie(key[RootSlot(i) := s]) && AllBinned(key[RootSlot(i) := s])
    ensures Leaf(key, RootSlot(i)) && Up(RootSlot(i)) !in key
  {
    BinPrefix(i, s);
    forall t <- key ensures t.index != i {
      if t.index == i {
        RootUsed(key, t);
      }
    }
    AddLeaf(key, RootSlot(i), s);
    UnusedIsLeaf(key, RootSlot(i));
  }

  /** What putting a single new chunk at an unused place comes to, all but the links of the tree. */
  lemma PutAlone(m: Memory, g: Trees, x: Addr, s: nat, slot: Slot, m': Memory, g': Trees)
    requires Filed(g.key, g.ring, m.size, g.own) && AllLinked(g.ring, m.fd, m.bk) && Indexed(g.own, m.index)
    requires Ready(m, g, x, s, slot.index) && slot !in g.ring && Put(g, slot, s, [x], g')
    requires m'.size == m.size && m'.index == m.index && m'.fd == m.fd[x := x] && m'.bk == m.bk[x := x]
    ensures Filed(g'.key, g'.ring, m'.size, g'.own) && AllLinked(g'.ring, m'.fd, m'.bk) && Indexed(g'.own, m'.index)
  {
    hide Filed, AllLinked, Indexed, Binned;
    FiledPut(g.key, g.ring, m.size, g.own, slot, s, [x], g'.own);
    AllLinkedPut(g.key, g.ring, m.size, g.own, m.fd, m.bk, slot, [x], m'.fd, m'.bk);
    IndexedPut(g.own, m.index, slot, [x], g'.own, m'.index);
  }

  lemma StartChild(m: Memory, g: Trees, x: Addr, s: nat, i: nat, g': Trees)
    requires Filed(g.key, g.ring, m.size, g.own) && ChildLinks(g.ring, g.own, m.child)
    requires Leaf(g.key, RootSlot(i)) && Up(RootSlot(i)) !in g.key
    requires Ready(m, g, x, s, i) && RootSlot(i) !in g.ring && Put(g, RootSlot(i), s, [x], g')
    ensures ChildLinks(g'.ring, g'.own, m.child)
  {
    ChildLinksPut(g.ring, g.own, m.child, RootSlot(i), [x], g'.own, m.child);
  }

  lemma StartParent(m: Memory, g: Trees, x: Addr, s: nat, i: nat, m': Memory, g': Trees)
    requires Filed(g.key, g.ring, m.size, g.own) && ParentLinks(g.ring, g.own, m.parent)
    requires Leaf(g.key, RootSlot(i))
    requires Ready(m, g, x, s, i) && RootSlot(i) !in g.ring && Put(g, RootSlot(i), s, [x], g')
    requires m'.parent == m.parent[x := Bin(i)]
    ensures ParentLinks(g'.ring, g'.own, m'.parent)
  {
    ParentLinksPut(g.ring, g.own, m.parent, RootSlot(i), [x], g'.own, m'.parent);
  }

  /** The first chunk of a bin. */
  lemma StartBinKeeps(m: Memory, g: Trees, x: Addr, s: nat, i: nat, m': Memory, g': Trees)
    requires Sound(m, g) && Ready(m, g, x, s, i) && RootSlot(i) !in g.ring && Put(g, RootSlot(i), s, [x], g')
    requires m'.size == m.size && m'.index == m.index && m'.fd == m.fd[x := x] && m'.bk == m.bk[x := x]
    requires m'.child == m.child && m'.parent == m.parent[x := Bin(i)]
    requires |m.treebins| == 32 && i < 32 && m'.treebins == m.treebins[i := x] && m'.treemap == m.treemap + {i}
    ensures Sound(m', g')
  {
    hide Trie, AllBinned, Filed, AllLinked, ChildLinks, ParentLinks, Indexed, Roots, Ready;
    assert RootSlot(i) !in g.key by { SameDomain(m, g); }
    ReadyBinned(m, g, x, s, i);
    StartTrie(g.key, s, i);
    PutAlone(m, g, x, s, RootSlot(i), m', g');
    StartChild(m, g, x, s, i, g');
    StartParent(m, g, x, s, i, m', g');
    RootsPut(g.ring, m.treebins, m.treemap, RootSlot(i), [x], m'.treebins, m'.treemap);
  }

  lemma SameDomain(m: Memory, g: Trees)
    requires Filed(g.key, g.ring, m.size, g.own)
    ensures forall s :: s in g.ring <==> s in g.key
  {
  }

  lemma ReadyBinned(m: Memory, g: Trees, x: Addr, s: nat, i: nat)
    requires Ready(m, g, x, s, i)
    ensures Binned(i, s)
  {
  }

  // ---------------------------------------------------------------- a new leaf

  /** The places that `size` passes above `level` hold other sizes. */
  ghost predicate NotAbove(key: map<Slot, nat>, size: nat, i: nat, level: int) {
    forall m: nat :: level < m <= StartLevel(i) && Path(i, size, m) in key ==> key[Path(i, size, m)] != size
  }

  lemma HangTrie(key: map<Slot, nat>, s: nat, i: nat, p: Slot, slot: Slot)
    requires Trie(key) && AllBinned(key) && Binned(i, s)
    requires p in key && p.index == i && p.level > 0 && p == Path(i, s, p.level)
    requires slot == Kid(p, BitAt(s, p.level - 1)) && slot !in key && NotAbove(key, s, i, p.level - 1)
    ensures Trie(key[slot := s]) && AllBinned(key[slot := s]) && Leaf(key, slot)
    ensures Up(slot) == p && slot != RootSlot(i) && slot.level <= StartLevel(i)
  {
    hide TreeIndexOf, InBin, MinSize;
    assert OnPath(p, key[p]);
    PrefixStep(s, p.level - 1);
    assert slot == Path(i, s, p.level - 1);
    SizeAbsent(key, s, i, p.level - 1);
    AddLeaf(key, slot, s);
    UnusedIsLeaf(key, slot);
  }

  lemma HangChild(m: Memory, g: Trees, x: Addr, s: nat, p: Slot, bit: nat, t: Addr, m': Memory, g': Trees)
    requires Filed(g.key, g.ring, m.size, g.own) && ChildLinks(g.ring, g.own, m.child)
    requires bit < 2 && Up(Kid(p, bit)) == p && p in g.ring && t == Head(g.ring, p) && Leaf(g.key, Kid(p, bit))
    requires Ready(m, g, x, s, p.index) && Kid(p, bit) !in g.ring && Put(g, Kid(p, bit), s, [x], g')
    requires t in m.child && m'.child == m.child[t := m.child[t].With(bit, x)]
    ensures ChildLinks(g'.ring, g'.own, m'.child)
  {
    hide Trie, Binned;
    HeadOwned(g.key, g.ring, m.size, g.own, p);
    ChildLinksPut(g.ring, g.own, m.child, Kid(p, bit), [x], g'.own, m'.child);
  }

  lemma HangParent(m: Memory, g: Trees, x: Addr, s: nat, p: Slot, slot: Slot, t: Addr, m': Memory, g': Trees)
    requires Filed(g.key, g.ring, m.size, g.own) && ParentLinks(g.ring, g.own, m.parent)
    requires Up(slot) == p && p in g.ring && t == Head(g.ring, p) && Leaf(g.key, slot)
    requires slot != RootSlot(slot.index) && slot.level <= StartLevel(slot.index)
    requires Ready(m, g, x, s, slot.index) && slot !in g.ring && Put(g, slot, s, [x], g')
    requires m'.parent == m.parent[x := Chunk(t)]
    ensures ParentLinks(g'.ring, g'.own, m'.parent)
  {
    hide Trie, Binned, ParentLinks;
    ParentLinksPut(g.ring, g.own, m.parent, slot, [x], g'.own, m'.parent);
  }

  /** A new leaf below the chunk `t` at place `p`. */
  lemma HangKeeps(m: Memory, g: Trees, x: Addr, s: nat, i: nat, p: Slot, bit: nat, t: Addr, m': Memory, g': Trees)
    requires Sound(m, g) && Ready(m, g, x, s, i) && p in g.ring && t == Head(g.ring, p)
    requires p.level > 0 && p == Path(i, s, p.level) && bit == BitAt(s, p.level - 1)
    requires Kid(p, bit) !in g.ring && NotAbove(g.key, s, i, p.level - 1) && Put(g, Kid(p, bit), s, [x], g')
    requires m'.size == m.size && m'.index == m.index && m'.fd == m.fd[x := x] && m'.bk == m.bk[x := x]
    requires t in m.child && m'.child == m.child[t := m.child[t].With(bit, x)] && m'.parent == m.parent[x := Chunk(t)]
    requires m'.treebins == m.treebins && m'.treemap == m.treemap
    ensures Sound(m', g')
  {
    hide Trie, AllBinned, Filed, AllLinked, ChildLinks, ParentLinks, Indexed, Roots, Ready, NotAbove, StartLevel,
      StartPrefix, Prefix, BitAt, Head;
    var slot := Kid(p, bit);
    SameDomain(m, g);
    ReadyBinned(m, g, x, s, i);
    HangTrie(g.key, s, i, p, slot);
    PutAlone(m, g, x, s, slot, m', g');
    HangChild(m, g, x, s, p, bit, t, m', g');
    HangParent(m, g, x, s, p, slot, t, m', g');
    RootsPut(g.ring, m.treebins, m.treemap, slot, [x], m'.treebins, m'.treemap);
  }

  // ---------------------------------------------------------------- a new ring at a used place

  /** A ring that may take over place `s`: chunks of size `k`, new or from that place. */
  ghost predicate MayTake(m: Memory, g: Trees, s: Slot, k: nat, r: seq<Addr>) {
    && r != [] && Distinct(r)
    && forall a <- r ::
      a != NULL && a in m.size && m.size[a] == k && a in m.index && m.index[a] == s.index &&
      (a in g.own ==> g.own[a] == s)
  }

  ghost predicate RingRelinked(m: Memory, g: Trees, s: Slot, r: seq<Addr>, m': Memory) {
    && Linked(r, m'.fd, m'.bk)
    && (forall a <- g.own | g.own[a] != s :: SameAt(a, m.fd, m.bk, m'.fd, m'.bk))
  }

  /** The children of `x` are those of the ring's first chunk, which the chunk above now points to. */
  ghost predicate ChildrenTaken(m: Memory, g: Trees, s: Slot, x: Addr, r: seq<Addr>, m': Memory)
    requires r != []
  {
    && x in m.child && r[0] in m'.child && m'.child[r[0]] == m.child[x]
    && (forall a <- r | a != r[0] :: a in m'.child && m'.child[a] == NO_CHILDREN)
    && (forall a <- g.own | g.own[a] != s && a in m.child ::
      a in m'.child && m'.child[a] == Rehung(g.ring, m.child, s, r[0], a))
  }

  ghost predicate ParentTaken(m: Memory, g: Trees, s: Slot, x: Addr, r: seq<Addr>, m': Memory)
    requires r != []
  {
    && x in m.parent && r[0] in m'.parent && m'.parent[r[0]] == m.parent[x]
    && (forall a <- r | a != r[0] :: a in m'.parent && m'.parent[a] == NoLink)
    && (forall a <- g.own | g.own[a] != s && a in m.parent ::
      a in m'.parent && m'.parent[a] == Adopted(g.ring, m.parent, s, r[0], a))
  }

  predicate RootTaken(m: Memory, s: Slot, h: Addr, m': Memory) {
    && |m.treebins| == 32 && s.index < 32
    && (s == RootSlot(s.index) ==> m'.treebins == m.treebins[s.index := h] && m'.treemap == m.treemap + {s.index})
    && (s != RootSlot(s.index) ==> m'.treebins == m.treebins && m'.treemap == m.treemap)
  }

  lemma TakeFiled(m: Memory, g: Trees, s: Slot, k: nat, r: seq<Addr>, m': Memory, g': Trees)
    requires Filed(g.key, g.ring, m.size, g.own) && AllLinked(g.ring, m.fd, m.bk) && Indexed(g.own, m.index)
    requires Put(g, s, k, r, g') && MayTake(m, g, s, k, r) && RingRelinked(m, g, s, r, m')
    requires m'.size == m.size && m'.index == m.index
    ensures Filed(g'.key, g'.ring, m'.size, g'.own) && AllLinked(g'.ring, m'.fd, m'.bk) && Indexed(g'.own, m'.index)
  {
    hide Filed, AllLinked, Linked, Indexed;
    FiledPut(g.key, g.ring, m.size, g.own, s, k, r, g'.own);
    AllLinkedPut(g.key, g.ring, m.size, g.own, m.fd, m.bk, s, r, m'.fd, m'.bk);
    IndexedPut(g.own, m.index, s, r, g'.own, m'.index);
  }

  lemma TakeChild(m: Memory, g: Trees, s: Slot, x: Addr, k: nat, r: seq<Addr>, m': Memory, g': Trees)
    requires Filed(g.key, g.ring, m.size, g.own) && ChildLinks(g.ring, g.own, m.child)
    requires s in g.ring && x == Head(g.ring, s) && Put(g, s, k, r, g') && MayTake(m, g, s, k, r)
    requires ChildrenTaken(m, g, s, x, r, m')
    ensures ChildLinks(g'.ring, g'.own, m'.child)
  {
    HeadOwned(g.key, g.ring, m.size, g.own, s);
    HeadOwned(g.key, g.ring, m.size, g.own, Up(s));
    assert m.child[x] == ChildrenOf(g.ring, s, x);
    assert NULL !in g.own;
    hide Filed, ChildLinks;
    ChildLinksPut(g.ring, g.own, m.child, s, r, g'.own, m'.child);
  }

  lemma TakeParent(m: Memory, g: Trees, s: Slot, x: Addr, k: nat, r: seq<Addr>, m': Memory, g': Trees)
    requires Filed(g.key, g.ring, m.size, g.own) && ParentLinks(g.ring, g.own, m.parent) &&
      s.level <= StartLevel(s.index)
    requires s in g.ring && x == Head(g.ring, s) && Put(g, s, k, r, g') && MayTake(m, g, s, k, r)
    requires ParentTaken(m, g, s, x, r, m')
    ensures ParentLinks(g'.ring, g'.own, m'.parent)
  {
    HeadOwned(g.key, g.ring, m.size, g.own, s);
    HeadOwned(g.key, g.ring, m.size, g.own, Kid(s, 0));
    HeadOwned(g.key, g.ring, m.size, g.own, Kid(s, 1));
    assert m.parent[x] == ParentOf(g.ring, s, x);
    assert NULL !in g.own;
    hide Filed, ParentLinks;
    ParentLinksPut(g.ring, g.own, m.parent, s, r, g'.own, m'.parent);
  }

  lemma TakeKeeps(m: Memory, g: Trees, s: Slot, x: Addr, k: nat, r: seq<Addr>, m': Memory, g': Trees)
    requires Sound(m, g) && s in g.ring && x == Head(g.ring, s) && Put(g, s, k, r, g') && MayTake(m, g, s, k, r)
    requires Trie(g'.key) && AllBinned(g'.key) && s.level <= StartLevel(s.index)
    requires m'.size == m.size && m'.index == m.index
    requires RingRelinked(m, g, s, r, m') && ChildrenTaken(m, g, s, x, r, m') && ParentTaken(m, g, s, x, r, m')
    requires RootTaken(m, s, r[0], m')
    ensures Sound(m', g')
  {
    hide Trie, AllBinned, Filed, AllLinked, ChildLinks, ParentLinks, Indexed, Roots, RingRelinked, ChildrenTaken,
      ParentTaken;
    TakeFiled(m, g, s, k, r, m', g');
    TakeChild(m, g, s, x, k, r, m', g');
    TakeParent(m, g, s, x, k, r, m', g');
    RootsPut(g.ring, m.treebins, m.treemap, s, r, m'.treebins, m'.treemap);
  }

  lemma SameHeadAbove(m: Memory, g: Trees, s: Slot, x: Addr)
    requires Filed(g.key, g.ring, m.size, g.own) && ChildLinks(g.ring, g.own, m.child)
    requires s in g.ring && x == Head(g.ring, s)
    ensures forall a <- g.own | a in m.child :: Rehung(g.ring, m.child, s, x, a) == m.child[a]
  {
    HeadOwned(g.key, g.ring, m.size, g.own, Up(s));
    HangsAt(Up(s), s);
    forall a <- g.own | a in m.child ensures Rehung(g.ring, m.child, s, x, a) == m.child[a] {
      if a == Head(g.ring, Up(s)) {
        assert m.child[a] == ChildrenOf(g.ring, g.own[a], a);
      }
    }
  }

  lemma SameHeadBelow(m: Memory, g: Trees, s: Slot, x: Addr)
    requires Filed(g.key, g.ring, m.size, g.own) && ParentLinks(g.ring, g.own, m.parent)
    requires s in g.ring && x == Head(g.ring, s) && s.level <= StartLevel(s.index)
    ensures forall a <- g.own | a in m.parent :: Adopted(g.ring, m.parent, s, x, a) == m.parent[a]
  {
    HeadOwned(g.key, g.ring, m.size, g.own, Kid(s, 0));
    HeadOwned(g.key, g.ring, m.size, g.own, Kid(s, 1));
    forall a <- g.own | a in m.parent ensures Adopted(g.ring, m.parent, s, x, a) == m.parent[a] {
      assert m.parent[a] == ParentOf(g.ring, g.own[a], a);
    }
  }

  lemma UsedLevel(m: Memory, g: Trees, s: Slot)
    requires Trie(g.key) && AllBinned(g.key) && Filed(g.key, g.ring, m.size, g.own) && s in g.ring
    ensures 0 <= s.level <= StartLevel(s.index) && s.index < 32
  {
    assert OnPath(s, g.key[s]) && Binned(s.index, g.key[s]);
  }

  /** Nothing changes in the tree when the first chunk of a ring stays the same. */
  lemma SameHead(m: Memory, g: Trees, s: Slot, x: Addr)
    requires Sound(m, g) && s in g.ring && x == Head(g.ring, s)
    ensures x in g.own && g.own[x] == s && x in m.child && x in m.parent
    ensures forall a <- g.own | a in m.child :: Rehung(g.ring, m.child, s, x, a) == m.child[a]
    ensures forall a <- g.own | a in m.parent :: Adopted(g.ring, m.parent, s, x, a) == m.parent[a]
    ensures RootTaken(m, s, x, m)
  {
    hide Trie, AllBinned, AllLinked, Indexed, Prefix;
    UsedLevel(m, g, s);
    HeadOwned(g.key, g.ring, m.size, g.own, s);
    SameHeadBelow(m, g, s, x);
    SameHeadAbove(m, g, s, x);
  }

  // ---------------------------------------------------------------- joining and leaving a ring

  lemma JoinMayTake(m: Memory, g: Trees, s: Slot, t: Addr, x: Addr)
    requires Filed(g.key, g.ring, m.size, g.own) && Indexed(g.own, m.index)
    requires s in g.ring && s in g.key && t == Head(g.ring, s) && Ready(m, g, x, g.key[s], s.index)
    ensures g.ring[s] != [] && Distinct(g.ring[s]) && x !in g.ring[s]
    ensures MayTake(m, g, s, g.key[s], [t, x] + g.ring[s][1..])
  {
    hide Binned;
    var r := g.ring[s];
    assert RingOf(s, r, g.key[s], m.size, g.own);
    var r' := [r[0], x] + r[1..];
    forall a <- r' ensures a == x || a in r {
    }
    assert Distinct(r') by {
      assert forall j :: 2 <= j < |r'| ==> r'[j] == r[j - 1];
    }
  }

  lemma RestOfRing(m: Memory, g: Trees, s: Slot, a: Addr)
    requires Filed(g.key, g.ring, m.size, g.own) && ChildLinks(g.ring, g.own, m.child) &&
      ParentLinks(g.ring, g.own, m.parent)
    requires s in g.ring && a in g.ring[s] && a != Head(g.ring, s)
    ensures a in m.child && m.child[a] == NO_CHILDREN && a in m.parent && m.parent[a] == NoLink
  {
    assert RingOf(s, g.ring[s], g.key[s], m.size, g.own);
    assert m.child[a] == ChildrenOf(g.ring, s, a);
    assert m.parent[a] == ParentOf(g.ring, s, a);
  }

  /** A new chunk of the size of the chunk `t` at place `s` comes second in its ring. */
  lemma JoinKeeps(m: Memory, g: Trees, s: Slot, t: Addr, x: Addr, f: Addr, r: seq<Addr>, m': Memory, g': Trees)
    requires Sound(m, g) && s in g.ring && s in g.key && t == Head(g.ring, s) && Ready(m, g, x, g.key[s], s.index)
    requires r == [t, x] + g.ring[s][1..] && Put(g, s, g.key[s], r, g')
    requires t in m.fd && f == m.fd[t]
    requires m'.size == m.size && m'.index == m.index && m'.child == m.child && m'.parent == m.parent[x := NoLink]
    requires m'.fd == m.fd[t := x][x := f] && m'.bk == m.bk[f := x][x := t]
    requires m'.treebins == m.treebins && m'.treemap == m.treemap
    ensures Sound(m', g')
  {
    hide *;
    assert g'.key == g.key by { SameKey(g, s, g.key[s], r, g'); }
    SoundParts(m, g);
    JoinMayTake(m, g, s, t, x);
    ReadyFresh(m, g, x, g.key[s], s.index);
    UsedLevel(m, g, s);
    SameHead(m, g, s, t);
    JoinRing(m, g, s, t, x, f, r, m');
    JoinTree(m, g, s, t, x, r, m');
    SameRoot(m, s, t, m');
    TakeKeeps(m, g, s, t, g.key[s], r, m', g');
  }

  lemma SameKey(g: Trees, s: Slot, k: nat, r: seq<Addr>, g': Trees)
    requires Put(g, s, k, r, g') && s in g.key && g.key[s] == k
    ensures g'.key == g.key
  {
  }

  lemma SameRoot(m: Memory, s: Slot, t: Addr, m': Memory)
    requires RootTaken(m, s, t, m) && m'.treebins == m.treebins && m'.treemap == m.treemap
    ensures RootTaken(m, s, t, m')
  {
  }

  lemma ReadyFresh(m: Memory, g: Trees, x: Addr, s: nat, i: nat)
    requires Ready(m, g, x, s, i)
    ensures x !in g.own && x in m.child && m.child[x] == NO_CHILDREN
  {
  }

  lemma SoundParts(m: Memory, g: Trees)
    requires Sound(m, g)
    ensures Trie(g.key) && AllBinned(g.key) && Filed(g.key, g.ring, m.size, g.own) && AllLinked(g.ring, m.fd, m.bk)
    ensures ChildLinks(g.ring, g.own, m.child) && ParentLinks(g.ring, g.own, m.parent) && Indexed(g.own, m.index)
    ensures Roots(g.ring, m.treebins, m.treemap)
  {
  }

  lemma RestOfRingLinks(m: Memory, g: Trees, s: Slot)
    requires Filed(g.key, g.ring, m.size, g.own) && ChildLinks(g.ring, g.own, m.child) &&
      ParentLinks(g.ring, g.own, m.parent)
    requires s in g.ring && g.ring[s] != []
    ensures forall a <- g.ring[s] | a != g.ring[s][0] ::
      a in m.child && m.child[a] == NO_CHILDREN && a in m.parent && m.parent[a] == NoLink
  {
    forall a <- g.ring[s] | a != g.ring[s][0]
      ensures a in m.child && m.child[a] == NO_CHILDREN && a in m.parent && m.parent[a] == NoLink
    {
      RestOfRing(m, g, s, a);
    }
  }

  lemma JoinTree(m: Memory, g: Trees, s: Slot, t: Addr, x: Addr, r: seq<Addr>, m': Memory)
    requires Sound(m, g) && s in g.ring && t == Head(g.ring, s) && g.ring[s] != [] && r == [t, x] + g.ring[s][1..]
    requires x !in g.own && x in m.child && m.child[x] == NO_CHILDREN
    requires m'.child == m.child && m'.parent == m.parent[x := NoLink]
    ensures ChildrenTaken(m, g, s, t, r, m') && ParentTaken(m, g, s, t, r, m')
  {
    hide *;
    SoundParts(m, g);
    SameHead(m, g, s, t);
    RestOfRingLinks(m, g, s);
    assert r[0] == t == g.ring[s][0] by { HeadIsFirst(g.ring, s); }
    assert forall a <- r :: a == x || a in g.ring[s];
    SameHeadChildren(m, g, s, t, r, m');
    SameHeadParents(m, g, s, t, r, m');
  }

  lemma HeadIsFirst(ring: map<Slot, seq<Addr>>, s: Slot)
    requires s in ring && ring[s] != []
    ensures Head(ring, s) == ring[s][0]
  {
  }

  lemma SameHeadChildren(m: Memory, g: Trees, s: Slot, t: Addr, r: seq<Addr>, m': Memory)
    requires t in m.child && m'.child == m.child
    requires r != [] && r[0] == t && forall a <- r | a != t :: a in m.child && m.child[a] == NO_CHILDREN
    requires forall a <- g.own | a in m.child :: Rehung(g.ring, m.child, s, t, a) == m.child[a]
    ensures ChildrenTaken(m, g, s, t, r, m')
  {
  }

  lemma SameHeadParents(m: Memory, g: Trees, s: Slot, t: Addr, r: seq<Addr>, m': Memory)
    requires t in m.parent && t in m'.parent && m'.parent[t] == m.parent[t]
    requires r != [] && r[0] == t && forall a <- r | a != t :: a in m'.parent && m'.parent[a] == NoLink
    requires forall a <- g.own | a in m.parent :: Adopted(g.ring, m.parent, s, t, a) == m.parent[a]
    requires forall a <- g.own | a in m.parent :: a in m'.parent && m'.parent[a] == m.parent[a]
    ensures ParentTaken(m, g, s, t, r, m')
  {
  }

  lemma JoinRing(m: Memory, g: Trees, s: Slot, t: Addr, x: Addr, f: Addr, r: seq<Addr>, m': Memory)
    requires Filed(g.key, g.ring, m.size, g.own) && AllLinked(g.ring, m.fd, m.bk)
    requires s in g.ring && t == Head(g.ring, s) && x !in g.own
    requires g.ring[s] != [] && Distinct(g.ring[s]) && x !in g.ring[s] && r == [t, x] + g.ring[s][1..]
    requires t in m.fd && f == m.fd[t]
    requires m'.fd == m.fd[t := x][x := f] && m'.bk == m.bk[f := x][x := t]
    ensures RingRelinked(m, g, s, r, m')
  {
    assert Linked(g.ring[s], m.fd, m.bk);
    assert LinkedAt(g.ring[s], 0, m.fd, m.bk);
    RingAdd(g.ring[s], x, m.fd, m.bk, m'.fd, m'.bk);
    assert RingOf(s, g.ring[s], g.key[s], m.size, g.own);
    assert t in g.ring[s] && f in g.ring[s];
  }

  // ---------------------------------------------------------------- passing on the links of a first chunk

  /** How the links above the first chunk `x` of the ring at `s` lead to it. */
  lemma AboveLinks(m: Memory, g: Trees, s: Slot, x: Addr)
    requires Sound(m, g) && s in g.ring && x == Head(g.ring, s)
    ensures x in m.index && m.index[x] == s.index < 32 == |m.treebins| && x in m.parent && x != NULL
    ensures m.treebins[s.index] == x <==> s == RootSlot(s.index)
    ensures m.parent[x] == Above(g.ring, s)
    ensures s != RootSlot(s.index) ==> Up(s) in g.ring && HangsFrom(m, s, x, Head(g.ring, Up(s)))
  {
    hide Trie, AllBinned, AllLinked, RootSlot, Prefix;
    UsedLevel(m, g, s);
    HeadOwned(g.key, g.ring, m.size, g.own, s);
    HeadOwned(g.key, g.ring, m.size, g.own, RootSlot(s.index));
    assert m.parent[x] == ParentOf(g.ring, s, x);
    assert RootSlot(s.index).index == s.index by { RootIndex(s.index); }
    if s != RootSlot(s.index) {
      UpUsed(m, g, s);
      HangsFromUp(m, g, s, x);
    }
  }

  lemma RootIndex(i: nat)
    ensures RootSlot(i).index == i
  {
  }

  lemma UpUsed(m: Memory, g: Trees, s: Slot)
    requires Trie(g.key) && Filed(g.key, g.ring, m.size, g.own) && s in g.ring && s != RootSlot(s.index)
    ensures Up(s) in g.ring
  {
    assert Rooted(g.key, s);
  }

  predicate HangsFrom(m: Memory, s: Slot, x: Addr, p: Addr) {
    p in m.child && p != x && m.child[p].At(s.prefix % 2) == x && (m.child[p].left == x <==> s.prefix % 2 == 0)
  }

  lemma HangsFromUp(m: Memory, g: Trees, s: Slot, x: Addr)
    requires Filed(g.key, g.ring, m.size, g.own) && ChildLinks(g.ring, g.own, m.child)
    requires s in g.ring && x == Head(g.ring, s) && Up(s) in g.ring
    ensures HangsFrom(m, s, x, Head(g.ring, Up(s)))
  {
    var p := Head(g.ring, Up(s));
    HeadOwned(g.key, g.ring, m.size, g.own, s);
    HeadOwned(g.key, g.ring, m.size, g.own, Up(s));
    HeadOwned(g.key, g.ring, m.size, g.own, Kid(Up(s), 0));
    HangsAt(Up(s), s);
    assert m.child[p] == ChildrenOf(g.ring, Up(s), p);
  }

  /** The children maps after what pointed to `x` from above points to `h`. */
  function Unhung(m: Memory, x: Addr, h: Addr): map<Addr, Children> {
    if x in m.parent && m.parent[x].Chunk? && m.parent[x].address in m.child then
      var p := m.parent[x].address;
      m.child[p := m.child[p].With(if m.child[p].left == x then 0 else 1, h)]
    else m.child
  }

  lemma UnhungIsRehung(m: Memory, g: Trees, s: Slot, x: Addr, h: Addr)
    requires Sound(m, g) && s in g.ring && x == Head(g.ring, s)
    ensures Unhung(m, x, h).Keys == m.child.Keys
    ensures forall a <- g.own | a in m.child :: Unhung(m, x, h)[a] == Rehung(g.ring, m.child, s, h, a)
    ensures forall a <- m.child | a !in g.own :: Unhung(m, x, h)[a] == m.child[a]
  {
    hide Trie, AllBinned, AllLinked, ChildLinks, ParentLinks, Indexed, Roots, Prefix;
    AboveLinks(m, g, s, x);
    HeadOwned(g.key, g.ring, m.size, g.own, Up(s));
    if s == RootSlot(s.index) {
      RootHasNoneAbove(m, g, s);
    }
  }

  lemma RootHasNoneAbove(m: Memory, g: Trees, s: Slot)
    requires Sound(m, g) && s == RootSlot(s.index)
    ensures Up(s) !in g.ring
  {
    if Up(s) in g.ring {
      UsedLevel(m, g, Up(s));
    }
  }

  /** The parent links after the chunk `h` got parent link `up` and children `kids`. */
  function AdoptKids(parent: map<Addr, Link>, h: Addr, up: Link, kids: Children): map<Addr, Link> {
    var parent1 := parent[h := up];
    var parent2 := if kids.left != NULL then parent1[kids.left := Chunk(h)] else parent1;
    if kids.right != NULL then parent2[kids.right := Chunk(h)] else parent2
  }

  /** The chunk `h` takes over the links of the tree from `x`. */
  predicate Relinked(m: Memory, x: Addr, h: Addr, m': Memory) {
    && x in m.child && x in m.parent && x in m.index && m.index[x] < |m.treebins|
    && m'.child == Unhung(m, x, h)[h := m.child[x]]
    && m'.parent == AdoptKids(m.parent, h, m.parent[x], m.child[x])
    && m'.treebins == (if m.treebins[m.index[x]] == x then m.treebins[m.index[x] := h] else m.treebins)
    && m'.treemap == m.treemap
  }

  /** Ring `r` holds chunks that are not in the tree or from place `s`, where `x` comes first. */
  ghost predicate Successor(m: Memory, g: Trees, s: Slot, x: Addr, r: seq<Addr>) {
    && s in g.ring && x == Head(g.ring, s) && r != [] && r[0] != x
    && (forall a <- r :: a in g.own ==> g.own[a] == s)
    && (forall a <- r | a != r[0] ::
      a in m.child && m.child[a] == NO_CHILDREN && a in m.parent && m.parent[a] == NoLink)
    && r[0] in m.child && m.child[r[0]] == NO_CHILDREN
  }

  lemma RelinkChildren(m: Memory, g: Trees, s: Slot, x: Addr, r: seq<Addr>, m': Memory)
    requires Sound(m, g) && Successor(m, g, s, x, r) && Relinked(m, x, r[0], m')
    ensures ChildrenTaken(m, g, s, x, r, m')
  {
    hide Sound, Rehung, Unhung, AdoptKids, Head;
    UnhungIsRehung(m, g, s, x, r[0]);
    OtherRehung(m, g, s, r[0], m.child, r);
  }

  /** Chunks of the ring at `s` do not hang above `s`. */
  lemma OtherRehung(m: Memory, g: Trees, s: Slot, h: Addr, child: map<Addr, Children>, r: seq<Addr>)
    requires Sound(m, g) && s in g.ring && (forall a <- r :: a in g.own ==> g.own[a] == s)
    ensures forall a <- r | a in g.own && a in child :: Rehung(g.ring, child, s, h, a) == child[a]
  {
    hide Trie, AllBinned, AllLinked, ChildLinks, ParentLinks, Indexed, Roots;
    HeadOwned(g.key, g.ring, m.size, g.own, Up(s));
  }

  lemma KidsOf(m: Memory, g: Trees, s: Slot, x: Addr)
    requires Sound(m, g) && s in g.ring && x == Head(g.ring, s)
    ensures x in m.child && m.child[x] == Children(Head(g.ring, Kid(s, 0)), Head(g.ring, Kid(s, 1)))
    ensures Kid(s, 0) in g.ring ==> m.child[x].left in g.own && g.own[m.child[x].left] != s
    ensures Kid(s, 1) in g.ring ==> m.child[x].right in g.own && g.own[m.child[x].right] != s
    ensures Kid(s, 0) in g.ring <==> m.child[x].left != NULL
    ensures Kid(s, 1) in g.ring <==> m.child[x].right != NULL
    ensures NULL !in g.own
  {
    hide Trie, AllBinned, AllLinked, ParentLinks, Indexed, Roots;
    HeadOwned(g.key, g.ring, m.size, g.own, s);
    HeadOwned(g.key, g.ring, m.size, g.own, Kid(s, 0));
    HeadOwned(g.key, g.ring, m.size, g.own, Kid(s, 1));
    assert m.child[x] == ChildrenOf(g.ring, s, x);
  }

  lemma RelinkParents(m: Memory, g: Trees, s: Slot, x: Addr, r: seq<Addr>, m': Memory)
    requires Sound(m, g) && Successor(m, g, s, x, r) && Relinked(m, x, r[0], m')
    ensures ParentTaken(m, g, s, x, r, m')
  {
    hide Sound, Head, Unhung;
    KidsOf(m, g, s, x);
  }

  lemma RelinkRoot(m: Memory, g: Trees, s: Slot, x: Addr, h: Addr, m': Memory)
    requires Sound(m, g) && s in g.ring && x == Head(g.ring, s) && Relinked(m, x, h, m')
    ensures RootTaken(m, s, h, m')
  {
    hide Trie, AllBinned, Filed, AllLinked, ChildLinks, ParentLinks, Indexed, Head, Unhung, AdoptKids;
    AboveLinks(m, g, s, x);
  }

  // ---------------------------------------------------------------- leaving a ring

  lemma LeaveRing(m: Memory, g: Trees, s: Slot, k: nat, m': Memory)
    requires Filed(g.key, g.ring, m.size, g.own) && AllLinked(g.ring, m.fd, m.bk)
    requires s in g.ring && k < |g.ring[s]| && |g.ring[s]| > 1
    requires g.ring[s][k] in m.fd && g.ring[s][k] in m.bk
    requires m'.bk == m.bk[m.fd[g.ring[s][k]] := m.bk[g.ring[s][k]]]
    requires m'.fd == m.fd[m.bk[g.ring[s][k]] := m.fd[g.ring[s][k]]]
    ensures RingRelinked(m, g, s, Without(g.ring[s], k), m')
  {
    var r := g.ring[s];
    assert RingOf(s, r, g.key[s], m.size, g.own);
    assert Linked(r, m.fd, m.bk);
    assert LinkedAt(r, k, m.fd, m.bk);
    RingRemove(r, k, m.fd, m.bk, m'.fd, m'.bk);
    assert r[Next(r, k)] in r && r[Previous(r, k)] in r;
  }

  lemma LeaveMayTake(m: Memory, g: Trees, s: Slot, k: nat)
    requires Filed(g.key, g.ring, m.size, g.own) && Indexed(g.own, m.index)
    requires s in g.ring && s in g.key && k < |g.ring[s]| && |g.ring[s]| > 1
    ensures MayTake(m, g, s, g.key[s], Without(g.ring[s], k))
  {
    var r := g.ring[s];
    assert RingOf(s, r, g.key[s], m.size, g.own);
    WithoutMembers(r, k);
  }

  /** A chunk that is not the first leaves its ring. */
  lemma LeaveKeeps(m: Memory, g: Trees, s: Slot, k: nat, x: Addr, m': Memory, g': Trees)
    requires Sound(m, g) && s in g.ring && s in g.key && 0 < k < |g.ring[s]| && x == g.ring[s][k]
    requires Put(g, s, g.key[s], Without(g.ring[s], k), g')
    requires m'.size == m.size && m'.index == m.index && m'.child == m.child && m'.parent == m.parent
    requires x in m.fd && x in m.bk && m'.bk == m.bk[m.fd[x] := m.bk[x]] && m'.fd == m.fd[m.bk[x] := m.fd[x]]
    requires m'.treebins == m.treebins && m'.treemap == m.treemap
    ensures Sound(m', g')
  {
    hide *;
    var r, t := Without(g.ring[s], k), g.ring[s][0];
    assert g'.key == g.key by { SameKey(g, s, g.key[s], r, g'); }
    SoundParts(m, g);
    UsedLevel(m, g, s);
    HeadIsFirst(g.ring, s);
    SameHead(m, g, s, t);
    LeaveRing(m, g, s, k, m');
    LeaveMayTake(m, g, s, k);
    RestOfRingLinks(m, g, s);
    LeaveMembers(m, g, s, k);
    SameHeadChildren(m, g, s, t, r, m');
    SameHeadParents(m, g, s, t, r, m');
    SameRoot(m, s, t, m');
    TakeKeeps(m, g, s, t, g.key[s], r, m', g');
  }

  lemma LeaveMembers(m: Memory, g: Trees, s: Slot, k: nat)
    requires Filed(g.key, g.ring, m.size, g.own) && s in g.ring && k < |g.ring[s]| && |g.ring[s]| > 1
    ensures forall a :: a in Without(g.ring[s], k) <==> a in g.ring[s] && a != g.ring[s][k]
    ensures Without(g.ring[s], k) != [] && Without(g.ring[s], k)[0] == g.ring[s][if k == 0 then |g.ring[s]| - 1 else 0]
    ensures forall a <- g.ring[s] :: a in g.own && g.own[a] == s
  {
    assert RingOf(s, g.ring[s], g.key[s], m.size, g.own);
    WithoutMembers(g.ring[s], k);
  }

  /** The first chunk leaves its ring to the last one. */
  lemma LeaveFirstKeeps(m: Memory, g: Trees, s: Slot, x: Addr, m': Memory, g': Trees)
    requires Sound(m, g) && s in g.ring && s in g.key && |g.ring[s]| > 1 && x == g.ring[s][0]
    requires Put(g, s, g.key[s], Without(g.ring[s], 0), g')
    requires m'.size == m.size && m'.index == m.index
    requires x in m.fd && x in m.bk && m'.bk == m.bk[m.fd[x] := m.bk[x]] && m'.fd == m.fd[m.bk[x] := m.fd[x]]
    requires Relinked(m, x, m.bk[x], m')
    ensures Sound(m', g')
  {
    hide *;
    var r, h := Without(g.ring[s], 0), m.bk[x];
    assert g'.key == g.key by { SameKey(g, s, g.key[s], r, g'); }
    SoundParts(m, g);
    UsedLevel(m, g, s);
    HeadIsFirst(g.ring, s);
    LeaveRing(m, g, s, 0, m');
    LeaveMayTake(m, g, s, 0);
    LeaveSuccessor(m, g, s, x, r);
    RelinkChildren(m, g, s, x, r, m');
    RelinkParents(m, g, s, x, r, m');
    RelinkRoot(m, g, s, x, r[0], m');
    TakeKeeps(m, g, s, x, g.key[s], r, m', g');
  }

  lemma LeaveSuccessor(m: Memory, g: Trees, s: Slot, x: Addr, r: seq<Addr>)
    requires Sound(m, g) && s in g.ring && |g.ring[s]| > 1 && x == g.ring[s][0] && r == Without(g.ring[s], 0)
    ensures Successor(m, g, s, x, r) && x in m.bk && r[0] == m.bk[x]
  {
    hide Trie, AllBinned, ChildLinks, ParentLinks, Indexed, Roots, Filed, Distinct;
    HeadIsFirst(g.ring, s);
    LeaveMembers(m, g, s, 0);
    RestOfRingLinks(m, g, s);
    assert Linked(g.ring[s], m.fd, m.bk);
    assert LinkedAt(g.ring[s], 0, m.fd, m.bk);
    assert r[0] in r;
  }

  // ---------------------------------------------------------------- leaving the tree

  predicate Unrooted(m: Memory, x: Addr, m': Memory) {
    && x in m.index && m.index[x] < |m.treebins|
    && (if m.treebins[m.index[x]] == x
        then m'.treebins == m.treebins[m.index[x] := NULL] && m'.treemap == m.treemap - {m.index[x]}
        else m'.treebins == m.treebins && m'.treemap == m.treemap)
  }

  lemma DropChild(m: Memory, g: Trees, s: Slot, x: Addr, m': Memory, g': Trees)
    requires Sound(m, g) && s in g.ring && x == Head(g.ring, s) && Drop(g, s, g')
    requires m'.child == Unhung(m, x, NULL)
    ensures ChildLinks(g'.ring, g'.own, m'.child)
  {
    hide Trie, AllBinned, AllLinked, ChildLinks, ParentLinks, Indexed, Roots, Unhung, Rehung, Head;
    UnhungIsRehung(m, g, s, x, NULL);
    HeadOwned(g.key, g.ring, m.size, g.own, Up(s));
    ChildLinksDrop(g.ring, g.own, m.child, s, g'.own, m'.child);
  }

  lemma DropParent(m: Memory, g: Trees, s: Slot, g': Trees)
    requires Filed(g.key, g.ring, m.size, g.own) && ParentLinks(g.ring, g.own, m.parent)
    requires Leaf(g.key, s) && Drop(g, s, g')
    ensures ParentLinks(g'.ring, g'.own, m.parent)
  {
    hide ParentLinks;
    ParentLinksDrop(g.ring, g.own, m.parent, s, g'.own);
  }

  lemma DropRoot(m: Memory, g: Trees, s: Slot, x: Addr, m': Memory, g': Trees)
    requires Sound(m, g) && s in g.ring && x == Head(g.ring, s) && Unrooted(m, x, m') && Drop(g, s, g')
    ensures Roots(g'.ring, m'.treebins, m'.treemap)
  {
    hide Trie, AllBinned, Filed, AllLinked, ChildLinks, ParentLinks, Indexed, Head, Roots;
    AboveLinks(m, g, s, x);
    RootsDrop(g.ring, m.treebins, m.treemap, s, m'.treebins, m'.treemap);
  }

  lemma DropTrie(g: Trees, s: Slot, g': Trees)
    requires Trie(g.key) && AllBinned(g.key) && Leaf(g.key, s) && Drop(g, s, g')
    ensures Trie(g'.key) && AllBinned(g'.key)
  {
    hide Binned;
    RemoveLeaf(g.key, s, g'.key);
  }

  lemma DropFiled(m: Memory, g: Trees, s: Slot, g': Trees)
    requires Filed(g.key, g.ring, m.size, g.own) && AllLinked(g.ring, m.fd, m.bk) && Indexed(g.own, m.index) &&
      Drop(g, s, g')
    ensures Filed(g'.key, g'.ring, m.size, g'.own) && AllLinked(g'.ring, m.fd, m.bk) && Indexed(g'.own, m.index)
  {
    FiledDrop(g.key, g.ring, m.size, g.own, s, g'.own);
  }

  /** The ring at a leaf is cut off; `x` is its first chunk. */
  lemma DropKeeps(m: Memory, g: Trees, s: Slot, x: Addr, m': Memory, g': Trees)
    requires Sound(m, g) && s in g.ring && x == Head(g.ring, s) && Leaf(g.key, s) && Drop(g, s, g')
    requires m'.size == m.size && m'.fd == m.fd && m'.bk == m.bk && m'.index == m.index && m'.parent == m.parent
    requires m'.child == Unhung(m, x, NULL) && Unrooted(m, x, m')
    ensures Sound(m', g')
  {
    SoundParts(m, g);
    hide Sound, Leaf, Drop, Unhung, Unrooted, Head, Trie, AllBinned, Filed, AllLinked, ChildLinks, ParentLinks,
      Indexed, Roots;
    DropTrie(g, s, g');
    DropFiled(m, g, s, g');
    DropChild(m, g, s, x, m', g');
    DropParent(m, g, s, g');
    DropRoot(m, g, s, x, m', g');
    JoinParts(m', g');
  }

  lemma JoinParts(m: Memory, g: Trees)
    requires Trie(g.key) && AllBinned(g.key) && Filed(g.key, g.ring, m.size, g.own) && AllLinked(g.ring, m.fd, m.bk)
    requires ChildLinks(g.ring, g.own, m.child) && ParentLinks(g.ring, g.own, m.parent) && Indexed(g.own, m.index)
    requires Roots(g.ring, m.treebins, m.treemap)
    ensures Sound(m, g)
  {
  }

  // ---------------------------------------------------------------- a leaf takes the place of a chunk above it

  lemma ReplaceTrie(g: Trees, s: Slot, q: Slot, g1: Trees, r: seq<Addr>, g': Trees)
    requires Trie(g.key) && AllBinned(g.key) && s in g.key && InSubtree(g.key, s, q) && q != s && Leaf(g.key, q)
    requires Drop(g, q, g1) && Put(g1, s, g.key[q], r, g')
    ensures Trie(g'.key) && AllBinned(g'.key)
  {
    hide Binned, Trie, OnPath;
    ReplaceByLeaf(g.key, s, q, g'.key);
  }

  lemma ReplaceMayTake(m: Memory, g: Trees, s: Slot, q: Slot, g1: Trees)
    requires Filed(g.key, g.ring, m.size, g.own) && Indexed(g.own, m.index)
    requires s in g.key && q in g.key && q.index == s.index && Drop(g, q, g1)
    ensures MayTake(m, g1, s, g.key[q], g.ring[q])
  {
    assert RingOf(q, g.ring[q], g.key[q], m.size, g.own);
  }

  lemma ReplaceRing(m: Memory, g: Trees, s: Slot, q: Slot, g1: Trees, m': Memory)
    requires AllLinked(g.ring, m.fd, m.bk) && q in g.ring && m'.fd == m.fd && m'.bk == m.bk
    ensures RingRelinked(m, g1, s, g.ring[q], m')
  {
    assert Linked(g.ring[q], m.fd, m.bk);
  }

  lemma ReplaceSuccessor(m: Memory, g: Trees, s: Slot, x: Addr, q: Slot, h: Addr, m1: Memory, g1: Trees)
    requires Sound(m, g) && s in g.ring && x == Head(g.ring, s) && q in g.ring && h == Head(g.ring, q) && q != s
    requires Leaf(g.key, q) && Drop(g, q, g1) && m1.child == Unhung(m, h, NULL) && m1.parent == m.parent
    ensures Successor(m1, g1, s, x, g.ring[q]) && g.ring[q][0] == h
  {
    hide Sound, Trie, AllBinned, Filed, AllLinked, ChildLinks, ParentLinks, Indexed, Roots, Unhung, Rehung, RingOf;
    SoundParts(m, g);
    RingMembers(m, g, s);
    RingMembers(m, g, q);
    RestOfRingLinks(m, g, q);
    LeafHasNoKids(m, g, q, h);
    UnhungIsRehung(m, g, q, h, NULL);
    OtherRehung(m, g, q, NULL, m.child, g.ring[q]);
  }

  lemma RingMembers(m: Memory, g: Trees, s: Slot)
    requires Filed(g.key, g.ring, m.size, g.own) && s in g.ring
    ensures g.ring[s] != [] && forall a <- g.ring[s] :: a in g.own && g.own[a] == s
  {
    assert RingOf(s, g.ring[s], g.key[s], m.size, g.own);
  }

  lemma LeafHasNoKids(m: Memory, g: Trees, s: Slot, x: Addr)
    requires Sound(m, g) && s in g.ring && x == Head(g.ring, s) && Leaf(g.key, s)
    ensures x in m.child && m.child[x] == NO_CHILDREN
  {
    hide Trie, AllBinned, AllLinked, ChildLinks, ParentLinks, Indexed, Roots;
    KidsOf(m, g, s, x);
  }

  /** The ring of the leaf at `q` comes to place `s`, where `x` was alone. */
  lemma ReplaceKeeps(m: Memory, g: Trees, s: Slot, x: Addr, q: Slot, h: Addr, m1: Memory, g1: Trees, m': Memory,
      g': Trees)
    requires Sound(m, g) && s in g.ring && s in g.key && g.ring[s] == [x]
    requires InSubtree(g.key, s, q) && q in g.ring && h == Head(g.ring, q) && q != s && Leaf(g.key, q)
    requires Drop(g, q, g1) && m1 == m.(child := Unhung(m, h, NULL))
    requires Relinked(m1, x, h, m') && Put(g1, s, g.key[q], g.ring[q], g')
    requires m'.size == m.size && m'.fd == m.fd && m'.bk == m.bk && m'.index == m.index
    ensures Sound(m', g')
  {
    hide *;
    SoundParts(m, g);
    UsedLevel(m, g, s);
    ReplaceStart(m, g, s, x, q, h, m1, g1);
    DropKeeps(m, g, q, h, m1, g1);
    ReplaceTrie(g, s, q, g1, g.ring[q], g');
    ReplaceMayTake(m, g, s, q, g1);
    assert MayTake(m1, g1, s, g.key[q], g.ring[q]) by { MayTakeSame(m, g1, s, g.key[q], g.ring[q], m1); }
    ReplaceRing(m, g, s, q, g1, m');
    assert RingRelinked(m1, g1, s, g.ring[q], m') by { RingRelinkedSame(m, g1, s, g.ring[q], m', m1); }
    ReplaceSuccessor(m, g, s, x, q, h, m1, g1);
    RelinkChildren(m1, g1, s, x, g.ring[q], m');
    RelinkParents(m1, g1, s, x, g.ring[q], m');
    RelinkRoot(m1, g1, s, x, h, m');
    TakeKeeps(m1, g1, s, x, g.key[q], g.ring[q], m', g');
  }

  lemma ReplaceStart(m: Memory, g: Trees, s: Slot, x: Addr, q: Slot, h: Addr, m1: Memory, g1: Trees)
    requires Sound(m, g) && s in g.ring && s in g.key && g.ring[s] == [x]
    requires InSubtree(g.key, s, q) && q in g.ring && h == Head(g.ring, q) && q != s
    requires Drop(g, q, g1) && m1 == m.(child := Unhung(m, h, NULL))
    ensures Unrooted(m, h, m1) && s in g1.ring && x == Head(g.ring, s) == Head(g1.ring, s)
    ensures q in g.key && q.index == s.index
  {
    hide Sound, Unhung;
    BelowIsNoRoot(m, g, s, q, h);
  }

  lemma MayTakeSame(m: Memory, g: Trees, s: Slot, k: nat, r: seq<Addr>, m1: Memory)
    requires MayTake(m, g, s, k, r) && m1.size == m.size && m1.index == m.index
    ensures MayTake(m1, g, s, k, r)
  {
  }

  lemma RingRelinkedSame(m: Memory, g: Trees, s: Slot, r: seq<Addr>, m': Memory, m1: Memory)
    requires RingRelinked(m, g, s, r, m') && m1.fd == m.fd && m1.bk == m.bk
    ensures RingRelinked(m1, g, s, r, m')
  {
  }

  lemma BelowIsNoRoot(m: Memory, g: Trees, s: Slot, q: Slot, h: Addr)
    requires Sound(m, g) && s in g.key && InSubtree(g.key, s, q) && q != s && q in g.ring && h == Head(g.ring, q)
    ensures h in m.index && m.index[h] == q.index < |m.treebins| && m.treebins[m.index[h]] != h
  {
    hide *;
    SoundParts(m, g);
    BelowIsNotRoot(g.key, s, q);
    AboveLinks(m, g, q, h);
  }

  // ---------------------------------------------------------------- going down

  /** One step of the search for the place of `size`: from `t` at place `p`, where another size is. */
  lemma StepDown(m: Memory, g: Trees, p: Slot, t: Addr, size: nat, i: nat)
    requires Sound(m, g) && p in g.ring && t == Head(g.ring, p) && p.index == i
    requires 0 <= p.level && p == Path(i, size, p.level) && NotAbove(g.key, size, i, p.level)
    ensures p in g.key && t in m.size && m.size[t] == g.key[p] && t in m.child
    ensures size != g.key[p] ==> p.level > 0 && NotAbove(g.key, size, i, p.level - 1)
    ensures size != g.key[p] ==> Kid(p, BitAt(size, p.level - 1)) == Path(i, size, p.level - 1)
    ensures forall bit | bit in {0, 1} ::
      m.child[t].At(bit) == Head(g.ring, Kid(p, bit)) &&
      (m.child[t].At(bit) != NULL <==> Kid(p, bit) in g.ring)
  {
    hide Sound, AllBinned, AllLinked, ChildLinks, ParentLinks, Indexed, Roots, NotAbove, Binned;
    SoundParts(m, g);
    KidsOf(m, g, p, t);
    assert RingOf(p, g.ring[p], g.key[p], m.size, g.own);
    StepLevel(g.key, p, size, i);
  }

  lemma StepLevel(key: map<Slot, nat>, p: Slot, size: nat, i: nat)
    requires Trie(key) && p in key && p.index == i
    requires 0 <= p.level && p == Path(i, size, p.level) && NotAbove(key, size, i, p.level)
    ensures size != key[p] ==> p.level > 0 && NotAbove(key, size, i, p.level - 1)
    ensures size != key[p] ==> Kid(p, BitAt(size, p.level - 1)) == Path(i, size, p.level - 1)
  {
    assert OnPath(p, key[p]);
    if size != key[p] {
      PrefixStep(size, p.level - 1);
    }
  }

  lemma EnterBin(m: Memory, g: Trees, i: nat, size: nat)
    requires Sound(m, g) && i < 32
    ensures |m.treebins| == 32 && m.treebins[i] == Head(g.ring, RootSlot(i))
    ensures i in m.treemap <==> RootSlot(i) in g.ring
    ensures m.treebins[i] != NULL <==> RootSlot(i) in g.ring
    ensures Binned(i, size) ==> RootSlot(i) == Path(i, size, StartLevel(i)) && NotAbove(g.key, size, i, StartLevel(i))
  {
    hide Trie, AllBinned, AllLinked, ChildLinks, ParentLinks, Indexed, TreeIndexOf, InBin, Prefix;
    HeadOwned(g.key, g.ring, m.size, g.own, RootSlot(i));
    if Binned(i, size) {
      BinPrefix(i, size);
    }
  }

  // ---------------------------------------------------------------- the chunks that are filed

  lemma RingChunks(m: Memory, g: Trees, s: Slot)
    requires Filed(g.key, g.ring, m.size, g.own) && s in g.ring
    ensures forall a :: a in g.ring[s] <==> a in g.own && g.own[a] == s
  {
    assert RingOf(s, g.ring[s], g.key[s], m.size, g.own);
  }

  lemma PutChunks(m: Memory, g: Trees, s: Slot, k: nat, x: Addr, g': Trees)
    requires Filed(g.key, g.ring, m.size, g.own) && s !in g.ring && Put(g, s, k, [x], g')
    ensures g'.own.Keys == g.own.Keys + {x}
  {
  }

  lemma JoinChunks(m: Memory, g: Trees, s: Slot, k: nat, t: Addr, x: Addr, g': Trees)
    requires Filed(g.key, g.ring, m.size, g.own) && s in g.ring && t == Head(g.ring, s)
    requires g.ring[s] != [] && Put(g, s, k, [t, x] + g.ring[s][1..], g')
    ensures g'.own.Keys == g.own.Keys + {x}
  {
    RingChunks(m, g, s);
    var r := g.ring[s];
    hide Filed;
    assert r == [t] + r[1..];
    assert forall a :: a in [t, x] + r[1..] <==> a == x || a in r;
  }

  lemma LeaveChunks(m: Memory, g: Trees, s: Slot, j: nat, k: nat, g': Trees)
    requires Filed(g.key, g.ring, m.size, g.own) && s in g.ring && j < |g.ring[s]| && |g.ring[s]| > 1
    requires Put(g, s, k, Without(g.ring[s], j), g')
    ensures g'.own.Keys == g.own.Keys - {g.ring[s][j]}
  {
    RingChunks(m, g, s);
    LeaveMembers(m, g, s, j);
    hide Filed, Without;
  }

  lemma DropChunks(m: Memory, g: Trees, s: Slot, x: Addr, g': Trees)
    requires Filed(g.key, g.ring, m.size, g.own) && s in g.ring && g.ring[s] == [x] && Drop(g, s, g')
    ensures g'.own.Keys == g.own.Keys - {x}
  {
    RingChunks(m, g, s);
    hide Filed;
  }

  lemma ReplaceChunks(m: Memory, g: Trees, s: Slot, x: Addr, q: Slot, k: nat, g1: Trees, g': Trees)
    requires Filed(g.key, g.ring, m.size, g.own) && s in g.ring && g.ring[s] == [x] && q in g.ring && q != s
    requires Drop(g, q, g1) && Put(g1, s, k, g.ring[q], g')
    ensures g'.own.Keys == g.own.Keys - {x}
  {
    RingChunks(m, g, s);
    RingChunks(m, g, q);
    hide Filed;
  }

  lemma HeadLinked(m: Memory, g: Trees, s: Slot, t: Addr)
    requires Filed(g.key, g.ring, m.size, g.own) && AllLinked(g.ring, m.fd, m.bk) && s in g.ring && t == Head(g.ring, s)
    ensures g.ring[s] != [] && t in m.fd && t in m.bk
  {
    assert RingOf(s, g.ring[s], g.key[s], m.size, g.own);
    assert Linked(g.ring[s], m.fd, m.bk);
    assert LinkedAt(g.ring[s], 0, m.fd, m.bk);
  }

  // ---------------------------------------------------------------- taking a chunk out

  /** Where a filed chunk is, and what its links say about that. */
  lemma Locate(m: Memory, g: Trees, x: Addr) returns (s: Slot, k: nat)
    requires Sound(m, g) && x in g.own
    ensures s == g.own[x] && s in g.ring && s in g.key && k < |g.ring[s]| && g.ring[s][k] == x
    ensures x in m.fd && x in m.bk && x in m.child && x in m.parent
    ensures m.bk[x] != x <==> |g.ring[s]| > 1
    ensures k == 0 <==> x == Head(g.ring, s)
    ensures k == 0 <==> m.parent[x] != NoLink
    ensures |g.ring[s]| > 1 ==> m.bk[x] == g.ring[s][Previous(g.ring[s], k)]
  {
    hide Trie, AllBinned, Indexed, Roots, RootSlot;
    s := g.own[x];
    k :| 0 <= k < |g.ring[s]| && g.ring[s][k] == x;
    assert RingOf(s, g.ring[s], g.key[s], m.size, g.own);
    assert Linked(g.ring[s], m.fd, m.bk) && LinkedAt(g.ring[s], k, m.fd, m.bk);
    assert m.parent[x] == ParentOf(g.ring, s, x);
  }

  /** The leaf below `s` that preferring right children leads to. */
  ghost function RightLeaf(key: map<Slot, nat>, s: Slot): Slot
    decreases if s.level >= 0 then s.level + 1 else 0
  {
    if s.level < 0 then s
    else if Kid(s, 1) in key then RightLeaf(key, Kid(s, 1))
    else if Kid(s, 0) in key then RightLeaf(key, Kid(s, 0))
    else s
  }

  lemma SlotLevel(m: Memory, g: Trees, s: Slot)
    requires Trie(g.key) && AllBinned(g.key) && Filed(g.key, g.ring, m.size, g.own) && s in g.ring
    ensures s.level >= 0
  {
    hide Trie, AllBinned, Filed;
    UsedLevel(m, g, s);
  }

  lemma RightLeafStep(m: Memory, g: Trees, q: Slot)
    requires Filed(g.key, g.ring, m.size, g.own) && q.level >= 0
    ensures Kid(q, 1) in g.ring ==> RightLeaf(g.key, q) == RightLeaf(g.key, Kid(q, 1))
    ensures Kid(q, 1) !in g.ring && Kid(q, 0) in g.ring ==> RightLeaf(g.key, q) == RightLeaf(g.key, Kid(q, 0))
    ensures Kid(q, 1) !in g.ring && Kid(q, 0) !in g.ring ==> RightLeaf(g.key, q) == q
  {
    SameDomain(m, g);
  }

  lemma KidStep(m: Memory, g: Trees, s: Slot, q: Slot, r: Addr, bit: nat)
    requires Sound(m, g) && s in g.key && q in g.ring && r == Head(g.ring, q) && bit < 2
    requires s == q || InSubtree(g.key, s, q)
    ensures r in m.child && m.child[r].At(bit) == Head(g.ring, Kid(q, bit))
    ensures m.child[r].At(bit) != NULL <==> Kid(q, bit) in g.ring
    ensures m.child[r].At(bit) != NULL ==> InSubtree(g.key, s, Kid(q, bit)) && Kid(q, bit).level < q.level
    ensures r != NULL && (m.child[r] == NO_CHILDREN <==> Leaf(g.key, q))
    ensures Kid(q, bit).level >= 0 || m.child[r].At(bit) == NULL
  {
    hide AllBinned, AllLinked, ChildLinks, ParentLinks, Indexed, Roots, Trie, Prefix;
    KidsOf(m, g, q, r);
    HeadOwned(g.key, g.ring, m.size, g.own, q);
    if Kid(q, bit) in g.key {
      SubtreeSelf(g.key, s);
      KidBelow(g.key, q, bit);
      SubtreeTrans(g.key, s, q, Kid(q, bit));
      UsedLevel(m, g, Kid(q, bit));
    }
  }

  lemma CutLink(m: Memory, g: Trees, o: Slot, owner: Addr, bit: nat, r: Addr)
    requires Sound(m, g) && o in g.ring && owner == Head(g.ring, o) && bit < 2
    requires Kid(o, bit) in g.ring && r == Head(g.ring, Kid(o, bit))
    ensures owner in m.child && m.child[owner := m.child[owner].With(bit, NULL)] == Unhung(m, r, NULL)
  {
    hide Trie, AllBinned, Filed, AllLinked, ChildLinks, ParentLinks, Indexed, Roots, Prefix, Head;
    AboveLinks(m, g, Kid(o, bit), r);
    NotARoot(m, g, o, bit);
    assert Up(Kid(o, bit)) == o;
  }

  lemma NotARoot(m: Memory, g: Trees, o: Slot, bit: nat)
    requires Sound(m, g) && o in g.ring && bit < 2
    ensures Kid(o, bit) != RootSlot(o.index)
  {
    UsedLevel(m, g, o);
  }

  lemma RelinkReady(m: Memory, g: Trees, s: Slot, x: Addr, r: Addr)
    requires Sound(m, g) && s in g.ring && x == Head(g.ring, s)
    requires r == NULL || (r in g.own && g.own[r].level <= s.level)
    ensures x in m.index && m.index[x] < |m.treebins| && x in m.child && x in m.parent && x != NULL
    ensures m.treebins[m.index[x]] == x <==> m.parent[x].Bin?
    ensures m.treebins[m.index[x]] != x ==>
        m.parent[x].Chunk? && m.parent[x].address in m.child && m.parent[x].address !in {x, r}
  {
    hide Trie, AllBinned, AllLinked, ChildLinks, ParentLinks, Indexed, Roots, Head;
    AboveLinks(m, g, s, x);
    KidsOf(m, g, s, x);
    HeadOwned(g.key, g.ring, m.size, g.own, Up(s));
  }

  lemma LastOfRing(m: Memory, g: Trees, s: Slot, x: Addr)
    requires Sound(m, g) && s in g.ring && |g.ring[s]| > 1 && x == g.ring[s][0] && x in m.bk
    ensures m.bk[x] in g.own && g.own[m.bk[x]] == s && m.bk[x] != x && m.bk[x] != NULL
    ensures m.bk[x] in m.child && m.child[m.bk[x]] == NO_CHILDREN
  {
    hide Trie, AllBinned, ChildLinks, ParentLinks, Indexed, Roots;
    RingMembers(m, g, s);
    assert RingOf(s, g.ring[s], g.key[s], m.size, g.own);
    assert Linked(g.ring[s], m.fd, m.bk) && LinkedAt(g.ring[s], 0, m.fd, m.bk);
    assert m.bk[x] in g.ring[s];
    RestOfRingLinks(m, g, s);
  }

  /** Before `x` gives way to the leaf at `q`, once that is cut off. */
  lemma LeafReady(m: Memory, g: Trees, s: Slot, x: Addr, q: Slot, r: Addr)
    requires Sound(m, g) && s in g.ring && x == Head(g.ring, s) && q in g.ring && r == Head(g.ring, q) && q != s
    requires InSubtree(g.key, s, q) && Leaf(g.key, q)
    ensures q in g.key && r != x && r in m.child && r in Unhung(m, r, NULL) && Unhung(m, r, NULL)[r] == NO_CHILDREN
    ensures x in m.index && m.index[x] < |m.treebins| && x in m.child && x in m.parent && x != NULL
    ensures m.treebins[m.index[x]] == x <==> m.parent[x].Bin?
    ensures m.treebins[m.index[x]] != x ==>
        m.parent[x].Chunk? && m.parent[x].address in m.child && m.parent[x].address !in {x, r}
    ensures Unhung(m, r, NULL).Keys == m.child.Keys
  {
    hide Sound, AllBinned, AllLinked, ChildLinks, ParentLinks, Indexed, Roots, Trie, Unhung, Rehung, Leaf, Filed;
    SoundParts(m, g);
    RingMembers(m, g, s);
    RingMembers(m, g, q);
    RelinkReady(m, g, s, x, r);
    LeafHasNoKids(m, g, q, r);
    UnhungIsRehung(m, g, q, r, NULL);
    OtherRehung(m, g, q, NULL, m.child, g.ring[q]);
  }

  lemma RelinkedSame(m: Memory, m1: Memory, x: Addr, h: Addr, m': Memory)
    requires Relinked(m1, x, h, m')
    requires m1.child == m.child && m1.parent == m.parent && m1.index == m.index && m1.treebins == m.treebins &&
      m1.treemap == m.treemap
    ensures Relinked(m, x, h, m')
  {
  }

  lemma LeaveEither(m: Memory, g: Trees, s: Slot, k: nat, x: Addr, m1: Memory, m': Memory, g': Trees)
    requires Sound(m, g) && s in g.ring && s in g.key && k < |g.ring[s]| && |g.ring[s]| > 1 && g.ring[s][k] == x
    requires x in m.fd && x in m.bk && m1 == m.(bk := m.bk[m.fd[x] := m.bk[x]], fd := m.fd[m.bk[x] := m.fd[x]])
    requires if k == 0 then Relinked(m1, x, m.bk[x], m') else m' == m1
    requires m'.size == m1.size && m'.fd == m1.fd && m'.bk == m1.bk && m'.index == m1.index
    requires Put(g, s, g.key[s], Without(g.ring[s], k), g')
    ensures Sound(m', g') && g'.own.Keys == g.own.Keys - {x}
  {
    hide *;
    SoundParts(m, g);
    if k == 0 {
      RelinkedSame(m, m1, x, m.bk[x], m');
      LeaveFirstKeeps(m, g, s, x, m', g');
    } else {
      LeaveKeeps(m, g, s, k, x, m', g');
    }
    LeaveChunks(m, g, s, k, g.key[s], g');
  }

  // ---------------------------------------------------------------- looking a chunk up

  lemma FoundSize(m: Memory, g: Trees, p: Slot, x: Addr)
    requires Sound(m, g) && p in g.ring && x in m.size && g.key[p] == m.size[x] && p.index == TreeIndexOf(m.size[x])
    ensures x in g.own <==> x in g.ring[p]
  {
    hide AllLinked, ChildLinks, ParentLinks, Indexed, Roots, InBin, Prefix, TreeIndexOf, OnPath;
    RingMembers(m, g, p);
    if x in g.own {
      ChunkSize(m, g, x);
    }
  }

  lemma ChunkSize(m: Memory, g: Trees, x: Addr)
    requires Filed(g.key, g.ring, m.size, g.own) && AllBinned(g.key) && x in g.own
    ensures g.own[x] in g.key && g.own[x] in g.ring && x in g.ring[g.own[x]]
    ensures x in m.size && m.size[x] == g.key[g.own[x]] && Binned(g.own[x].index, m.size[x])
  {
    hide Binned;
    assert RingOf(g.own[x], g.ring[g.own[x]], g.key[g.own[x]], m.size, g.own);
  }

  lemma MissingSize(m: Memory, g: Trees, i: nat, x: Addr, level: int)
    requires Sound(m, g) && x in m.size && i == TreeIndexOf(m.size[x])
    requires Binned(i, m.size[x]) ==>
      && -1 <= level < StartLevel(i) && NotAbove(g.key, m.size[x], i, level)
      && (level >= 0 ==> Path(i, m.size[x], level) !in g.ring)
    ensures x !in g.own
  {
    hide AllLinked, ChildLinks, ParentLinks, Indexed, Roots, InBin, Prefix, TreeIndexOf, Trie, StartLevel;
    if x in g.own {
      ChunkSize(m, g, x);
      SizeAbsent(g.key, m.size[x], i, level);
    }
  }

  lemma EmptyBin(m: Memory, g: Trees, i: nat, x: Addr)
    requires Sound(m, g) && x in m.size && i == TreeIndexOf(m.size[x]) && RootSlot(i) !in g.ring
    ensures x !in g.own
  {
    hide AllLinked, ChildLinks, ParentLinks, Indexed, Roots, InBin, Prefix, TreeIndexOf, Trie, RootSlot;
    if x in g.own {
      ChunkSize(m, g, x);
      RootUsed(g.key, g.own[x]);
    }
  }

  /** The place of `size`, if it is in its own bin, is below the place where the search is. */
  ghost predicate OnTrack(g: Trees, p: Slot, i: nat, size: nat, k: nat) {
    Binned(i, size) ==>
      && 0 <= p.level <= 64 && p == Path(i, size, p.level) && NotAbove(g.key, size, i, p.level) &&
        k == Key(size, 64 - p.level)
  }

  lemma FindStep(m: Memory, g: Trees, p: Slot, t: Addr, i: nat, k: nat, bit: nat, x: Addr)
    requires Sound(m, g) && p in g.ring && t == Head(g.ring, p) && p.index == i && p.level >= 0
    requires x in m.size && m.size[x] < TWO_64 && i == TreeIndexOf(m.size[x]) && k < TWO_64
    requires t in m.size && m.size[t] != m.size[x]
    requires OnTrack(g, p, i, m.size[x], k) && bit == if k >= TWO_63 then 1 else 0
    ensures t in m.child && m.child[t].At(bit) == Head(g.ring, Kid(p, bit))
    ensures m.child[t].At(bit) != NULL ==>
        Kid(p, bit) in g.ring && 0 <= Kid(p, bit).level < p.level && OnTrack(g, Kid(p, bit), i, m.size[x], ShiftLeft(k))
    ensures m.child[t].At(bit) == NULL ==> x !in g.own
  {
    hide Sound, NotAbove, Binned, InBin, TreeIndexOf, Trie, Prefix, BitAt, Filed, AllBinned, AllLinked, ChildLinks,
      ParentLinks, Indexed, Roots, StartLevel, StartPrefix, InSubtree, Head;
    SoundParts(m, g);
    UsedSize(m, g, p, t);
    SubtreeSelf(g.key, p);
    KidStep(m, g, p, p, t, bit);
    if Binned(i, m.size[x]) {
      StepDown(m, g, p, t, m.size[x], i);
      KeyTopBit(m.size[x], 64 - p.level);
      UsedLevel(m, g, p);
    }
    if m.child[t].At(bit) == NULL {
      MissingSize(m, g, i, x, p.level - 1);
    }
  }

  lemma UsedSize(m: Memory, g: Trees, p: Slot, t: Addr)
    requires Filed(g.key, g.ring, m.size, g.own) && p in g.ring && t == Head(g.ring, p)
    ensures p in g.key && t in m.size && m.size[t] == g.key[p] && t != NULL && t in g.own
    ensures g.ring[p] != [] && Distinct(g.ring[p]) && g.ring[p][0] == t
  {
    assert RingOf(p, g.ring[p], g.key[p], m.size, g.own);
    assert t in g.ring[p];
  }

  lemma IndexBound(size: nat)
    ensures TreeIndexOf(size) <= LAST_BIN
  {
    var x := size / 0x100 % 0x1_0000_0000;
    if 0 < x <= 0xffff {
      SmallLog2(x);
    }
  }

  lemma StepRing(m: Memory, g: Trees, p: Slot, j: nat)
    requires AllLinked(g.ring, m.fd, m.bk) && p in g.ring && j < |g.ring[p]|
    ensures g.ring[p][j] in m.fd && m.fd[g.ring[p][j]] == g.ring[p][Next(g.ring[p], j)]
  {
    assert Linked(g.ring[p], m.fd, m.bk) && LinkedAt(g.ring[p], j, m.fd, m.bk);
  }

  lemma StartTrack(m: Memory, g: Trees, i: nat, size: nat, k: nat)
    requires Sound(m, g) && i <= LAST_BIN && size < TWO_64 && k == Key(size, LeftShift(i))
    ensures OnTrack(g, RootSlot(i), i, size, k) && 0 <= StartLevel(i)
  {
    hide InBin, TreeIndexOf, Trie, Prefix, BitAt, Key;
    if Binned(i, size) {
      EnterBin(m, g, i, size);
    }
  }
}
