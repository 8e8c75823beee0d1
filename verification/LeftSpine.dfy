/**
 * Chunks apart from each other in memory that make the search miss one that fits:
 * small ones all along the left edge of the last bin's tree, and a large one that
 * the edge passes by.
 */
module LeftSpine {
  import opened Collections
  import opened TreeIndex
  import opened TreeTrie
  import opened TreeLinks
  import opened TreeBinsSpec
  import opened TreeSearch
  import opened BestFitSpec

  const TWO_24 := 0x100_0000
  const SMALL_CHUNKS := 41
  const LARGE_AT: Addr := 0x4000_0000

  function SmallAt(j: nat): Addr {
    TWO_24 * (j + 1)
  }

  function SmallSize(j: nat): nat {
    LAST_MIN_SIZE + 8 * j
  }

  /** The `j`-th place of the left edge, from the root on. */
  function Edge(j: nat): Slot {
    Slot(LAST_BIN, 64 - j, 0)
  }

  function LargeSizeFor(nb: nat): nat {
    nb - nb % TWO_40 + LAST_MIN_SIZE
  }

  ghost function SmallChunks(n: nat): set<Addr> {
    set j: nat | j < n :: SmallAt(j)
  }

  lemma OneMore(n: nat)
    ensures SmallChunks(n + 1) == SmallChunks(n) + {SmallAt(n)} && SmallAt(n) !in SmallChunks(n)
  {
  }

  ghost predicate SmallSizes(n: nat, size: map<Addr, nat>) {
    forall j: nat :: j < n ==> SmallAt(j) in size && size[SmallAt(j)] == SmallSize(j)
  }

  /** The first `n` places of the edge are in use for the small sizes, one after the other. */
  ghost predicate EdgeUsed(key: map<Slot, nat>, n: nat) {
    forall j: nat :: j < n ==> Edge(j) in key && key[Edge(j)] == SmallSize(j)
  }

  lemma SmallBinned(j: nat)
    requires j < SMALL_CHUNKS
    ensures Binned(LAST_BIN, SmallSize(j)) && SmallSize(j) < TWO_24
  {
    hide TreeIndexOf, MinSize;
    LastMinSize();
    IndexInBin(SmallSize(j));
    OneBin(TreeIndexOf(SmallSize(j)), LAST_BIN, SmallSize(j));
  }

  lemma PrefixBelow24(size: nat, level: nat)
    requires level >= 24
    ensures size < TWO_24 ==> Prefix(size, level) == 0
    ensures level == 24 && Prefix(size, level) == 0 ==> size < TWO_24
  {
    assert Pow2(24) == TWO_24 by { Pow2Values(); }
    if size < TWO_24 {
      PrefixBelow(size, 24, 24);
      PrefixZero(size, 24, level);
    } else if Prefix(size, level) == 0 && level == 24 {
      BelowPrefix(size, 24, 0);
    }
  }

  lemma {:induction false} PrefixZero(size: nat, low: nat, level: nat)
    requires low <= level && Prefix(size, low) == 0
    ensures Prefix(size, level) == 0
    decreases level
  {
    if low < level {
      PrefixZero(size, low, level - 1);
    }
  }

  /** A small chunk more, while the places above are taken, is at the next place of the edge. */
  lemma EdgeGrows(m: Memory, g: Trees, n: nat)
    requires Sound(m, g) && n < SMALL_CHUNKS && EdgeUsed(g.key, n)
    requires g.own.Keys == SmallChunks(n + 1) && SmallSizes(n + 1, m.size)
    ensures EdgeUsed(g.key, n + 1)
  {
    hide AllLinked, ChildLinks, ParentLinks, Indexed, Roots, Filed, AllBinned, Trie, InBin, TreeIndexOf, Prefix;
    SoundParts(m, g);
    OneMore(n);
    ChunkSize(m, g, SmallAt(n));
    SmallBinned(n);
    NotHigher(g.key, g.own[SmallAt(n)], n);
    EdgeReached(g.key, g.own[SmallAt(n)], n);
    HeadIsChunk(m, g, Edge(n));
    var x :| x in g.own && x in m.size && m.size[x] == g.key[Edge(n)];
    var j: nat :| j < n + 1 && x == SmallAt(j);
    if j < n {
      SameSizeSamePlace(g.key, Edge(j), Edge(n));
    }
  }

  lemma SameSizeSamePlace(key: map<Slot, nat>, s: Slot, t: Slot)
    requires Trie(key) && s in key && t in key && key[s] == key[t] && s.index == t.index
    ensures s == t
  {
  }

  lemma EdgeSize(key: map<Slot, nat>, n: nat, j: nat)
    requires EdgeUsed(key, n) && j < n
    ensures Edge(j) in key && key[Edge(j)] == SmallSize(j)
  {
  }

  lemma NotHigher(key: map<Slot, nat>, u: Slot, n: nat)
    requires Trie(key) && u in key && u.index == LAST_BIN && key[u] == SmallSize(n) && n < SMALL_CHUNKS
    requires EdgeUsed(key, n)
    ensures 0 <= u.level <= 64 - n && Prefix(SmallSize(n), u.level) == u.prefix
  {
    hide Prefix;
    assert OnPath(u, key[u]);
    if u.level > 64 - n {
      SmallBinned(n);
      PrefixBelow24(SmallSize(n), u.level);
      EdgeSize(key, n, 64 - u.level);
    }
  }

  lemma EdgeReached(key: map<Slot, nat>, u: Slot, n: nat)
    requires Trie(key) && u in key && u.index == LAST_BIN && n < SMALL_CHUNKS
    requires 0 <= u.level <= 64 - n && Prefix(SmallSize(n), u.level) == u.prefix
    ensures Edge(n) in key
  {
    hide Trie, Prefix;
    SmallBinned(n);
    PathUsed(key, u, SmallSize(n), 64 - n);
    PrefixBelow24(SmallSize(n), 64 - n);
  }

  // ---------------------------------------------------------------- the descent along the edge

  lemma {:induction false} NoneBelow(m: Memory, g: Trees, nb: nat, t: Slot)
    requires Sound(m, g) && InSubtree(g.key, Edge(SMALL_CHUNKS - 1), t) && t.level >= 0
    requires forall x <- g.own :: x in m.size && (m.size[x] < TWO_24 ==> m.size[x] < nb)
    ensures BestOnLeft(g.key, nb, Some(t)) == None
    decreases t.level
  {
    hide AllLinked, ChildLinks, ParentLinks, Indexed, Roots, Filed, AllBinned, Trie, Prefix;
    SoundParts(m, g);
    SameDomain(m, g);
    PrefixBelow24(g.key[t], 24);
    HeadIsChunk(m, g, t);
    var next := Leftmost(g.key, t);
    if next.Some? {
      KidBelow(g.key, t, if Kid(t, 0) in g.key then 0 else 1);
      SubtreeTrans(g.key, Edge(SMALL_CHUNKS - 1), t, next.value);
      UsedLevel(m, g, next.value);
      NoneBelow(m, g, nb, next.value);
    }
  }

  lemma {:induction false} NoneFrom(m: Memory, g: Trees, nb: nat, j: nat)
    requires Sound(m, g) && j < SMALL_CHUNKS && EdgeUsed(g.key, SMALL_CHUNKS)
    requires forall x <- g.own :: x in m.size && (m.size[x] < TWO_24 ==> m.size[x] < nb)
    requires TWO_24 <= nb
    ensures BestOnLeft(g.key, nb, Some(Edge(j))) == None
    decreases SMALL_CHUNKS - j
  {
    hide Sound;
    if j == SMALL_CHUNKS - 1 {
      SubtreeSelf(g.key, Edge(j)) by { SoundParts(m, g); }
      NoneBelow(m, g, nb, Edge(j));
    } else {
      NoneFrom(m, g, nb, j + 1);
      assert Leftmost(g.key, Edge(j)) == Some(Edge(j + 1));
      SmallBinned(j);
    }
  }

  /** With the large chunk below the edge, the descent from the root finds nothing. */
  lemma EdgeMisses(m: Memory, g: Trees, nb: nat)
    requires Sound(m, g) && EdgeUsed(g.key, SMALL_CHUNKS) && TWO_40 <= nb
    requires g.own.Keys == SmallChunks(SMALL_CHUNKS) + {LARGE_AT} && SmallSizes(SMALL_CHUNKS, m.size)
    requires LARGE_AT in m.size && TWO_40 <= m.size[LARGE_AT]
    ensures BestOnLeft(g.key, nb, Some(RootSlot(LAST_BIN))) == None
  {
    hide Sound, BestOnLeft;
    forall x <- g.own ensures x in m.size && (m.size[x] < TWO_24 ==> m.size[x] < nb) {
      assert x in SmallChunks(SMALL_CHUNKS) || x == LARGE_AT;
    }
    assert Edge(0) == RootSlot(LAST_BIN);
    NoneFrom(m, g, nb, 0);
  }

  lemma SmallAtNotNull(j: nat)
    ensures SmallAt(j) != NULL
  {
  }

  lemma EdgeKept(key: map<Slot, nat>, key': map<Slot, nat>, n: nat)
    requires EdgeUsed(key, n) && SameKeys(key, key')
    ensures EdgeUsed(key', n)
  {
  }

  // ---------------------------------------------------------------- the chunks

  lemma LargeFits(nb: nat)
    requires MIN_LARGE_SIZE <= nb < TWO_64 && !InBin(TreeIndexOf(nb), nb)
    ensures var large := LargeSizeFor(nb);
      && TWO_40 <= nb <= large && large <= TWO_64 - TWO_40 + LAST_MIN_SIZE && large % 8 == 0
      && InBin(TreeIndexOf(large), large)
  {
    hide TreeIndexOf, MinSize;
    LargerInLastBin(nb, LargeSizeFor(nb));
    IndexInBinIff(nb);
    Multiple(nb);
  }

  lemma Multiple(nb: nat)
    requires nb < TWO_64
    ensures var large := LargeSizeFor(nb); large <= TWO_64 - TWO_40 + LAST_MIN_SIZE && large % 8 == 0
  {
    assert nb == nb / TWO_40 * TWO_40 + nb % TWO_40;
  }

  /** No two chunks overlap or touch, and all are aligned and end below the end of the address space. */
  ghost predicate ApartInMemory(chunks: set<Addr>, size: map<Addr, nat>) {
    && (forall a <- chunks :: a in size && a % 8 == 0 && size[a] % 8 == 0 && a + size[a] < TWO_64)
    && (forall a <- chunks, b <- chunks | a < b && a in size :: a + size[a] < b)
  }

  lemma AllApart(chunks: set<Addr>, size: map<Addr, nat>, large: nat)
    requires chunks == SmallChunks(SMALL_CHUNKS) + {LARGE_AT} && SmallSizes(SMALL_CHUNKS, size)
    requires LARGE_AT in size && size[LARGE_AT] == large && large % 8 == 0 && large <= TWO_64 - TWO_40 + LAST_MIN_SIZE
    ensures ApartInMemory(chunks, size)
  {
    forall a <- chunks
      ensures a in size && a % 8 == 0 && size[a] % 8 == 0 && a + size[a] < TWO_64
      ensures a != LARGE_AT ==> a + size[a] < a + TWO_24 && a % TWO_24 == 0 && a < LARGE_AT
    {
      if a != LARGE_AT {
        var j: nat :| j < SMALL_CHUNKS && a == SmallAt(j);
      }
    }
  }
}
