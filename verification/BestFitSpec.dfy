/**
 * What the variables of the best-fit search stand for at each step.
 */
module BestFitSpec {
  import opened Collections
  import opened TreeIndex
  import opened TreeTrie
  import opened TreeLinks
  import opened TreeBinsSpec
  import opened TreeSearch
  import opened TreeRings

  /** Unsigned 64-bit subtraction. */
  function Minus(a: nat, b: nat): (d: nat)
    requires a < TWO_64 && b < TWO_64
    ensures d < TWO_64
  {
    if b <= a then a - b else TWO_64 + a - b
  }

  /** The pointer `t` is the first chunk of the given place. */
  ghost predicate At(m: Memory, g: Trees, t: Addr, ts: Option<Slot>) {
    match ts
    case None => t == NULL
    case Some(s) => s in g.ring && s in g.key && t == Head(g.ring, s) && t != NULL
  }

  /** `v` is the best fit so far, with `rsize` bytes to spare. */
  ghost predicate Best(m: Memory, g: Trees, nb: nat, v: Addr, vs: Slot, rsize: nat) {
    if v == NULL then nb <= TWO_64 && rsize == TWO_64 - nb
    else vs in g.key && vs in g.ring && v == Head(g.ring, vs) && nb <= g.key[vs] && rsize == g.key[vs] - nb
  }

  ghost predicate FitCover(g: Trees, nb: nat, rsize: nat, ts: Option<Slot>) {
    Cover(g.key, nb, rsize, ts) && (ts.Some? ==> AllFit(g.key, nb, ts.value))
  }

  ghost predicate Tracking(m: Memory, g: Trees, nb: nat, i: nat, s: Slot, t: Addr, k: nat) {
    && s in g.ring && s in g.key && t == Head(g.ring, s) && t in m.size && m.size[t] == g.key[s] && g.key[s] < TWO_64
    && s.index == i && 0 <= s.level <= 64 && s == Path(i, nb, s.level) && nb < TWO_64 && k == Key(nb, 64 - s.level)
    && t in m.child && t != NULL
  }

  lemma UsedIsTracked(m: Memory, g: Trees, nb: nat, i: nat, s: Slot, t: Addr, k: nat)
    requires Sound(m, g) && s in g.ring && t == Head(g.ring, s) && s.index == i && nb < TWO_64
    requires 0 <= s.level <= 64 && s == Path(i, nb, s.level) && k == Key(nb, 64 - s.level)
    ensures Tracking(m, g, nb, i, s, t, k)
  {
    hide Trie, AllLinked, ChildLinks, ParentLinks, Indexed, Roots, Key, Prefix, InBin, TreeIndexOf;
    UsedSize(m, g, s, t);
    KidsOf(m, g, s, t);
    assert Binned(s.index, g.key[s]);
  }

  lemma StartSearch(m: Memory, g: Trees, nb: nat, i: nat, k: nat)
    requires Sound(m, g) && 0 < nb && Binned(i, nb) && i < |m.treebins| && m.treebins[i] != NULL &&
      k == Key(nb, LeftShift(i))
    ensures Tracking(m, g, nb, i, RootSlot(i), m.treebins[i], k) && At(m, g, NULL, None)
    ensures Aside(g.key, nb, i, RootSlot(i).level, None)
    ensures PathCover(g.key, nb, i, TWO_64 - nb, Some(RootSlot(i)), None)
    ensures Best(m, g, nb, NULL, RootSlot(i), TWO_64 - nb)
  {
    hide Sound, PathCover, Tracking, Key, Prefix, InBin, TreeIndexOf, Head;
    SoundParts(m, g);
    EnterBin(m, g, i, nb);
    EnterPath(g.key, nb, i);
    UsedIsTracked(m, g, nb, i, RootSlot(i), m.treebins[i], k);
  }

  /** After looking at `t`, it is beaten, and the best fit is still right. */
  lemma Examine(m: Memory, g: Trees, nb: nat, v: Addr, vs: Slot, rsize: nat, t: Addr, s: Slot)
    requires s in g.ring && s in g.key && t == Head(g.ring, s) && t in m.size && m.size[t] == g.key[s] < TWO_64 &&
      t != NULL
    requires AllBinned(g.key) && 0 < nb < TWO_64 && Best(m, g, nb, v, vs, rsize)
    ensures if Minus(m.size[t], nb) < rsize
            then Best(m, g, nb, t, s, Minus(m.size[t], nb)) && Beaten(g.key, nb, Minus(m.size[t], nb), s)
            else Beaten(g.key, nb, rsize, s)
  {
    hide Head, Binned;
    if v != NULL {
      assert Binned(vs.index, g.key[vs]) && g.key[vs] < TWO_64 by { SizeBound(vs.index, g.key[vs]); }
    }
  }

  lemma SizeBound(i: nat, size: nat)
    requires Binned(i, size)
    ensures size < TWO_64
  {
  }

  lemma ExaminePath(g: Trees, nb: nat, i: nat, rsize: nat, here: Option<Slot>, rst: Option<Slot>, trem: nat)
    requires PathCover(g.key, nb, i, rsize, here, rst)
    ensures trem < rsize ==> PathCover(g.key, nb, i, trem, here, rst)
  {
    hide InSubtree;
  }

  lemma AtUsed(m: Memory, g: Trees, t: Addr, s: Slot)
    requires s in g.ring && s in g.key && t == Head(g.ring, s) && t != NULL
    ensures At(m, g, t, Some(s))
  {
  }

  /** What a step of the search along the path does to its variables. */
  lemma TrackStep(m: Memory, g: Trees, nb: nat, i: nat, s: Slot, t: Addr, k: nat, rst: Addr, rs: Option<Slot>,
      rsize: nat)
    requires Sound(m, g) && 0 < nb && Binned(i, nb) && s in g.key && Tracking(m, g, nb, i, s, t, k) && At(m, g, rst, rs)
    requires Aside(g.key, nb, i, s.level, rs) && PathCover(g.key, nb, i, rsize, Some(s), rs)
    requires Beaten(g.key, nb, rsize, s) && rsize > 0
    ensures s.level > 0 && BitAt(nb, s.level - 1) == if k >= TWO_63 then 1 else 0
    ensures Aside(g.key, nb, i, s.level - 1, Remembered(g.key, nb, s, rs))
    ensures var next := m.child[t].At(BitAt(nb, s.level - 1));
      && At(m, g, if m.child[t].right != NULL && m.child[t].right != next then m.child[t].right
        else rst, Remembered(g.key, nb, s, rs))
      && (next == NULL ==> PathCover(g.key, nb, i, rsize, None, Remembered(g.key, nb, s, rs)))
      && (next != NULL ==>
           && PathCover(g.key, nb, i, rsize, Some(Kid(s, BitAt(nb, s.level - 1))), Remembered(g.key, nb, s, rs))
           && Tracking(m, g, nb, i, Kid(s, BitAt(nb, s.level - 1)), next, ShiftLeft(k)))
  {
    hide Sound, Trie, Filed, AllBinned, AllLinked, ChildLinks, ParentLinks, Indexed, Roots, PathCover, Aside, Prefix,
      InSubtree, InBin, TreeIndexOf, Head, Tracking;
    SoundParts(m, g);
    TrackLevel(m, g, nb, i, s, t, k, rsize);
    PathStep(g.key, nb, i, rsize, s, rs);
    var bit := BitAt(nb, s.level - 1);
    KidsOf(m, g, s, t);
    KidHeads(m, g, s);
    if Kid(s, bit) in g.ring {
      UsedIsTracked(m, g, nb, i, Kid(s, bit), Head(g.ring, Kid(s, bit)), ShiftLeft(k));
    }
  }

  lemma TrackLevel(m: Memory, g: Trees, nb: nat, i: nat, s: Slot, t: Addr, k: nat, rsize: nat)
    requires Sound(m, g) && Tracking(m, g, nb, i, s, t, k) && s in g.key && Beaten(g.key, nb, rsize, s) && rsize > 0
    ensures s.index == i && s in g.ring && t == Head(g.ring, s) && nb < TWO_64 && t in m.child
    ensures 0 < s.level <= 64 && s == Path(i, nb, s.level) && BitAt(nb, s.level - 1) == if k >= TWO_63 then 1 else 0
    ensures Kid(s, BitAt(nb, s.level - 1)) == Path(i, nb, s.level - 1) && ShiftLeft(k) == Key(nb, 64 - (s.level - 1))
    ensures forall q :: q in g.ring <==> q in g.key
  {
    hide Filed, AllBinned, AllLinked, ChildLinks, ParentLinks, Indexed, Roots;
    SameDomain(m, g);
    assert OnPath(s, g.key[s]);
    assert s.level > 0;
    KeyTopBit(nb, 64 - s.level);
    PrefixStep(nb, s.level - 1);
  }

  lemma KidHeads(m: Memory, g: Trees, s: Slot)
    requires Filed(g.key, g.ring, m.size, g.own)
    ensures forall bit | bit in {0, 1} :: Kid(s, bit) in g.ring ==>
      Head(g.ring, Kid(s, bit)) != NULL && Kid(s, bit) in g.key
    ensures Kid(s, 0) in g.ring && Kid(s, 1) in g.ring ==> Head(g.ring, Kid(s, 0)) != Head(g.ring, Kid(s, 1))
  {
    HeadOwned(g.key, g.ring, m.size, g.own, Kid(s, 0));
    HeadOwned(g.key, g.ring, m.size, g.own, Kid(s, 1));
  }

  lemma EndOfPath(m: Memory, g: Trees, nb: nat, i: nat, rsize: nat, level: int, t: Addr, ts: Option<Slot>)
    requires Sound(m, g) && Binned(i, nb) && PathCover(g.key, nb, i, rsize, None, ts)
    requires Aside(g.key, nb, i, level, ts) && At(m, g, t, ts)
    ensures t == NULL ==> PathCover(g.key, nb, i, rsize, None, None)
    ensures t != NULL ==> FitCover(g, nb, rsize, ts)
  {
    hide Trie, Filed, AllBinned, AllLinked, ChildLinks, ParentLinks, Indexed, Roots, Binned, Head, PathCover, Aside,
      Cover, AllFit;
    if ts.Some? {
      TurnAside(g.key, nb, i, rsize, level, ts.value);
    }
  }

  /** What is known of the chunk a pointer is at. */
  lemma AtLevel(m: Memory, g: Trees, t: Addr, ts: Option<Slot>)
    requires Sound(m, g) && At(m, g, t, ts)
    ensures t == NULL <==> ts == None
    ensures ts.Some? ==>
      && ts.value.level >= 0 && ts.value in g.ring && ts.value in g.key && t == Head(g.ring, ts.value)
      && t in m.size && m.size[t] == g.key[ts.value] < TWO_64 && t in m.child
  {
    hide AllLinked, ChildLinks, ParentLinks, Indexed, Roots, InBin, TreeIndexOf, Prefix, Head;
    if ts.Some? {
      UsedLevel(m, g, ts.value);
      UsedSize(m, g, ts.value, t);
      KidsOf(m, g, ts.value, t);
      assert Binned(ts.value.index, g.key[ts.value]);
    }
  }

  lemma LeftmostNext(m: Memory, g: Trees, nb: nat, rsize: nat, trem: nat, t: Addr, s: Slot, binned: bool)
    requires Sound(m, g) && At(m, g, t, Some(s)) && s in g.key && t in m.child
    requires binned ==> rsize == 0 || FitCover(g, nb, rsize, Some(s))
    requires Beaten(g.key, nb, if trem < rsize then trem else rsize, s)
    ensures var r := if trem < rsize then trem else rsize;
      binned ==> r == 0 || FitCover(g, nb, r, Leftmost(g.key, s))
    ensures At(m, g, if m.child[t].left != NULL then m.child[t].left else m.child[t].right, Leftmost(g.key, s))
    ensures Leftmost(g.key, s).Some? ==> Leftmost(g.key, s).value.level < s.level
  {
    hide Sound, Trie, Filed, AllBinned, AllLinked, ChildLinks, ParentLinks, Indexed, Roots, Head, AllFit, Cover, Beaten;
    SoundParts(m, g);
    SameDomain(m, g);
    KidsOf(m, g, s, t);
    KidHeads(m, g, s);
    if binned && rsize > 0 {
      if trem < rsize {
        CoverShrinks(g, nb, rsize, trem, Some(s));
      }
      LeftmostStep(g.key, nb, if trem < rsize then trem else rsize, s);
    }
  }

  lemma CoverShrinks(g: Trees, nb: nat, rsize: nat, trem: nat, ts: Option<Slot>)
    requires Cover(g.key, nb, rsize, ts) && trem <= rsize
    ensures Cover(g.key, nb, trem, ts)
  {
    hide CoveredBy;
  }

  lemma NothingLeft(g: Trees, nb: nat, rsize: nat, ts: Option<Slot>)
    requires ts == None && (rsize == 0 || FitCover(g, nb, rsize, ts))
    ensures Cover(g.key, nb, rsize, None)
  {
  }

  lemma EmptyPath(m: Memory, g: Trees, nb: nat, i: nat, vs: Slot)
    requires Sound(m, g) && nb < TWO_64 && i < |m.treebins| == 32 && m.treebins[i] == NULL
    ensures PathCover(g.key, nb, i, TWO_64 - nb, None, None) && Best(m, g, nb, NULL, vs, TWO_64 - nb) &&
      At(m, g, NULL, None)
  {
    hide Sound, Trie, Filed, AllBinned, AllLinked, ChildLinks, ParentLinks, Indexed, Roots, Head, RootSlot, Binned;
    SoundParts(m, g);
    SameDomain(m, g);
    EnterBin(m, g, i, nb);
    forall u <- g.key ensures u.index != i {
      RootUsed(g.key, u);
    }
  }

  lemma MarkedBins(m: Memory, g: Trees)
    requires Sound(m, g)
    ensures |m.treebins| == 32 && forall i :: 0 <= i < 32 ==> (i in m.treemap <==> RootSlot(i) in g.ring)
    ensures forall i :: 0 <= i < 32 ==> m.treebins[i] == Head(g.ring, RootSlot(i))
  {
    hide Trie, Filed, AllBinned, AllLinked, ChildLinks, ParentLinks, Indexed, RootSlot;
  }

  lemma TakeNextBin(m: Memory, g: Trees, nb: nat, i: nat, rsize: nat, j: nat)
    requires Sound(m, g) && i < 32 && j == NextBin(m.treemap, i + 1)
    requires Binned(i, nb) ==> PathCover(g.key, nb, i, rsize, None, None)
    ensures j < 32 ==> |m.treebins| == 32 && At(m, g, m.treebins[j], Some(RootSlot(j)))
    ensures j < 32 && Binned(i, nb) ==> FitCover(g, nb, rsize, Some(RootSlot(j)))
    ensures j == 32 && Binned(i, nb) ==> FitCover(g, nb, rsize, None)
  {
    hide Sound, Trie, Filed, AllBinned, AllLinked, ChildLinks, ParentLinks, Indexed, Roots, Head, RootSlot, Binned,
      PathCover, AllFit, Cover, StartLevel, StartPrefix;
    SoundParts(m, g);
    SameDomain(m, g);
    MarkedBins(m, g);
    NoRootsBeyond(m, g);
    if j < 32 {
      HeadOwned(g.key, g.ring, m.size, g.own, RootSlot(j));
      if Binned(i, nb) {
        NextBinCovers(g.key, nb, i, rsize, j);
      }
    } else if Binned(i, nb) {
      NoMoreBins(g.key, nb, i, rsize);
    }
  }

  lemma NoRootsBeyond(m: Memory, g: Trees)
    requires Trie(g.key) && AllBinned(g.key) && Filed(g.key, g.ring, m.size, g.own)
    ensures forall k: nat :: 32 <= k ==> RootSlot(k) !in g.key
  {
    hide Filed, AllBinned, Trie;
    SameDomain(m, g);
    forall k: nat | 32 <= k ensures RootSlot(k) !in g.key {
      if RootSlot(k) in g.key {
        UsedLevel(m, g, RootSlot(k));
      }
    }
  }

  lemma KeepFound(m: Memory, g: Trees, nb: nat, i: nat, rsize: nat, v: Addr, vs: Slot)
    requires Sound(m, g) && Binned(i, nb) && PathCover(g.key, nb, i, rsize, None, None)
    requires v != NULL && Best(m, g, nb, v, vs, rsize) && vs.index == i
    ensures FitCover(g, nb, rsize, None) && At(m, g, NULL, None)
  {
    hide Trie, Filed, AllBinned, AllLinked, ChildLinks, ParentLinks, Indexed, Roots, Head, Binned, PathCover, Cover;
    FoundInBin(g.key, nb, i, rsize, vs);
  }

  lemma NullIsNowhere(m: Memory, g: Trees)
    ensures At(m, g, NULL, None)
  {
  }

  lemma BestFits(m: Memory, g: Trees, nb: nat, v: Addr, vs: Slot, rsize: nat)
    requires Sound(m, g) && Best(m, g, nb, v, vs, rsize)
    ensures v != NULL ==> v in g.own && v in m.size && nb <= m.size[v] < TWO_64 && rsize == m.size[v] - nb
    ensures v == NULL ==> rsize + nb == TWO_64
  {
    hide Trie, Filed, AllBinned, AllLinked, ChildLinks, ParentLinks, Indexed, Roots, Head, Binned;
    if v != NULL {
      UsedSize(m, g, vs, v);
      ChunkSize(m, g, v);
      SizeBound(g.own[v].index, m.size[v]);
    }
  }

  /** The chunk found is the first in the ring of its size. */
  lemma FirstFits(m: Memory, g: Trees, nb: nat, v: Addr, vs: Slot, rsize: nat)
    requires Sound(m, g) && Best(m, g, nb, v, vs, rsize) && v != NULL
    ensures v in m.size && FirstOfSize(g, v, m.size[v])
  {
    HeadIsFirstOfSize(m, g, vs, v);
    hide Trie, AllBinned, AllLinked, ChildLinks, ParentLinks, Indexed, Roots, FirstOfSize, Head;
    UsedSize(m, g, vs, v);
  }

  /** What the result of the search says about all filed chunks. */
  lemma FitForAll(m: Memory, g: Trees, nb: nat, v: Addr, vs: Slot, rsize: nat)
    requires Sound(m, g) && Best(m, g, nb, v, vs, rsize) && Cover(g.key, nb, rsize, None)
    ensures v != NULL ==> v in g.own && v in m.size && nb <= m.size[v] < TWO_64 && rsize == m.size[v] - nb
    ensures forall a <- g.own :: a in m.size && m.size[a] < TWO_64 && (nb <= m.size[a] ==> rsize <= m.size[a] - nb)
    ensures v == NULL ==> rsize + nb == TWO_64
  {
    hide Trie, Filed, AllBinned, AllLinked, ChildLinks, ParentLinks, Indexed, Roots, Head, Binned;
    if v != NULL {
      UsedSize(m, g, vs, v);
    }
    forall a <- g.own ensures a in m.size && m.size[a] < TWO_64 && (nb <= m.size[a] ==> rsize <= m.size[a] - nb) {
      ChunkSize(m, g, a);
      SizeBound(g.own[a].index, m.size[a]);
      assert Beaten(g.key, nb, rsize, g.own[a]);
    }
  }

  /** For a request below all filed sizes, the first bin in use holds the smallest chunk. */
  lemma TakeFirstBin(m: Memory, g: Trees, nb: nat, j: nat)
    requires Sound(m, g) && nb < MIN_LARGE_SIZE && j == NextBin(m.treemap, 0)
    ensures j < 32 ==>
      |m.treebins| == 32 && At(m, g, m.treebins[j], Some(RootSlot(j))) &&
        FitCover(g, nb, TWO_64 - nb, Some(RootSlot(j)))
    ensures j == 32 ==> g.own.Keys == {}
  {
    hide Sound, Trie, Filed, AllBinned, AllLinked, ChildLinks, ParentLinks, Indexed, Roots, Head, RootSlot, Binned,
      StartLevel, StartPrefix, InSubtree;
    SoundParts(m, g);
    SameDomain(m, g);
    MarkedBins(m, g);
    NoRootsBeyond(m, g);
    if j < 32 {
      HeadOwned(g.key, g.ring, m.size, g.own, RootSlot(j));
      var r := RootSlot(j);
      RootIndex(j);
      forall u <- g.key ensures CoveredBy(g.key, r, u) && nb <= g.key[u] {
        BelowRoot(g.key, u);
        RootUsed(g.key, u);
        LargeSize(g, u);
        if u.index > j {
          LaterBin(g.key, r, u);
        }
      }
    } else {
      forall a <- g.own ensures false {
        ChunkSize(m, g, a);
        RootUsed(g.key, g.own[a]);
      }
    }
  }

  lemma LargeSize(g: Trees, u: Slot)
    requires AllBinned(g.key) && u in g.key
    ensures MIN_LARGE_SIZE <= g.key[u]
  {
    assert Binned(u.index, g.key[u]);
    MinSizeMonotone(0, u.index);
    assert MinSize(0) == MIN_LARGE_SIZE by { Pow2Values(); }
  }

  // ---------------------------------------------------------------- sizes

  /** Chunks that are not filed may change their size. */
  lemma ResizeKeeps(m: Memory, g: Trees, size': map<Addr, nat>)
    requires Sound(m, g)
    requires forall a <- g.own | a in m.size :: a in size' && size'[a] == m.size[a]
    ensures Sound(m.(size := size'), g)
  {
    hide Trie, AllBinned, AllLinked, ChildLinks, ParentLinks, Indexed, Roots, Distinct;
    forall s <- g.ring ensures RingOf(s, g.ring[s], g.key[s], size', g.own) {
      assert RingOf(s, g.ring[s], g.key[s], m.size, g.own);
    }
  }

  lemma MarkedAreBins(m: Memory, g: Trees)
    requires Sound(m, g)
    ensures |m.treebins| == 32 && forall i <- m.treemap :: i < 32
  {
  }

  lemma NothingYet(m: Memory, g: Trees, nb: nat, vs: Slot)
    requires nb <= TWO_64
    ensures Best(m, g, nb, NULL, vs, TWO_64 - nb)
  {
  }

  lemma AllLarge(m: Memory, g: Trees)
    requires Sound(m, g)
    ensures forall a <- g.own :: a in m.size && MIN_LARGE_SIZE <= m.size[a]
  {
    hide Sound, Binned, Filed;
    SoundParts(m, g);
    forall a <- g.own ensures a in m.size && MIN_LARGE_SIZE <= m.size[a] {
      ChunkSize(m, g, a);
      LargeSize(g, g.own[a]);
    }
  }

  // ---------------------------------------------------------------- a search that may be in the wrong bin

  /** The pointer `t` is the first chunk of place `s`. */
  ghost predicate AtPlace(m: Memory, g: Trees, s: Slot, t: Addr) {
    && s in g.ring && s in g.key && t == Head(g.ring, s) && t != NULL && s.level >= 0
    && t in m.size && m.size[t] == g.key[s] < TWO_64 && t in m.child
  }

  /** The descent of `size` is at place `p`, its key shifted as far. */
  ghost predicate OnPathDown(key: map<Slot, nat>, p: Slot, size: nat, i: nat, k: nat) {
    && 0 <= p.level <= 64 && p == Path(i, size, p.level) && NotAbove(key, size, i, p.level)
    && size < TWO_64 && k == Key(size, 64 - p.level)
  }

  lemma StepOnPath(m: Memory, g: Trees, p: Slot, t: Addr, size: nat, i: nat, k: nat)
    requires Sound(m, g) && AtPlace(m, g, p, t) && OnPathDown(g.key, p, size, i, k)
    ensures var bit := if k >= TWO_63 then 1 else 0;
      size != m.size[t] ==>
        && p.level > 0 && bit == BitAt(size, p.level - 1) && NotAbove(g.key, size, i, p.level - 1)
        && OnPathDown(g.key, Kid(p, bit), size, i, ShiftLeft(k))
  {
    hide Sound, NotAbove, Prefix, BitAt, Head;
    StepDown(m, g, p, t, size, i);
    if p.level > 0 {
      KeyTopBit(size, 64 - p.level);
    }
  }

  /** Where the request is in its own bin, the search covers the bin. */
  ghost predicate Searching(m: Memory, g: Trees, nb: nat, i: nat, s: Slot, t: Addr, k: nat, rs: Option<Slot>,
      rsize: nat)
    requires s in g.key
  {
    Binned(i, nb) ==>
      && Tracking(m, g, nb, i, s, t, k) && Aside(g.key, nb, i, s.level, rs)
      && PathCover(g.key, nb, i, rsize, Some(s), rs)
  }

  /** The right subtree to come back to after a step to the child at `bit`. */
  ghost function LeftAside(key: map<Slot, nat>, s: Slot, bit: nat, rs: Option<Slot>): Option<Slot> {
    if bit == 0 && Kid(s, 1) in key then Some(Kid(s, 1)) else rs
  }

  lemma EnterTree(m: Memory, g: Trees, nb: nat, i: nat, k: nat)
    requires Sound(m, g) && 0 < nb < TWO_64 && i <= LAST_BIN && i < |m.treebins| && m.treebins[i] != NULL &&
      k == Key(nb, LeftShift(i))
    ensures AtPlace(m, g, RootSlot(i), m.treebins[i]) && At(m, g, NULL, None)
    ensures Searching(m, g, nb, i, RootSlot(i), m.treebins[i], k, None, TWO_64 - nb)
    ensures Best(m, g, nb, NULL, RootSlot(i), TWO_64 - nb)
  {
    hide Sound, PathCover, Tracking, Key, Prefix, InBin, TreeIndexOf, Head, Binned, Filed;
    SoundParts(m, g);
    EnterBin(m, g, i, nb);
    SameDomain(m, g);
    AtLevel(m, g, m.treebins[i], Some(RootSlot(i)));
    if Binned(i, nb) {
      StartSearch(m, g, nb, i, k);
    }
  }

  lemma DescendStep(m: Memory, g: Trees, s: Slot, t: Addr, bit: nat, rst: Addr, rs: Option<Slot>)
    requires Sound(m, g) && AtPlace(m, g, s, t) && At(m, g, rst, rs) && bit < 2
    ensures var next := m.child[t].At(bit);
      && At(m, g, if m.child[t].right != NULL && m.child[t].right != next then m.child[t].right
        else rst, LeftAside(g.key, s, bit, rs))
      && (next != NULL ==> AtPlace(m, g, Kid(s, bit), next))
      && (next == Head(g.ring, Kid(s, bit))) && (next != NULL <==> Kid(s, bit) in g.ring)
  {
    hide Sound, Trie, Filed, AllBinned, AllLinked, ChildLinks, ParentLinks, Indexed, Roots, Head;
    SoundParts(m, g);
    SameDomain(m, g);
    KidsOf(m, g, s, t);
    KidHeads(m, g, s);
    var next := m.child[t].At(bit);
    if next != NULL {
      AtLevel(m, g, next, Some(Kid(s, bit)));
    }
  }

  lemma StepSearching(m: Memory, g: Trees, nb: nat, i: nat, s: Slot, t: Addr, k: nat, rst: Addr, rs: Option<Slot>,
      rsize: nat, bit: nat)
    requires Sound(m, g) && 0 < nb < TWO_64 && AtPlace(m, g, s, t) && At(m, g, rst, rs) && k < TWO_64 && rsize > 0
    requires Searching(m, g, nb, i, s, t, k, rs, rsize) && Beaten(g.key, nb, rsize, s)
    requires bit == if k >= TWO_63 then 1 else 0
    ensures m.child[t].At(bit) != NULL ==> Kid(s, bit) in g.key
    ensures m.child[t].At(bit) != NULL ==>
      Searching(m, g, nb, i, Kid(s, bit), m.child[t].At(bit), ShiftLeft(k), LeftAside(g.key, s, bit, rs), rsize)
    ensures m.child[t].At(bit) == NULL && Binned(i, nb) ==>
      && PathCover(g.key, nb, i, rsize, None, LeftAside(g.key, s, bit, rs))
      && Aside(g.key, nb, i, s.level - 1, LeftAside(g.key, s, bit, rs))
  {
    hide Sound, PathCover, Aside, Tracking, Binned, Head, BitAt;
    DescendStep(m, g, s, t, bit, rst, rs);
    if Binned(i, nb) {
      TrackStep(m, g, nb, i, s, t, k, rst, rs, rsize);
      assert Remembered(g.key, nb, s, rs) == LeftAside(g.key, s, bit, rs);
    }
  }

  lemma ExamineSearching(m: Memory, g: Trees, nb: nat, i: nat, s: Slot, t: Addr, k: nat, rs: Option<Slot>,
      rsize: nat, trem: nat)
    requires s in g.key && Searching(m, g, nb, i, s, t, k, rs, rsize)
    ensures trem < rsize ==> Searching(m, g, nb, i, s, t, k, rs, trem)
  {
    hide PathCover, Tracking, Aside, Binned;
    if Binned(i, nb) {
      ExaminePath(g, nb, i, rsize, Some(s), rs, trem);
    }
  }

  lemma AsideIndex(key: map<Slot, nat>, s: Slot, bit: nat, rs: Option<Slot>)
    ensures var left := LeftAside(key, s, bit, rs); left.Some? ==> left == rs || left.value.index == s.index
  {
  }

  lemma LeftmostIndex(key: map<Slot, nat>, s: Slot)
    ensures Leftmost(key, s).Some? ==> Leftmost(key, s).value.index == s.index
  {
  }

  // ---------------------------------------------------------------- requests that their index is wrong for

  /** Only the last bin has chunks for such a request. */
  lemma MisfiledFit(m: Memory, g: Trees, nb: nat, v: Addr, vs: Slot, rsize: nat)
    requires Sound(m, g) && Best(m, g, nb, v, vs, rsize) && v != NULL && MIN_LARGE_SIZE <= nb
    requires !InBin(TreeIndexOf(nb), nb)
    ensures vs.index == LAST_BIN > TreeIndexOf(nb)
  {
    hide Trie, Filed, AllLinked, ChildLinks, ParentLinks, Indexed, Roots, Head, TreeIndexOf, InBin, MinSize;
    SoundParts(m, g);
    UsedSize(m, g, vs, v);
    assert Binned(vs.index, g.key[vs]);
    OnlyLastBin(nb, vs.index, g.key[vs]);
  }

  lemma OnlyLastBin(nb: nat, i: nat, size: nat)
    requires MIN_LARGE_SIZE <= nb <= size && !InBin(TreeIndexOf(nb), nb) && InBin(i, size)
    ensures i == LAST_BIN > TreeIndexOf(nb)
  {
    hide TreeIndexOf, MinSize;
    IndexInBinIff(nb);
    IndexBound(nb);
    LastMinSize();
    if i < LAST_BIN {
      MinSizeMonotone(i + 1, LAST_BIN);
    }
  }

  lemma LargerInLastBin(nb: nat, large: nat)
    requires MIN_LARGE_SIZE <= nb < TWO_64 && !InBin(TreeIndexOf(nb), nb) && large == nb - nb % TWO_40 + LAST_MIN_SIZE
    ensures nb <= large < TWO_64 && InBin(TreeIndexOf(large), large) && InBin(LAST_BIN, large)
  {
    hide TreeIndexOf, MinSize;
    NewRemainder(nb, large, LAST_MIN_SIZE);
    IndexInBinIff(nb);
    IndexInBinIff(large);
    LastMinSize();
  }

  lemma NewRemainder(nb: nat, large: nat, r: nat)
    requires nb < TWO_64 && r < TWO_40 && large == nb - nb % TWO_40 + r
    ensures large % TWO_40 == r && large < TWO_64
  {
    assert nb == nb / TWO_40 * TWO_40 + nb % TWO_40;
  }

  /** The right subtree that the path of `nb` leaves aside last, from `s` on. */
  ghost function LastAside(key: map<Slot, nat>, nb: nat, s: Slot, rs: Option<Slot>): Option<Slot>
    decreases if s.level > 0 then s.level else 0
  {
    if s !in key || s.level <= 0 then rs else
    var bit := BitAt(nb, s.level - 1);
    LastAside(key, nb, Kid(s, bit), LeftAside(key, s, bit, rs))
  }

  /** The smallest size that fits of those that a leftmost descent from `t` passes. */
  ghost function BestOnLeft(key: map<Slot, nat>, nb: nat, t: Option<Slot>): (best: Option<nat>)
    ensures best.Some? ==> nb <= best.value
    decreases if t.Some? then t.value.level + 1 else 0
  {
    if t == None || t.value !in key || t.value.level < 0 then None else
    var k, below := key[t.value], BestOnLeft(key, nb, Leftmost(key, t.value));
    if nb <= k && (below == None || k <= below.value) then Some(k) else below
  }

  /** The search for `nb`, whose bin has no chunk that fits, goes on to the last bin. */
  ghost predicate GetsToLastBin(key: map<Slot, nat>, treemap: set<nat>, nb: nat, i: nat) {
    i < LAST_BIN && LastAside(key, nb, RootSlot(i), None) == None && NextBin(treemap, i + 1) == LAST_BIN
  }

  /** What is left over by the better one of a fit with `r` bytes left over and a size that fits. */
  ghost function Spare(nb: nat, r: nat, size: Option<nat>): nat {
    if size.Some? && nb <= size.value < nb + r then size.value - nb else r
  }

  lemma SpareOn(g: Trees, nb: nat, r: nat, t: Slot)
    requires t in g.key && t.level >= 0 && g.key[t] < TWO_64 && nb < TWO_64 && r <= TWO_64 - nb
    ensures var r' := if Minus(g.key[t], nb) < r then Minus(g.key[t], nb) else r;
      Spare(nb, r, BestOnLeft(g.key, nb, Some(t))) == Spare(nb, r', BestOnLeft(g.key, nb, Leftmost(g.key, t)))
  {
  }

  lemma NothingOnLeft(g: Trees, nb: nat, r: nat)
    ensures Spare(nb, r, BestOnLeft(g.key, nb, None)) == r
  {
  }

  lemma NoneAside(m: Memory, g: Trees, nb: nat, i: nat)
    requires Sound(m, g) && RootSlot(i) !in g.ring
    ensures LastAside(g.key, nb, RootSlot(i), None) == None
  {
    hide Trie, AllBinned, AllLinked, ChildLinks, ParentLinks, Indexed, Roots;
    SameDomain(m, g);
  }

  lemma BestSpare(m: Memory, g: Trees, nb: nat, v: Addr, vs: Slot, rsize: nat)
    requires Sound(m, g) && Best(m, g, nb, v, vs, rsize) && nb < TWO_64
    ensures rsize <= TWO_64 - nb && (v == NULL <==> rsize == TWO_64 - nb)
  {
    hide Trie, Filed, AllLinked, ChildLinks, ParentLinks, Indexed, Roots, Head, TreeIndexOf, InBin;
    if v != NULL {
      assert Binned(vs.index, g.key[vs]);
    }
  }

  lemma AtNull(m: Memory, g: Trees, t: Addr, ts: Option<Slot>)
    requires At(m, g, t, ts)
    ensures t == NULL <==> ts == None
  {
  }

  /** For a request that its index is wrong for, what the leftmost descent of the last bin finds decides. */
  lemma SettleMisfiled(m: Memory, g: Trees, nb: nat, i: nat, v0: Addr, vs0: Slot, r0: nat, ts: Option<Slot>, v: Addr,
      vs: Slot, rsize: nat)
    requires Sound(m, g) && MIN_LARGE_SIZE <= nb < TWO_64 && i == TreeIndexOf(nb) < 32 && !InBin(i, nb)
    requires Best(m, g, nb, v0, vs0, r0) && (v0 != NULL ==> vs0.index == i)
    requires Best(m, g, nb, v, vs, rsize) && ((v == v0 && vs == vs0) || (ts.Some? && vs.index == ts.value.index))
    requires ts.Some? ==> ts.value.index == i || ts.value == RootSlot(NextBin(m.treemap, i + 1))
    requires v0 == NULL ==>
      (GetsToLastBin(g.key, m.treemap, nb, i) <==> ts == Some(RootSlot(LAST_BIN)) && i < LAST_BIN)
    requires rsize == Spare(nb, r0, BestOnLeft(g.key, nb, ts))
    ensures var best := BestOnLeft(g.key, nb, Some(RootSlot(LAST_BIN)));
      && i < LAST_BIN
      && (v != NULL <==> GetsToLastBin(g.key, m.treemap, nb, i) && best.Some?)
      && (v != NULL ==> best == Some(rsize + nb))
  {
    hide Sound, Best, InBin, TreeIndexOf, BestOnLeft, GetsToLastBin, StartLevel, StartPrefix;
    MisfiledBelowLast(nb);
    BestSpare(m, g, nb, v, vs, rsize);
    BestSpare(m, g, nb, v0, vs0, r0);
    if v0 != NULL {
      MisfiledFit(m, g, nb, v0, vs0, r0);
    }
    if v != NULL {
      MisfiledFit(m, g, nb, v, vs, rsize);
    } else {
      BestIsBelow(m, g, nb, Some(RootSlot(LAST_BIN)));
    }
  }

  lemma MisfiledBelowLast(nb: nat)
    requires MIN_LARGE_SIZE <= nb && !InBin(TreeIndexOf(nb), nb)
    ensures TreeIndexOf(nb) < LAST_BIN
  {
    hide TreeIndexOf, MinSize;
    IndexInBinIff(nb);
    IndexBound(nb);
    LastMinSize();
  }

  lemma {:induction false} BestIsBelow(m: Memory, g: Trees, nb: nat, t: Option<Slot>)
    requires Sound(m, g)
    ensures BestOnLeft(g.key, nb, t).Some? ==> BestOnLeft(g.key, nb, t).value < TWO_64
    decreases if t.Some? then t.value.level + 1 else 0
  {
    hide Trie, Filed, AllLinked, ChildLinks, ParentLinks, Indexed, Roots, TreeIndexOf, InBin, Leftmost;
    if t.Some? && t.value in g.key && t.value.level >= 0 {
      assert Binned(t.value.index, g.key[t.value]);
      LeftmostLower(g.key, t.value);
      BestIsBelow(m, g, nb, Leftmost(g.key, t.value));
    }
  }

  lemma LeftmostLower(key: map<Slot, nat>, s: Slot)
    ensures Leftmost(key, s).Some? ==> Leftmost(key, s).value.level == s.level - 1
  {
  }

  /** Where the search along the path is, by the bits of the request. */
  ghost predicate Turning(key: map<Slot, nat>, nb: nat, i: nat, s: Slot, k: nat, rs: Option<Slot>) {
    && nb < TWO_64 && 0 <= s.level <= 64 && k == Key(nb, 64 - s.level)
    && LastAside(key, nb, s, rs) == LastAside(key, nb, RootSlot(i), None)
  }

  lemma StartTurning(key: map<Slot, nat>, nb: nat, i: nat)
    requires nb < TWO_64 && i <= LAST_BIN
    ensures Turning(key, nb, i, RootSlot(i), Key(nb, LeftShift(i)), None)
  {
  }

  lemma KeepTurning(m: Memory, g: Trees, nb: nat, i: nat, s: Slot, t: Addr, k: nat, rs: Option<Slot>, bit: nat)
    requires Sound(m, g) && AtPlace(m, g, s, t) && Turning(g.key, nb, i, s, k, rs) && k < TWO_64
    requires bit == if k >= TWO_63 then 1 else 0
    ensures Kid(s, bit) in g.ring ==> Turning(g.key, nb, i, Kid(s, bit), ShiftLeft(k), LeftAside(g.key, s, bit, rs))
    ensures Kid(s, bit) !in g.ring ==> LeftAside(g.key, s, bit, rs) == LastAside(g.key, nb, RootSlot(i), None)
  {
    hide AllBinned, AllLinked, ChildLinks, ParentLinks, Indexed, Roots, Trie, Filed, BitAt, Prefix, Head, LastAside;
    SoundParts(m, g);
    SameDomain(m, g);
    if s.level > 0 {
      KeyTopBit(nb, 64 - s.level);
      AsideOn(g.key, nb, s, rs);
      AsideEnds(g.key, nb, Kid(s, bit), LeftAside(g.key, s, bit, rs));
    } else {
      NothingUnder(m, g, s, bit);
      NothingUnder(m, g, s, 1);
      AsideEnds(g.key, nb, s, rs);
    }
  }

  lemma AsideOn(key: map<Slot, nat>, nb: nat, s: Slot, rs: Option<Slot>)
    requires s in key && s.level > 0
    ensures var bit := BitAt(nb, s.level - 1);
      LastAside(key, nb, s, rs) == LastAside(key, nb, Kid(s, bit), LeftAside(key, s, bit, rs))
  {
  }

  lemma AsideEnds(key: map<Slot, nat>, nb: nat, s: Slot, rs: Option<Slot>)
    ensures s !in key || s.level <= 0 ==> LastAside(key, nb, s, rs) == rs
  {
  }

  lemma NothingUnder(m: Memory, g: Trees, s: Slot, bit: nat)
    requires Trie(g.key) && AllBinned(g.key) && Filed(g.key, g.ring, m.size, g.own) && s.level <= 0
    ensures Kid(s, bit) !in g.ring
  {
    hide Trie, AllBinned, Filed;
    if Kid(s, bit) in g.ring {
      UsedLevel(m, g, Kid(s, bit));
    }
  }

  lemma {:induction false} BelowPrefix(size: nat, level: nat, k: nat)
    requires Prefix(size, level) < Pow2(k)
    ensures size < Pow2(level + k)
    decreases level
  {
    if level > 0 {
      BelowPrefix(size, level - 1, k + 1);
    }
  }

  /** The size at a used place is that of a filed chunk. */
  lemma HeadIsChunk(m: Memory, g: Trees, s: Slot)
    requires Sound(m, g) && s in g.key
    ensures exists x <- g.own :: x in m.size && m.size[x] == g.key[s]
  {
    hide AllLinked, ChildLinks, ParentLinks, Indexed, Roots, AllBinned, Trie;
    SameDomain(m, g);
    UsedSize(m, g, s, Head(g.ring, s));
    assert Head(g.ring, s) in g.own;
  }

  lemma OneBin(i: nat, j: nat, size: nat)
    requires InBin(i, size) && InBin(j, size)
    ensures i == j
  {
    if i < j {
      MinSizeMonotone(i + 1, j);
    } else if j < i {
      MinSizeMonotone(j + 1, i);
    }
  }
}
