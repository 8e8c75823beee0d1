/**
 * The search for the best fitting size: which places are still to be looked at,
 * on the path of the requested size, in the deepest right subtree that the path
 * left aside, and in the leftmost descent from there.
 */
module TreeSearch {
  import opened Collections
  import opened TreeIndex
  import opened TreeTrie

  /** The size at `u` fits no better than the best found so far. */
  predicate Beaten(key: map<Slot, nat>, nb: nat, rsize: nat, u: Slot)
    requires u in key
  {
    nb <= key[u] ==> rsize <= key[u] - nb
  }

  /** The best fit of the subtree at `t` is at least as good as `u`. */
  predicate CoveredBy(key: map<Slot, nat>, t: Slot, u: Slot)
    requires u in key
  {
    t in key && (InSubtree(key, t, u) || key[t] <= key[u])
  }

  /** All sizes below `t` fit. */
  ghost predicate AllFit(key: map<Slot, nat>, nb: nat, t: Slot) {
    forall u <- key :: InSubtree(key, t, u) ==> nb <= key[u]
  }

  // ---------------------------------------------------------------- the path of the requested size

  /** What is not yet beaten in bin `i` is below `here` or not better than what is below `rst`. */
  ghost predicate PathCover(key: map<Slot, nat>, nb: nat, i: nat, rsize: nat, here: Option<Slot>, rst: Option<Slot>) {
    forall u <- key | u.index == i ::
      || Beaten(key, nb, rsize, u)
      || (here.Some? && InSubtree(key, here.value, u))
      || (rst.Some? && CoveredBy(key, rst.value, u))
  }

  /** A subtree to the right of the path that has been left aside at or above `level`. */
  ghost predicate Aside(key: map<Slot, nat>, nb: nat, i: nat, level: int, rst: Option<Slot>) {
    rst.Some? ==>
      && rst.value in key && rst.value.index == i && 0 <= rst.value.level && level <= rst.value.level
      && rst.value.prefix == Prefix(nb, rst.value.level) + 1
  }

  lemma EnterPath(key: map<Slot, nat>, nb: nat, i: nat)
    requires Trie(key) && AllBinned(key) && nb < TWO_64
    ensures PathCover(key, nb, i, TWO_64 - nb, Some(RootSlot(i)), None)
  {
    forall u <- key | u.index == i ensures InSubtree(key, RootSlot(i), u) {
      BelowRoot(key, u);
    }
  }

  lemma BelowRoot(key: map<Slot, nat>, u: Slot)
    requires Trie(key) && AllBinned(key) && u in key
    ensures InSubtree(key, RootSlot(u.index), u)
  {
    hide InBin, TreeIndexOf;
    BinPrefix(u.index, key[u]);
    assert OnPath(u, key[u]);
  }

  /** Where the path goes on from `s`, and the right subtree to remember. */
  function Onward(key: map<Slot, nat>, nb: nat, s: Slot): Option<Slot>
    requires s.level > 0
  {
    var next := Kid(s, BitAt(nb, s.level - 1));
    if next in key then Some(next) else None
  }

  function Remembered(key: map<Slot, nat>, nb: nat, s: Slot, rst: Option<Slot>): Option<Slot>
    requires s.level > 0
  {
    if BitAt(nb, s.level - 1) == 0 && Kid(s, 1) in key then Some(Kid(s, 1)) else rst
  }

  /** Everything below the new right subtree is smaller than everything below the old one. */
  lemma DeeperIsSmaller(key: map<Slot, nat>, nb: nat, i: nat, s: Slot, q: Slot, rs: Slot, u: Slot)
    requires Trie(key) && s.index == i && s.level > 0 && s == Path(i, nb, s.level)
    requires Aside(key, nb, i, s.level, Some(rs)) && InSubtree(key, s, q) && u in key && CoveredBy(key, rs, u)
    ensures key[q] < key[u]
  {
    AsideIsGreater(key, nb, i, s, q, rs, rs);
    if InSubtree(key, rs, u) {
      AsideIsGreater(key, nb, i, s, q, rs, u);
    }
  }

  lemma AsideIsGreater(key: map<Slot, nat>, nb: nat, i: nat, s: Slot, q: Slot, rs: Slot, u: Slot)
    requires Trie(key) && s.index == i && s.level > 0 && s == Path(i, nb, s.level)
    requires Aside(key, nb, i, s.level, Some(rs)) && InSubtree(key, s, q) && (u == rs || InSubtree(key, rs, u))
    ensures key[q] < key[u]
  {
    assert OnPath(rs, key[rs]);
    PrefixUp(nb, s.level, rs.level);
    PrefixUp(key[q], s.level, rs.level);
    PrefixOrder(key[q], key[u], rs.level);
  }

  /** One step along the path, from a place whose own size is beaten. */
  lemma PathStep(key: map<Slot, nat>, nb: nat, i: nat, rsize: nat, s: Slot, rst: Option<Slot>)
    requires Trie(key) && s in key && s.index == i && s.level > 0 && s == Path(i, nb, s.level)
    requires Aside(key, nb, i, s.level, rst) && PathCover(key, nb, i, rsize, Some(s), rst) && Beaten(key, nb, rsize, s)
    ensures PathCover(key, nb, i, rsize, Onward(key, nb, s), Remembered(key, nb, s, rst))
    ensures Aside(key, nb, i, s.level - 1, Remembered(key, nb, s, rst))
  {
    StepAside(key, nb, i, s, rst);
    forall u <- key | u.index == i
      ensures || Beaten(key, nb, rsize, u)
              || (Onward(key, nb, s).Some? && InSubtree(key, Onward(key, nb, s).value, u))
              || (Remembered(key, nb, s, rst).Some? && CoveredBy(key, Remembered(key, nb, s, rst).value, u))
    {
      if InSubtree(key, s, u) && u != s {
        StepBelow(key, nb, rsize, s, rst, u);
      } else if rst.Some? && CoveredBy(key, rst.value, u) && BitAt(nb, s.level - 1) == 0 && Kid(s, 1) in key {
        KidBelow(key, s, 1);
        DeeperIsSmaller(key, nb, i, s, Kid(s, 1), rst.value, u);
      }
    }
  }

  lemma StepAside(key: map<Slot, nat>, nb: nat, i: nat, s: Slot, rst: Option<Slot>)
    requires Trie(key) && s in key && s.index == i && s.level > 0 && s == Path(i, nb, s.level)
    requires Aside(key, nb, i, s.level, rst)
    ensures Aside(key, nb, i, s.level - 1, Remembered(key, nb, s, rst))
  {
    PrefixStep(nb, s.level - 1);
  }

  lemma StepBelow(key: map<Slot, nat>, nb: nat, rsize: nat, s: Slot, rst: Option<Slot>, u: Slot)
    requires Trie(key) && s in key && s.level > 0 && s == Path(s.index, nb, s.level)
    requires InSubtree(key, s, u) && u != s
    ensures || Beaten(key, nb, rsize, u)
            || (Onward(key, nb, s).Some? && InSubtree(key, Onward(key, nb, s).value, u))
            || (Remembered(key, nb, s, rst).Some? && CoveredBy(key, Remembered(key, nb, s, rst).value, u))
  {
    var l := s.level - 1;
    SubtreeSplit(key, s, u);
    if BitAt(key[u], l) != BitAt(nb, l) && BitAt(nb, l) == 1 {
      PrefixStep(nb, l);
      PrefixStep(key[u], l);
      PrefixOrder(key[u], nb, l);
    }
  }

  // ---------------------------------------------------------------- the leftmost descent

  /** What is not yet beaten is not better than what is below `t`. */
  ghost predicate Cover(key: map<Slot, nat>, nb: nat, rsize: nat, t: Option<Slot>) {
    forall u <- key :: Beaten(key, nb, rsize, u) || (t.Some? && CoveredBy(key, t.value, u))
  }

  function Leftmost(key: map<Slot, nat>, t: Slot): Option<Slot> {
    if Kid(t, 0) in key then Some(Kid(t, 0)) else if Kid(t, 1) in key then Some(Kid(t, 1)) else None
  }

  lemma LeftmostStep(key: map<Slot, nat>, nb: nat, rsize: nat, t: Slot)
    requires Trie(key) && t in key && AllFit(key, nb, t) && Cover(key, nb, rsize, Some(t)) && Beaten(key, nb, rsize, t)
    ensures Cover(key, nb, rsize, Leftmost(key, t))
    ensures Leftmost(key, t).Some? ==> AllFit(key, nb, Leftmost(key, t).value)
  {
    SubtreeSelf(key, t);
    forall u <- key ensures Beaten(key, nb, rsize, u) || (Leftmost(key, t).Some? &&
      CoveredBy(key, Leftmost(key, t).value, u)) {
      if !Beaten(key, nb, rsize, u) && InSubtree(key, t, u) && u != t {
        LeftmostCovers(key, t, u);
      }
    }
    if Leftmost(key, t).Some? {
      var k := Leftmost(key, t).value;
      KidBelow(key, t, if Kid(t, 0) in key then 0 else 1);
      forall u <- key | InSubtree(key, k, u) ensures nb <= key[u] {
        SubtreeTrans(key, t, k, u);
      }
    }
  }

  lemma LeftmostCovers(key: map<Slot, nat>, t: Slot, u: Slot)
    requires Trie(key) && t in key && InSubtree(key, t, u) && u != t
    ensures Leftmost(key, t).Some? && CoveredBy(key, Leftmost(key, t).value, u)
  {
    SubtreeSplit(key, t, u);
    if Kid(t, 0) in key && BitAt(key[u], t.level - 1) == 1 {
      SubtreeSelf(key, Kid(t, 0));
      LeftBelowRight(key, t, Kid(t, 0), u);
    }
  }

  // ---------------------------------------------------------------- between the two

  /** The first bin after `i` that is in use, or 32. */
  function NextBin(treemap: set<nat>, i: nat): (j: nat)
    requires i <= 32
    ensures i <= j <= 32 && (j < 32 ==> j in treemap)
    ensures forall k :: i <= k < j ==> k !in treemap
    decreases 32 - i
  {
    if i == 32 || i in treemap then i else NextBin(treemap, i + 1)
  }

  lemma OtherBins(key: map<Slot, nat>, nb: nat, i: nat, u: Slot)
    requires AllBinned(key) && Binned(i, nb) && u in key && u.index != i
    ensures u.index < i ==> key[u] < nb
    ensures u.index > i ==> forall w <- key | w.index == i :: key[w] < key[u]
  {
    assert Binned(u.index, key[u]);
    hide TreeIndexOf, InBin;
    if u.index < i {
      BinOrder(u.index, i, key[u], nb);
    } else {
      forall w <- key | w.index == i ensures key[w] < key[u] {
        assert Binned(w.index, key[w]);
        BinOrder(i, u.index, key[w], key[u]);
      }
    }
  }

  /** The path ended at the right subtree it left aside last. */
  lemma TurnAside(key: map<Slot, nat>, nb: nat, i: nat, rsize: nat, level: int, rs: Slot)
    requires Trie(key) && AllBinned(key) && Binned(i, nb) && Aside(key, nb, i, level, Some(rs))
    requires PathCover(key, nb, i, rsize, None, Some(rs))
    ensures Cover(key, nb, rsize, Some(rs)) && AllFit(key, nb, rs)
  {
    forall u <- key | u.index != i ensures Beaten(key, nb, rsize, u) || CoveredBy(key, rs, u) {
      OtherBins(key, nb, i, u);
    }
    forall u <- key | InSubtree(key, rs, u) ensures nb <= key[u] {
      PrefixOrder(nb, key[u], rs.level);
    }
  }

  /** Nothing fits in the bin, so that the next bin in use holds the best fit. */
  lemma NextBinCovers(key: map<Slot, nat>, nb: nat, i: nat, rsize: nat, j: nat)
    requires Trie(key) && AllBinned(key) && Binned(i, nb) && i < j && RootSlot(j) in key
    requires PathCover(key, nb, i, rsize, None, None) && forall k: nat :: i < k < j ==> RootSlot(k) !in key
    ensures Cover(key, nb, rsize, Some(RootSlot(j))) && AllFit(key, nb, RootSlot(j))
  {
    var r := RootSlot(j);
    forall u <- key ensures Beaten(key, nb, rsize, u) || CoveredBy(key, r, u) {
      BelowRoot(key, u);
      RootUsed(key, u);
      if u.index < i {
        OtherBins(key, nb, i, u);
      } else if u.index > j {
        LaterBin(key, r, u);
      }
    }
    forall u <- key | InSubtree(key, r, u) ensures nb <= key[u] {
      SmallerBin(key, nb, i, u);
    }
  }

  lemma LaterBin(key: map<Slot, nat>, r: Slot, u: Slot)
    requires AllBinned(key) && r in key && u in key && r.index < u.index
    ensures key[r] < key[u]
  {
    assert Binned(r.index, key[r]) && Binned(u.index, key[u]);
    BinOrder(r.index, u.index, key[r], key[u]);
  }

  lemma SmallerBin(key: map<Slot, nat>, nb: nat, i: nat, u: Slot)
    requires AllBinned(key) && Binned(i, nb) && u in key && i < u.index
    ensures nb < key[u]
  {
    assert Binned(u.index, key[u]);
    BinOrder(i, u.index, nb, key[u]);
  }

  /** Nothing is left to look at. */
  lemma NoMoreBins(key: map<Slot, nat>, nb: nat, i: nat, rsize: nat)
    requires Trie(key) && AllBinned(key) && Binned(i, nb)
    requires PathCover(key, nb, i, rsize, None, None) && forall k: nat :: i < k ==> RootSlot(k) !in key
    ensures Cover(key, nb, rsize, None)
  {
    forall u <- key ensures Beaten(key, nb, rsize, u) {
      RootUsed(key, u);
      if u.index < i {
        OtherBins(key, nb, i, u);
      }
    }
  }

  /** A fit in the bin of the request beats all later bins. */
  lemma FoundInBin(key: map<Slot, nat>, nb: nat, i: nat, rsize: nat, v: Slot)
    requires Trie(key) && AllBinned(key) && Binned(i, nb) && PathCover(key, nb, i, rsize, None, None)
    requires v in key && v.index == i && nb <= key[v] && rsize == key[v] - nb
    ensures Cover(key, nb, rsize, None)
  {
    forall u <- key ensures Beaten(key, nb, rsize, u) {
      if u.index != i {
        OtherBins(key, nb, i, u);
      }
    }
  }
}
