/**
 * The tree bins of the allocator: free chunks of at least MIN_LARGE_SIZE bytes,
 * filed by size in one digital search tree for each bin. One map stands for each
 * field of a chunk.
 */
module TreeBins {
  import opened Collections
  import opened TreeIndex
  import opened TreeTrie
  import opened TreeLinks
  import opened TreeBinsSpec
  import opened TreeSearch
  import opened BestFitSpec
  import opened LeftSpine
  import opened TreeInsert
  import opened TreeRings

  class Bins {
    var size: map<Addr, nat>
    var fd: map<Addr, Addr>
    var bk: map<Addr, Addr>
    var child: map<Addr, Children>
    var parent: map<Addr, Link>
    var index: map<Addr, nat>
    var treebins: seq<Addr>
    var treemap: set<nat>
    ghost var trees: Trees

    ghost function Fields(): Memory
      reads this
    {
      Memory(size, fd, bk, child, parent, index, treebins, treemap)
    }

    ghost predicate Valid()
      reads this
    {
      Sound(Fields(), trees)
    }

    /** The chunks that are filed. */
    ghost function Chunks(): set<Addr>
      reads this
    {
      trees.own.Keys
    }

    constructor ()
      ensures Valid() && Chunks() == {}
    {
      size, fd, bk, child, parent, index := map[], map[], map[], map[], map[], map[];
      treebins, treemap := seq(32, i => NULL), {};
      trees := Trees(map[], map[], map[]);
    }

    lemma NothingMarked()
      requires Valid() && treemap == {}
      ensures Chunks() == {}
    {
      TakeFirstBin(Fields(), trees, 0, NextBin(treemap, 0));
    }

    /** The header of a chunk that is not filed is written. */
    method SetSize(x: Addr, s: nat)
      requires Valid() && x !in Chunks()
      modifies `size
      ensures Valid() && Chunks() == old(Chunks()) && size == old(size)[x := s]
    {
      ResizeKeeps(Fields(), trees, size[x := s]);
      size := size[x := s];
    }

    /**
     * Whatever the size, the chunk gets the index and the place that its bits lead
     * to. If the index is right for the size, it is filed and all others stay filed.
     */
    method Insert(x: Addr, s: nat)
      requires Valid() && x != NULL && x !in Chunks() && x in size && size[x] == s
      requires MIN_LARGE_SIZE <= s < TWO_64
      modifies `fd, `bk, `child, `parent, `index, `treebins, `treemap, `trees
      ensures Inserted(old(Fields()), Fields(), x, s) && Met(Fields(), x)
      ensures x in index && index[x] == TreeIndexOf(s)
      ensures InBin(TreeIndexOf(s), s) ==>
        Valid() && Chunks() == old(Chunks()) + {x} && SameKeys(old(trees).key, trees.key) &&
        Rings(trees) == Joining(old(Rings(trees)), x, s)
    {
      hide Sound, Ready, Head, BitAt, Kid, NotAbove, Prefix, InBin, TreeIndexOf, SameKeys, Inserted, Met, ComesTo,
        Rings, Joining;
      ghost var m, g := Fields(), trees;
      var i := TreeIndexOf(s);
      IndexBound(s);
      index := index[x := i];
      child := child[x := NO_CHILDREN];
      ghost var m1 := Fields();
      PrepareKeeps(m, g, x, s, i, m1);
      BinCount(m1, g);
      if i !in treemap {
        StartBin(x, s, i);
        InsertedFirst(m, Fields(), x, s);
      } else {
        var t, bit;
        ghost var p, n, k;
        t, bit, p, n, k := InsertDescent(i, s);
        NotPlaced(m1, g, x, p, t);
        if size[t] != s {
          Hang(x, s, i, t, bit, p);
        } else {
          Join(x, s, i, t, p);
        }
        InsertedBelow(m, Fields(), x, s, n, t, k);
      }
      InsertedIsMet(m, Fields(), x, s);
    }

    method StartBin(x: Addr, s: nat, i: nat)
      requires Valid() && i <= LAST_BIN && (Binned(i, s) ==> Ready(Fields(), trees, x, s, i)) && i !in treemap
      modifies `fd, `bk, `parent, `treebins, `treemap, `trees
      ensures i < |old(treebins)| && Fields() == Started(old(Fields()), x, i)
      ensures Binned(i, s) ==>
        Valid() && Chunks() == old(Chunks()) + {x} && SameKeys(old(trees).key, trees.key) &&
        Rings(trees) == Joining(old(Rings(trees)), x, s)
    {
      hide Sound, Ready, Put, Head, RootSlot, Trie, AllBinned, Filed, AllLinked, ChildLinks, ParentLinks, Indexed,
        Roots, Binned, SameKeys, PutTrees, Rings, Joining;
      ghost var m, g := Fields(), trees;
      SoundParts(m, g);
      EnterBin(m, g, i, s);
      treemap := treemap + {i};
      treebins := treebins[i := x];
      parent := parent[x := Bin(i)];
      fd, bk := fd[x := x], bk[x := x];
      if Binned(i, s) {
        trees := PutTrees(g, RootSlot(i), s, [x]);
        StartBinKeeps(m, g, x, s, i, Fields(), trees);
        PutChunks(m, g, RootSlot(i), s, x, trees);
        PutSameKeys(g, RootSlot(i), s, [x]);
        SameDomain(m, g);
        SoundParts(Fields(), trees);
        RingsStart(g, RootSlot(i), s, x, trees);
      }
    }

    /** Where a chunk of size `s` belongs in its bin: in the ring of `t`, or as its child at `bit`. */
    method InsertDescent(i: nat, s: nat) returns (t: Addr, bit: nat, ghost p: Slot, ghost n: nat, ghost k: nat)
      requires Valid() && i <= LAST_BIN && 0 < s < TWO_64 && i in treemap
      ensures AtPlace(Fields(), trees, p, t) && p.index == i && bit < 2 && ComesTo(Fields(), i, s, n, t, k)
      ensures size[t] != s ==> Kid(p, bit) !in trees.ring && bit == TopBit(k) && child[t].At(bit) == NULL
      ensures Binned(i, s) ==> p == Path(i, s, p.level)
      ensures Binned(i, s) && size[t] != s ==>
        p.level > 0 && bit == BitAt(s, p.level - 1) && NotAbove(trees.key, s, i, p.level - 1)
    {
      hide Sound, Head, BitAt, NotAbove, Prefix, Binned, StartLevel, StartPrefix, LeftShift, Searching, Best, Walks;
      ghost var m, g := Fields(), trees;
      EnterBin(m, g, i, s);
      t := treebins[i];
      var sizebits: nat := Key(s, LeftShift(i));
      EnterTree(m, g, s, i, sizebits);
      p := RootSlot(i);
      bit, n, k := 0, 0, sizebits;
      NoWalk(m, t, sizebits, s);
      while true
        invariant AtPlace(m, g, p, t) && p.index == i && sizebits < TWO_64 && k == sizebits
        invariant Walks(m, treebins[i], Key(s, LeftShift(i)), s, n, t, k)
        invariant Binned(i, s) ==> OnPathDown(g.key, p, s, i, sizebits)
        decreases p.level
      {
        if Binned(i, s) {
          StepOnPath(m, g, p, t, s, i, sizebits);
        }
        if size[t] == s {
          return;
        }
        bit := if sizebits >= TWO_63 then 1 else 0;
        DescendStep(m, g, p, t, bit, NULL, None);
        if child[t].At(bit) == NULL {
          return;
        }
        WalkOn(m, treebins[i], Key(s, LeftShift(i)), s, n, t, k);
        sizebits := ShiftLeft(sizebits);
        n, k := n + 1, sizebits;
        t := child[t].At(bit);
        p := Kid(p, bit);
      }
    }

    /** A leaf for `x` below the chunk `t`. */
    method Hang(x: Addr, s: nat, i: nat, t: Addr, bit: nat, ghost p: Slot)
      requires Valid() && AtPlace(Fields(), trees, p, t) && Kid(p, bit) !in trees.ring
      requires Binned(i, s) ==>
        && Ready(Fields(), trees, x, s, i) && p.level > 0 && p == Path(i, s, p.level)
        && bit == BitAt(s, p.level - 1) && NotAbove(trees.key, s, i, p.level - 1)
      modifies `fd, `bk, `child, `parent, `trees
      ensures t in old(child) && Fields() == Hung(old(Fields()), x, t, bit)
      ensures Binned(i, s) ==>
        Valid() && Chunks() == old(Chunks()) + {x} && SameKeys(old(trees).key, trees.key) &&
        Rings(trees) == Joining(old(Rings(trees)), x, s)
    {
      hide Sound, Ready, Put, Head, Path, BitAt, Kid, NotAbove, Trie, AllBinned, Filed, AllLinked, ChildLinks,
        ParentLinks, Indexed, Roots, Binned, SameKeys, PutTrees, Rings, Joining;
      ghost var m, g := Fields(), trees;
      SoundParts(m, g);
      SameDomain(m, g);
      child := child[t := child[t].With(bit, x)];
      parent := parent[x := Chunk(t)];
      fd, bk := fd[x := x], bk[x := x];
      if Binned(i, s) {
        trees := PutTrees(g, Kid(p, bit), s, [x]);
        HangKeeps(m, g, x, s, i, p, bit, t, Fields(), trees);
        PutChunks(m, g, Kid(p, bit), s, x, trees);
        PutSameKeys(g, Kid(p, bit), s, [x]);
        SameDomain(m, g);
        SoundParts(Fields(), trees);
        RingsStart(g, Kid(p, bit), s, x, trees);
      }
    }

    /** A place for `x` in the ring of the chunk `t`, which has the same size. */
    method Join(x: Addr, s: nat, i: nat, t: Addr, ghost p: Slot)
      requires Valid() && AtPlace(Fields(), trees, p, t) && trees.key[p] == s && p.index == i
      requires Binned(i, s) ==> Ready(Fields(), trees, x, s, i)
      modifies `fd, `bk, `parent, `trees
      ensures t in old(fd) && Fields() == Joined(old(Fields()), x, t)
      ensures Binned(i, s) ==>
        Valid() && Chunks() == old(Chunks()) + {x} && SameKeys(old(trees).key, trees.key) &&
        Rings(trees) == Joining(old(Rings(trees)), x, s)
    {
      hide Sound, Ready, Put, Head, Trie, AllBinned, Filed, AllLinked, ChildLinks, ParentLinks, Indexed, Roots, Binned,
        SameKeys, PutTrees, Rings, Joining;
      ghost var m, g := Fields(), trees;
      SoundParts(m, g);
      HeadLinked(m, g, p, t);
      var f := fd[t];
      fd, bk := fd[t := x], bk[f := x];
      fd, bk := fd[x := f], bk[x := t];
      parent := parent[x := NoLink];
      if Binned(i, s) {
        trees := PutTrees(g, p, s, [t, x] + g.ring[p][1..]);
        JoinKeeps(m, g, p, t, x, f, [t, x] + g.ring[p][1..], Fields(), trees);
        JoinChunks(m, g, p, s, t, x, trees);
        PutSameKeys(g, p, s, [t, x] + g.ring[p][1..]);
        SameDomain(m, g);
        SoundParts(Fields(), trees);
        UsedSize(m, g, p, t);
        RingsJoin(g, p, x, trees);
      }
    }

    /** The leaf that is to replace `x`, if there is one, and the link to it. */
    method RightmostLeaf(x: Addr, ghost s: Slot) returns (r: Addr, owner: Addr, bit: nat, ghost q: Slot)
      requires Valid() && s in trees.ring && s in trees.key && x == Head(trees.ring, s)
      ensures r == NULL ==> Leaf(trees.key, s)
      ensures r != NULL ==> q in trees.ring && r == Head(trees.ring, q) && q != s && q == RightLeaf(trees.key, s)
      ensures r != NULL ==> InSubtree(trees.key, s, q) && Leaf(trees.key, q)
      ensures r != NULL ==> owner in child && child[owner := child[owner].With(bit, NULL)] == Unhung(Fields(), r, NULL)
    {
      hide Sound, Head, InSubtree, Leaf, Unhung, RightLeaf, Trie, AllBinned, Filed, AllLinked, ChildLinks, ParentLinks,
        Indexed, Roots;
      ghost var m, g := Fields(), trees;
      SoundParts(m, g);
      SlotLevel(m, g, s);
      KidStep(m, g, s, s, x, 0);
      KidStep(m, g, s, s, x, 1);
      owner, q := x, s;
      r, bit := child[x].right, 1;
      if r == NULL {
        r, bit := child[x].left, 0;
      }
      if r == NULL {
        assert child[x] == NO_CHILDREN;
      } else {
        ghost var o := s;
        RightLeafStep(m, g, s);
        q := Kid(s, bit);
        KidStep(m, g, s, q, r, 0);
        while child[r].right != NULL || child[r].left != NULL
          invariant o in g.ring && owner == Head(g.ring, o) && bit < 2 && q == Kid(o, bit) && q.level < s.level
          invariant q in g.ring && r == Head(g.ring, q) && InSubtree(g.key, s, q) && r in child && q.level >= 0
          invariant RightLeaf(g.key, q) == RightLeaf(g.key, s)
          decreases q.level
        {
          KidStep(m, g, s, q, r, 0);
          KidStep(m, g, s, q, r, 1);
          RightLeafStep(m, g, q);
          o, owner := q, r;
          if child[r].right != NULL {
            r, bit := child[r].right, 1;
          } else {
            r, bit := child[r].left, 0;
          }
          q := Kid(o, bit);
          KidStep(m, g, s, q, r, 0);
        }
        KidStep(m, g, s, q, r, 0);
        KidStep(m, g, s, q, r, 1);
        RightLeafStep(m, g, q);
        CutLink(m, g, o, owner, bit, r);
      }
    }

    method Unlink(x: Addr)
      requires Valid() && x in Chunks()
      modifies `fd, `bk, `child, `parent, `treebins, `treemap, `trees
      ensures Valid() && Chunks() == old(Chunks()) - {x}
      ensures x in size && Rings(trees) == Leaving(old(Rings(trees)), x, size[x])
    {
      hide Sound, Head, Leaf, Unhung, InSubtree, Without, Put, Drop, Relinked, Unrooted, Previous, Trie, AllBinned,
        Filed, AllLinked, ChildLinks, ParentLinks, Indexed, Roots, Rings, Leaving;
      ghost var m, g := Fields(), trees;
      SoundParts(m, g);
      ChunkSize(m, g, x);
      ghost var s, k := Locate(m, g, x);
      var xp := parent[x];
      if bk[x] != x {
        UnlinkFromRing(x, xp, s, k);
      } else {
        UnlinkAlone(x, xp, s);
      }
    }

    method UnlinkFromRing(x: Addr, xp: Link, ghost s: Slot, ghost k: nat)
      requires Valid() && s in trees.ring && s in trees.key && k < |trees.ring[s]| && |trees.ring[s]| > 1
      requires trees.ring[s][k] == x && x in fd && x in bk && x in parent && xp == parent[x]
      requires (k == 0 <==> xp != NoLink) && (k == 0 <==> x == Head(trees.ring, s))
      modifies `fd, `bk, `child, `parent, `treebins, `treemap, `trees
      ensures Valid() && Chunks() == old(Chunks()) - {x}
      ensures x in size && Rings(trees) == Leaving(old(Rings(trees)), x, size[x])
    {
      hide Sound, Head, Leaf, Unhung, InSubtree, Without, Put, Drop, Relinked, Unrooted, Previous, Trie, AllBinned,
        Filed, AllLinked, ChildLinks, ParentLinks, Indexed, Roots, Rings, Leaving;
      ghost var m, g := Fields(), trees;
      SoundParts(m, g);
      if k == 0 {
        LastOfRing(m, g, s, x);
        RelinkReady(m, g, s, x, m.bk[x]);
      }
      var f, r := fd[x], bk[x];
      bk := bk[f := r];
      fd := fd[r := f];
      ghost var m1 := Fields();
      if xp != NoLink {
        Relink(x, xp, r);
      }
      trees := PutTrees(g, s, g.key[s], Without(g.ring[s], k));
      LeaveEither(m, g, s, k, x, m1, Fields(), trees);
      SameDomain(m, g);
      SoundParts(Fields(), trees);
      RingMember(m, g, s, k);
      RingsLeave(g, s, k, trees);
    }

    method UnlinkAlone(x: Addr, xp: Link, ghost s: Slot)
      requires Valid() && s in trees.ring && s in trees.key && trees.ring[s] == [x]
      requires x in parent && xp == parent[x]
      modifies `fd, `bk, `child, `parent, `treebins, `treemap, `trees
      ensures Valid() && Chunks() == old(Chunks()) - {x}
      ensures x in size && Rings(trees) == Leaving(old(Rings(trees)), x, size[x])
    {
      hide Sound, Head, Leaf, Unhung, InSubtree, Put, Drop, Relinked, Unrooted, Trie, AllBinned, Filed, AllLinked,
        ChildLinks, ParentLinks, Indexed, Roots, Rings, Leaving;
      ghost var m, g := Fields(), trees;
      SoundParts(m, g);
      HeadIsFirst(g.ring, s);
      SameDomain(m, g);
      RingMember(m, g, s, 0);
      RingsAlone(g, s, x);
      var r, owner, bit, q := RightmostLeaf(x, s);
      if r != NULL {
        LeafReady(m, g, s, x, q, r);
        child := child[owner := child[owner].With(bit, NULL)];
        ghost var m1 := Fields();
        Relink(x, xp, r);
        ghost var g1 := DropTrees(g, q);
        trees := PutTrees(g1, s, g.key[q], g.ring[q]);
        ReplaceKeeps(m, g, s, x, q, r, m1, g1, Fields(), trees);
        ReplaceChunks(m, g, s, x, q, g.key[q], g1, trees);
        RingsReplace(g, s, q, g1, trees);
      } else {
        RelinkReady(m, g, s, x, NULL);
        Relink(x, xp, r);
        trees := DropTrees(g, s);
        DropKeeps(m, g, s, x, Fields(), trees);
        DropChunks(m, g, s, x, trees);
        RingsDrop(g, s, trees);
      }
    }

    /** What points to `x` from above now points to `r`, which takes over the children of `x`. */
    method Relink(x: Addr, xp: Link, r: Addr)
      requires x in index && index[x] < |treebins| && x in child && x in parent && parent[x] == xp && r != x &&
        x != NULL
      requires treebins[index[x]] == x <==> xp.Bin?
      requires treebins[index[x]] != x ==> xp.Chunk? && xp.address in child && xp.address !in {x, r}
      requires r != NULL ==> r in child && child[r] == NO_CHILDREN
      modifies `child, `parent, `treebins, `treemap
      ensures r != NULL ==> Relinked(old(Fields()), x, r, Fields())
      ensures r == NULL ==>
        child == Unhung(old(Fields()), x, NULL) && parent == old(parent) && Unrooted(old(Fields()), x, Fields())
    {
      if x == treebins[index[x]] {
        treebins := treebins[index[x] := r];
        if r == NULL {
          treemap := treemap - {index[x]};
        }
      } else if child[xp.address].left == x {
        child := child[xp.address := child[xp.address].With(0, r)];
      } else {
        child := child[xp.address := child[xp.address].With(1, r)];
      }
      if r != NULL {
        parent := parent[r := xp];
        var c0 := child[x].left;
        if c0 != NULL {
          child := child[r := child[r].With(0, c0)];
          parent := parent[c0 := Chunk(r)];
        }
        var c1 := child[x].right;
        if c1 != NULL {
          child := child[r := child[r].With(1, c1)];
          parent := parent[c1 := Chunk(r)];
        }
      }
    }

    /** Whether `x` is filed, found by its size. */
    method Find(x: Addr) returns (found: bool)
      requires Valid() && x in size && MIN_LARGE_SIZE <= size[x] < TWO_64
      ensures found <==> x in Chunks()
    {
      hide Sound, Head, OnTrack, NotAbove, InBin, TreeIndexOf, Trie, Prefix, BitAt, StartLevel, StartPrefix,
        LeftShift, Filed, AllBinned, AllLinked, ChildLinks, ParentLinks, Indexed, Roots, Binned, Key;
      ghost var m, g := Fields(), trees;
      SoundParts(m, g);
      var i := TreeIndexOf(size[x]);
      IndexBound(size[x]);
      EnterBin(m, g, i, size[x]);
      if i !in treemap {
        EmptyBin(m, g, i, x);
        return false;
      }
      var t := treebins[i];
      var k: nat := Key(size[x], LeftShift(i));
      ghost var p := RootSlot(i);
      StartTrack(m, g, i, size[x], k);
      UsedSize(m, g, p, t);
      while t != NULL && size[t] != size[x]
        invariant k < TWO_64 && (t == NULL ==> x !in g.own)
        invariant t != NULL ==> p in g.ring && t == Head(g.ring, p) && p.level >= 0 && t in size && p.index == i
        invariant t != NULL ==> OnTrack(g, p, i, size[x], k)
        decreases if t == NULL then 0 else p.level + 1
      {
        var bit := if k >= TWO_63 then 1 else 0;
        FindStep(m, g, p, t, i, k, bit, x);
        t := child[t].At(bit);
        k := ShiftLeft(k);
        if t != NULL {
          p := Kid(p, bit);
          UsedSize(m, g, p, t);
        }
      }
      if t == NULL {
        return false;
      }
      UsedSize(m, g, p, t);
      FoundSize(m, g, p, x);
      var u := t;
      ghost var j := 0;
      while true
        invariant j < |g.ring[p]| && u == g.ring[p][j] && forall l :: 0 <= l < j ==> g.ring[p][l] != x
        decreases |g.ring[p]| - j
      {
        if u == x {
          return true;
        }
        StepRing(m, g, p, j);
        u := fd[u];
        if u == t {
          return false;
        }
        j := j + 1;
      }
    }

    /** The first part of the search: down the path of `nb` in bin `idx`. */
    method SearchPath(nb: nat, idx: nat) returns (t: Addr, v: Addr, rsize: nat, ghost ts: Option<Slot>, ghost vs: Slot)
      requires Valid() && 0 < nb < TWO_64 && idx <= LAST_BIN && idx < |treebins| && treebins[idx] != NULL
      ensures Best(Fields(), trees, nb, v, vs, rsize) && (v != NULL ==> vs.index == idx) &&
        (t != NULL ==> At(Fields(), trees, t, ts))
      ensures ts.Some? ==> ts.value.index == idx
      ensures v == NULL ==> ts == LastAside(trees.key, nb, RootSlot(idx), None) && (t == NULL <==> ts == None)
      ensures Binned(idx, nb) ==> t == NULL ==> PathCover(trees.key, nb, idx, rsize, None, None)
      ensures Binned(idx, nb) ==> t != NULL ==> rsize == 0 || FitCover(trees, nb, rsize, ts)
    {
      hide Sound, At, Best, PathCover, Aside, FitCover, InSubtree, Head, Trie, Prefix, BitAt, StartLevel,
        StartPrefix, LeftShift, Filed, AllBinned, AllLinked, ChildLinks, ParentLinks, Indexed, Roots, Binned, Key,
        LeftAside, InBin, TreeIndexOf, Searching, Turning, LastAside;
      ghost var m, g := Fields(), trees;
      SoundParts(m, g);
      v, rsize, vs, ts := NULL, TWO_64 - nb, RootSlot(idx), None;
      t := treebins[idx];
      var sizebits: nat := Key(nb, LeftShift(idx));
      var rst: Addr := NULL;
      ghost var s, rs := RootSlot(idx), None;
      EnterTree(m, g, nb, idx, sizebits);
      StartTurning(g.key, nb, idx);
      while true
        invariant AtPlace(m, g, s, t) && At(m, g, rst, rs) && s.index == idx && sizebits < TWO_64 && rsize > 0
        invariant Searching(m, g, nb, idx, s, t, sizebits, rs, rsize)
        invariant Best(m, g, nb, v, vs, rsize) && (v != NULL ==> vs.index == idx)
        invariant rs.Some? ==> rs.value.index == idx
        invariant Turning(g.key, nb, idx, s, sizebits, rs)
        decreases s.level
      {
        Examine(m, g, nb, v, vs, rsize, t, s);
        ExamineSearching(m, g, nb, idx, s, t, sizebits, rs, rsize, Minus(size[t], nb));
        var trem := Minus(size[t], nb);
        if trem < rsize {
          v, rsize, vs := t, trem, s;
          if rsize == 0 {
            ts := Some(s);
            AtUsed(m, g, t, s);
            return;
          }
        }
        var bit := if sizebits >= TWO_63 then 1 else 0;
        DescendStep(m, g, s, t, bit, rst, rs);
        StepSearching(m, g, nb, idx, s, t, sizebits, rst, rs, rsize, bit);
        KeepTurning(m, g, nb, idx, s, t, sizebits, rs, bit);
        var rt := child[t].right;
        t := child[t].At(bit);
        if rt != NULL && rt != t {
          rst := rt;
        }
        AsideIndex(g.key, s, bit, rs);
        rs := LeftAside(g.key, s, bit, rs);
        if t == NULL {
          t, ts := rst, rs;
          AtNull(m, g, t, ts);
          if Binned(idx, nb) {
            EndOfPath(m, g, nb, idx, rsize, s.level - 1, t, ts);
          }
          return;
        }
        sizebits := ShiftLeft(sizebits);
        s := Kid(s, bit);
      }
    }

    /** The second part of the search: along the leftmost children below `t`. */
    method SearchLeftmost(nb: nat, t0: Addr, v0: Addr, r0: nat, ghost ts0: Option<Slot>, ghost vs0: Slot,
        ghost binned: bool)
      returns (v: Addr, rsize: nat, ghost vs: Slot)
      requires Valid() && 0 < nb < TWO_64 && Best(Fields(), trees, nb, v0, vs0, r0) && At(Fields(), trees, t0, ts0)
      requires binned ==> r0 == 0 || FitCover(trees, nb, r0, ts0)
      ensures Best(Fields(), trees, nb, v, vs, rsize) && (binned ==> Cover(trees.key, nb, rsize, None))
      ensures (v == v0 && vs == vs0) || (ts0.Some? && vs.index == ts0.value.index)
      ensures rsize == Spare(nb, r0, BestOnLeft(trees.key, nb, ts0))
    {
      hide Sound, At, Best, Cover, FitCover, InSubtree, Head, Trie, Filed, AllBinned, AllLinked, ChildLinks,
        ParentLinks, Indexed, Roots, Leftmost, BestOnLeft, Spare;
      ghost var m, g := Fields(), trees;
      SoundParts(m, g);
      v, rsize, vs := v0, r0, vs0;
      var t: Addr := t0;
      ghost var ts := ts0;
      AtLevel(m, g, t, ts);
      while t != NULL
        invariant Best(m, g, nb, v, vs, rsize) && At(m, g, t, ts)
        invariant binned ==> rsize == 0 || FitCover(g, nb, rsize, ts)
        invariant (t == NULL <==> ts == None) && (t != NULL ==> ts.value.level >= 0)
        invariant ts.Some? ==> ts0.Some? && ts.value.index == ts0.value.index
        invariant (v == v0 && vs == vs0) || (ts0.Some? && vs.index == ts0.value.index)
        invariant Spare(nb, rsize, BestOnLeft(g.key, nb, ts)) == Spare(nb, r0, BestOnLeft(g.key, nb, ts0))
        decreases if ts.Some? then ts.value.level + 1 else 0
      {
        AtLevel(m, g, t, ts);
        Examine(m, g, nb, v, vs, rsize, t, ts.value);
        LeftmostNext(m, g, nb, rsize, Minus(size[t], nb), t, ts.value, binned);
        BestSpare(m, g, nb, v, vs, rsize);
        SpareOn(g, nb, rsize, ts.value);
        var trem := Minus(size[t], nb);
        if trem < rsize {
          v, rsize, vs := t, trem, ts.value;
        }
        t := if child[t].left != NULL then child[t].left else child[t].right;
        LeftmostIndex(g.key, ts.value);
        ts := Leftmost(g.key, ts.value);
        AtLevel(m, g, t, ts);
      }
      NothingOnLeft(g, nb, rsize);
      if binned {
        NothingLeft(g, nb, rsize, ts);
      }
    }

    /** The search up to where only a leftmost descent is left to do. */
    method SearchStart(nb: nat, idx: nat) returns (t: Addr, v: Addr, rsize: nat, ghost ts: Option<Slot>, ghost vs: Slot)
      requires Valid() && 0 < nb < TWO_64 && idx <= LAST_BIN
      ensures Best(Fields(), trees, nb, v, vs, rsize) && At(Fields(), trees, t, ts)
      ensures Binned(idx, nb) ==> rsize == 0 || FitCover(trees, nb, rsize, ts)
      ensures v != NULL ==> vs.index == idx
      ensures ts.Some? ==> ts.value.index == idx || ts.value == RootSlot(NextBin(treemap, idx + 1))
      ensures v == NULL ==>
        (GetsToLastBin(trees.key, treemap, nb, idx) <==> ts == Some(RootSlot(LAST_BIN)) && idx < LAST_BIN)
    {
      hide Sound, At, Best, PathCover, FitCover, Head, Trie, Filed, AllBinned, AllLinked, ChildLinks, ParentLinks,
        Indexed, Roots, Binned, LastAside, StartLevel, StartPrefix;
      ghost var m, g := Fields(), trees;
      EnterBin(m, g, idx, nb);
      t, v, rsize, vs := NULL, NULL, TWO_64 - nb, RootSlot(idx);
      if treebins[idx] != NULL {
        t, v, rsize, ts, vs := SearchPath(nb, idx);
      } else {
        EmptyPath(m, g, nb, idx, vs);
        NoneAside(m, g, nb, idx);
      }
      if t == NULL {
        ts := None;
        NullIsNowhere(m, g);
        if v == NULL {
          var i := NextBin(treemap, idx + 1);
          TakeNextBin(m, g, nb, idx, rsize, i);
          if i < 32 {
            t, ts := treebins[i], Some(RootSlot(i));
          }
        } else if Binned(idx, nb) {
          KeepFound(m, g, nb, idx, rsize, v, vs);
        }
      }
    }

    /** The smallest filed chunk that fits a large request, unless the designated victim fits as well. */
    method BestFit(nb: nat, dvsize: nat) returns (v: Addr, rsize: nat)
      requires Valid() && MIN_LARGE_SIZE <= nb < TWO_64 && dvsize < TWO_64
      ensures v != NULL ==> v in Chunks() && v in size && nb <= size[v] && rsize == size[v] - nb
      ensures v != NULL ==> dvsize < nb || size[v] < dvsize
      ensures v != NULL ==> FirstOfSize(trees, v, size[v])
      ensures InBin(TreeIndexOf(nb), nb) && v != NULL ==>
        forall a <- Chunks() :: a in size && (nb <= size[a] ==> size[v] <= size[a])
      ensures InBin(TreeIndexOf(nb), nb) && v == NULL ==>
        forall a <- Chunks() :: a in size && (nb <= size[a] ==> nb <= dvsize <= size[a])
      ensures !InBin(TreeIndexOf(nb), nb) ==>
        var best := BestOnLeft(trees.key, nb, Some(RootSlot(LAST_BIN)));
        && (v != NULL ==> best == Some(size[v]))
        && (v != NULL <==>
          && GetsToLastBin(trees.key, treemap, nb, TreeIndexOf(nb))
          && best.Some? && (dvsize < nb || best.value < dvsize))
    {
      hide Sound, At, Best, Cover, FitCover, InBin, TreeIndexOf, BestOnLeft, GetsToLastBin, FirstOfSize;
      IndexBound(nb);
      var t, v0, r0, ts, vs0 := SearchStart(nb, TreeIndexOf(nb));
      ghost var vs;
      ghost var binned := Binned(TreeIndexOf(nb), nb);
      v, rsize, vs := SearchLeftmost(nb, t, v0, r0, ts, vs0, binned);
      BestFits(Fields(), trees, nb, v, vs, rsize);
      if v != NULL {
        FirstFits(Fields(), trees, nb, v, vs, rsize);
      }
      if binned {
        FitForAll(Fields(), trees, nb, v, vs, rsize);
      }
      if !InBin(TreeIndexOf(nb), nb) {
        SettleMisfiled(Fields(), trees, nb, TreeIndexOf(nb), v0, vs0, r0, ts, v, vs, rsize);
      }
      if v == NULL || rsize >= Minus(dvsize, nb) {
        v := NULL;
      }
    }

    /** Small chunks along the left edge of the last bin's tree. */
    method FillEdge()
      requires Valid() && Chunks() == {}
      modifies this
      ensures Valid() && Chunks() == SmallChunks(SMALL_CHUNKS) && SmallSizes(SMALL_CHUNKS, size)
      ensures EdgeUsed(trees.key, SMALL_CHUNKS)
    {
      hide InBin, TreeIndexOf, Sound, SmallAt, Rings, Joining, Inserted, Met, SameKeys;
      var n: nat := 0;
      while n < SMALL_CHUNKS
        invariant n <= SMALL_CHUNKS && Valid() && Chunks() == SmallChunks(n) && SmallSizes(n, size)
        invariant EdgeUsed(trees.key, n)
      {
        OneMore(n);
        SmallBinned(n);
        SmallAtNotNull(n);
        SetSize(SmallAt(n), SmallSize(n));
        ghost var key := trees.key;
        Insert(SmallAt(n), SmallSize(n));
        EdgeKept(key, trees.key, n);
        EdgeGrows(Fields(), trees, n);
        n := n + 1;
      }
    }

    method AddLarge(large: nat)
      requires Valid() && Chunks() == SmallChunks(SMALL_CHUNKS) && SmallSizes(SMALL_CHUNKS, size)
      requires EdgeUsed(trees.key, SMALL_CHUNKS) && InBin(TreeIndexOf(large), large)
      requires TWO_40 <= large <= TWO_64 - TWO_40 + LAST_MIN_SIZE && large % 8 == 0
      modifies this
      ensures Valid() && Chunks() == SmallChunks(SMALL_CHUNKS) + {LARGE_AT} && SmallSizes(SMALL_CHUNKS, size)
      ensures EdgeUsed(trees.key, SMALL_CHUNKS) && LARGE_AT in size && size[LARGE_AT] == large
    {
      hide InBin, TreeIndexOf, Sound, Rings, Joining, Inserted, Met, SameKeys;
      SetSize(LARGE_AT, large);
      ghost var key := trees.key;
      Insert(LARGE_AT, large);
      EdgeKept(key, trees.key, SMALL_CHUNKS);
    }

    /**
     * For each request that its index is wrong for there are chunks, apart from each
     * other in memory, of which one fits, and the search does not find it.
     */
    static method MissedFit(nb: nat) returns (bins: Bins, v: Addr)
      requires MIN_LARGE_SIZE <= nb < TWO_64 && !InBin(TreeIndexOf(nb), nb)
      ensures fresh(bins) && bins.Valid() && v == NULL && ApartInMemory(bins.Chunks(), bins.size)
      ensures LARGE_AT in bins.Chunks() && LARGE_AT in bins.size && nb <= bins.size[LARGE_AT] < nb + TWO_40
    {
      hide InBin, TreeIndexOf, Sound, SmallAt, BestOnLeft, GetsToLastBin, SmallSizes, EdgeUsed;
      LargeFits(nb);
      bins := new Bins();
      bins.FillEdge();
      bins.AddLarge(LargeSizeFor(nb));
      AllApart(bins.Chunks(), bins.size, LargeSizeFor(nb));
      EdgeMisses(bins.Fields(), bins.trees, nb);
      var rsize;
      v, rsize := bins.BestFit(nb, 0);
    }

    /** The search of tmalloc_small: the smallest filed chunk. */
    method SmallestFit(nb: nat) returns (v: Addr, rsize: nat)
      requires Valid() && 0 < nb < MIN_LARGE_SIZE && treemap != {}
      ensures v in Chunks() && v in size && nb < size[v] && rsize == size[v] - nb && FirstOfSize(trees, v, size[v])
      ensures forall a <- Chunks() :: a in size && size[v] <= size[a]
    {
      hide Sound, At, Best, Cover, FitCover, InBin, TreeIndexOf, Trie, Filed, AllBinned, AllLinked, ChildLinks,
        ParentLinks, Indexed, Roots, Head, Beaten, Leftmost, StartLevel, StartPrefix, FirstOfSize;
      ghost var m, g := Fields(), trees;
      MarkedAreBins(m, g);
      var i := NextBin(treemap, 0);
      TakeFirstBin(m, g, nb, i);
      var t := treebins[i];
      ghost var s, vs := RootSlot(i), RootSlot(i);
      AtLevel(m, g, t, Some(s));
      NothingYet(m, g, nb, s);
      SoundParts(m, g);
      Examine(m, g, nb, NULL, s, TWO_64 - nb, t, s);
      LeftmostNext(m, g, nb, TWO_64 - nb, Minus(size[t], nb), t, s, true);
      LargeSize(g, s);
      v, rsize := t, Minus(size[t], nb);
      UsedSize(m, g, s, t);
      t := if child[t].left != NULL then child[t].left else child[t].right;
      v, rsize, vs := SearchLeftmost(nb, t, v, rsize, Leftmost(g.key, s), vs, true);
      FitForAll(m, g, nb, v, vs, rsize);
      FirstFits(m, g, nb, v, vs, rsize);
      AllLarge(m, g);
    }
  }
}
