/**
 * The allocator on one segment: malloc and free over the row of chunks, the
 * small bins, the tree bins, the designated victim and the top chunk. The
 * system gives no more memory.
 */
module Heap {
  import opened Collections
  import opened TreeIndex
  import opened TreeLinks
  import opened TreeBins
  import opened Tiling
  import opened HeapSpec
  import opened TreeRings
  import opened HeapPolicy

  const MAX_SMALL_REQUEST := 240
  const MIN_REQUEST := 23
  const MAX_REQUEST := TWO_64 - 128
  const CHUNK_OVERHEAD := 8
  const TWO_WORDS := 16

  /** The chunk size for a request, with room for the header and a multiple of 8. */
  function PadRequest(bytes: nat): (nb: nat)
    ensures bytes + CHUNK_OVERHEAD <= nb < bytes + CHUNK_OVERHEAD + 8 && nb % 8 == 0
  {
    (bytes + CHUNK_OVERHEAD + 7) / 8 * 8
  }

  /** request2size: the chunk size that serves a request. */
  function RequestSize(bytes: nat): (nb: nat)
    ensures bytes + CHUNK_OVERHEAD <= nb && nb % 8 == 0 && MIN_CHUNK_SIZE <= nb
    ensures nb < bytes + CHUNK_OVERHEAD + MIN_CHUNK_SIZE
  {
    if bytes < MIN_REQUEST then MIN_CHUNK_SIZE else PadRequest(bytes)
  }

  lemma SizesOf(bytes: nat)
    ensures MIN_REQUEST <= bytes ==> RequestSize(bytes) == PadRequest(bytes)
  {
  }

  class Heap {
    var head: map<Addr, Head>
    var prevFoot: map<Addr, nat>
    var smallbins: seq<seq<Addr>>
    var dv: Addr
    var dvsize: nat
    var top: Addr
    var topsize: nat
    const tree: Bins
    const base: Addr
    const limit: Addr
    ghost var tiles: Tiles

    ghost function Now(): Store
      reads this, tree
    {
      Store(head, prevFoot, smallbins, dv, dvsize, tree.Chunks(), tree.size)
    }

    /** The bins in their order, and the designated victim. */
    ghost function Book(): Books
      reads `smallbins, `dv, `dvsize, tree
    {
      Books(smallbins, Rings(tree.trees), dv, dvsize)
    }

    /** All is in order but for the pending chunks, which are free and not yet filed. */
    ghost predicate Held(pending: set<Addr>)
      reads this, tree
    {
      && tree.Valid() && limit < base + TWO_40
      && Orderly(tiles, base, limit, Now(), pending)
      && top == tiles.top && top < limit && topsize == limit - top
    }

    ghost predicate Valid()
      reads this, tree
    {
      Held({})
    }

    /** The segment from `base`, with a chunk of `own` bytes for the allocator itself, up to the reserve at its end. */
    constructor (base: Addr, own: nat, limit: Addr)
      requires 0 < base && base % 8 == 0 && MIN_CHUNK_SIZE <= own && own % 8 == 0
      requires base + own < limit && limit % 8 == 0
      ensures Orderly(tiles, base, limit, Now(), {}) && (Valid() <==> limit < base + TWO_40)
      ensures fresh(tree) && this.base == base && this.limit == limit && Live(tiles) == map[base := own]
    {
      hide Orderly, EmptyBins, Live, Bins.Valid;
      this.base, this.limit := base, limit;
      tree := new Bins();
      head := map[base := Head(own, true, true), base + own := Head(limit - base - own, true, false)];
      prevFoot, smallbins, dv, dvsize := map[], EmptyBins(), NULL, 0;
      top, topsize := base + own, limit - base - own;
      tiles := Tiles(map[base := own, base + own := limit - base - own], {base}, map[base + own := base], base + own);
      new;
      FreshOrderly(base, own, limit, tiles, Now());
    }

    /** Takes a free chunk out of its bin. */
    method UnlinkChunk(p: Addr, s: nat, ghost pending: set<Addr>)
      requires Held(pending) && ToFile(tiles, dv, pending, p) && s == tiles.size[p]
      modifies `smallbins, tree
      ensures Held(pending + {p}) && Book() == Taken(old(Book()), p, s)
    {
      hide Orderly, Filing, Tagged, Bins.Valid, Rings, Leaving;
      ghost var was := Now();
      BinsOf(tiles, base, limit, was, pending, p);
      if IsSmall(s) {
        smallbins := smallbins[s / 8 := RemoveFirst(smallbins[s / 8], p)];
        UnfileSmallOrderly(tiles, base, limit, was, pending, p, Now());
      } else {
        tree.Unlink(p);
        UnfileLargeOrderly(tiles, base, limit, was, pending, p, Now());
      }
    }

    /** Puts a pending chunk into the bin of its size. */
    method InsertChunk(p: Addr, s: nat, ghost pending: set<Addr>)
      requires Held(pending) && p in pending && IsFree(tiles, p) && s == tiles.size[p]
      modifies `smallbins, tree
      ensures Held(pending - {p}) && Book() == Added(old(Book()), p, s)
    {
      hide Orderly, Filing, Tagged, Bins.Valid, Rings, Joining;
      ghost var was := Now();
      PendingOf(tiles, base, limit, was, pending, p);
      if IsSmall(s) {
        smallbins := smallbins[s / 8 := [p] + smallbins[s / 8]];
        FileSmallOrderly(tiles, base, limit, was, pending, p, Now());
      } else {
        IndexInBin(s);
        tree.SetSize(p, s);
        tree.Insert(p, s);
        FileLargeOrderly(tiles, base, limit, was, pending, p, Now());
      }
    }

    /** set_inuse_and_pinuse: the whole of a free chunk is used. */
    method UseWhole(p: Addr, s: nat)
      requires Held({p}) && IsFree(tiles, p) && s == tiles.size[p] && dv != p
      modifies `head, `tiles
      ensures Held({}) && Live(tiles) == old(Live(tiles))[p := s]
    {
      hide Orderly, Filing, Tagged, TagsCut, Bins.Valid;
      ghost var was, t := Now(), tiles;
      FreeChunk(t, base, limit, was, {p}, p);
      var n := p + s;
      head := head[p := Head(s, true, true)];
      head := head[n := head[n].(pinuse := true)];
      tiles := Cut(t, p, n, n, true, false);
      UseWholeOrderly(t, base, limit, was, p, tiles, Now());
    }

    /** The first `nb` bytes of a free chunk are used, and the rest becomes a free chunk, not yet filed. */
    method UseSplit(p: Addr, nb: nat, s: nat)
      requires Held({p}) && IsFree(tiles, p) && s == tiles.size[p] && dv != p
      requires MIN_CHUNK_SIZE <= nb && nb + MIN_CHUNK_SIZE <= s && nb % 8 == 0
      modifies `head, `prevFoot, `tiles
      ensures Held({p + nb}) && Live(tiles) == old(Live(tiles))[p := nb]
      ensures IsFree(tiles, p + nb) && tiles.size[p + nb] == s - nb
    {
      hide Orderly, Filing, Tagged, TagsCut, Bins.Valid;
      ghost var was, t := Now(), tiles;
      FreeChunk(t, base, limit, was, {p}, p);
      var r, rsize := p + nb, s - nb;
      head := head[r := Head(rsize, true, false)];
      prevFoot := prevFoot[r + rsize := rsize];
      head := head[p := Head(nb, true, true)];
      tiles := Cut(t, p, r, p + s, true, false);
      UseSplitOrderly(t, base, limit, was, p, nb, tiles, Now());
    }

    /** The bottom of the top chunk is used. */
    method SplitTop(nb: nat) returns (p: Addr)
      requires Valid() && MIN_CHUNK_SIZE <= nb < topsize && nb % 8 == 0
      modifies `head, `top, `topsize, `tiles
      ensures Valid() && p == old(top) && Allocated(old(Live(tiles)), p, nb, Live(tiles))
      ensures top == p + nb && topsize == old(topsize) - nb
    {
      hide Orderly, Filing, Tagged, TagsCut, Bins.Valid;
      ghost var was, t := Now(), tiles;
      TopFacts(t, base, limit, was, {});
      topsize := topsize - nb;
      p := top;
      top := p + nb;
      head := head[top := Head(topsize, true, false)];
      head := head[p := Head(nb, true, true)];
      tiles := CutTop(t, limit, p, p + nb);
      SplitTopOrderly(t, base, limit, was, nb, tiles, Now());
    }

    /** What is left of the `s` bytes at `p` is the victim, unless it is too little; then that is as given. */
    ghost predicate RestIsVictim(otherwise: Addr, size: nat, p: Addr, s: nat, nb: nat)
      reads this
    {
      if nb + MIN_CHUNK_SIZE <= s then dv == p + nb && dvsize == s - nb else dv == otherwise && dvsize == size
    }

    /** The designated victim is used, as a whole if too little would be left of it. */
    method UseDv(nb: nat) returns (p: Addr)
      requires Valid() && MIN_CHUNK_SIZE <= nb <= dvsize && nb % 8 == 0
      modifies `head, `prevFoot, `dv, `dvsize, `tiles
      ensures Valid() && p == old(dv) && Allocated(old(Live(tiles)), p, nb, Live(tiles))
      ensures RestIsVictim(NULL, 0, p, old(dvsize), nb)
      ensures Book() == VictimShrunk(old(Book()), p + nb, p + old(dvsize))
    {
      hide Orderly, Filing, Tagged, TagsCut, Bins.Valid;
      ghost var was, t := Now(), tiles;
      DvFacts(t, base, limit, was, {});
      var rsize := dvsize - nb;
      p := dv;
      var dvs := dvsize;
      dv, dvsize := NULL, 0;
      ForgetDvOrderly(t, base, limit, was, {}, Now());
      assert {} + {p} == {p};
      if rsize >= MIN_CHUNK_SIZE {
        UseSplit(p, nb, dvs);
        ghost var mid := Now();
        dv, dvsize := p + nb, rsize;
        SetDvOrderly(tiles, base, limit, mid, {p + nb}, p + nb, Now());
        assert {p + nb} - {p + nb} == {};
      } else {
        UseWhole(p, dvs);
      }
    }

    /** replace_dv: the old designated victim is filed, and the pending chunk takes its place. */
    method ReplaceDv(p: Addr, s: nat)
      requires Held({p}) && IsFree(tiles, p) && s == tiles.size[p] && IsSmall(dvsize)
      modifies `smallbins, `dv, `dvsize, tree
      ensures Valid() && dv == p && dvsize == s && Book() == VictimReplaced(old(Book()), p, s)
    {
      hide Orderly, Filing, Tagged, TagsCut, Bins.Valid;
      ghost var was := Now();
      DvFacts(tiles, base, limit, was, {p});
      PendingOf(tiles, base, limit, was, {p}, p);
      var victim, dvs := dv, dvsize;
      dv, dvsize := NULL, 0;
      if dvs != 0 {
        ForgetDvOrderly(tiles, base, limit, was, {p}, Now());
        InsertChunk(victim, dvs, {p} + {victim});
        assert {p} + {victim} - {victim} == {p};
      }
      ghost var mid := Now();
      dv, dvsize := p, s;
      SetDvOrderly(tiles, base, limit, mid, {p}, p, Now());
      assert {p} - {p} == {};
    }

    /** The first chunk of small bin `i` is used, as a whole if too little would be left of it. */
    method UseSmall(i: nat, nb: nat) returns (p: Addr)
      requires Valid() && i < |smallbins| == 32 && smallbins[i] != [] && MIN_CHUNK_SIZE <= nb <= 8 * i &&
        nb % 8 == 0 && dvsize < nb
      modifies `head, `prevFoot, `smallbins, `dv, `dvsize, `tiles, tree
      ensures Valid() && p != NULL && Allocated(old(Live(tiles)), p, nb, Live(tiles))
      ensures |old(smallbins)[i]| > 0 && p == old(smallbins)[i][0]
      ensures RestIsVictim(old(dv), old(dvsize), p, 8 * i, nb)
      ensures nb < MIN_LARGE_SIZE ==> Book() == ServedFiled(old(Book()), nb, p, 8 * i)
    {
      hide Orderly, Filing, Tagged, TagsCut, Bins.Valid;
      p := smallbins[i][0];
      FirstOfBin(tiles, base, limit, Now(), i);
      NullNotFree(tiles, base, limit, Now(), {});
      UnlinkChunk(p, 8 * i, {});
      assert {} + {p} == {p};
      var rsize := 8 * i - nb;
      if rsize < MIN_CHUNK_SIZE {
        UseWhole(p, 8 * i);
      } else {
        UseSplit(p, nb, 8 * i);
        ReplaceDv(p + nb, rsize);
      }
    }

    /** The first chunk of small bin `i` is used as a whole. */
    method TakeSmall(i: nat) returns (p: Addr)
      requires Valid() && i < |smallbins| == 32 && smallbins[i] != []
      modifies `head, `smallbins, `tiles, tree
      ensures Valid() && p != NULL && p !in old(Live(tiles)) && Live(tiles) == old(Live(tiles))[p := 8 * i]
      ensures |old(smallbins)[i]| > 0 && p == old(smallbins)[i][0] && Book() == Taken(old(Book()), p, 8 * i)
    {
      hide Orderly, Filing, Tagged, TagsCut, Bins.Valid;
      NullNotFree(tiles, base, limit, Now(), {});
      p := smallbins[i][0];
      FirstOfBin(tiles, base, limit, Now(), i);
      UnlinkChunk(p, 8 * i, {});
      assert {} + {p} == {p};
      UseWhole(p, 8 * i);
    }

    /** tmalloc_small: the smallest large chunk serves a small request. */
    method UseSmallestLarge(nb: nat) returns (p: Addr)
      requires Valid() && tree.treemap != {} && MIN_CHUNK_SIZE <= nb < MIN_LARGE_SIZE && nb % 8 == 0 && dvsize < nb
      requires |smallbins| == 32 && forall k :: nb / 8 <= k < 32 ==> smallbins[k] == []
      modifies `head, `prevFoot, `smallbins, `dv, `dvsize, `tiles, tree
      ensures Valid() && p != NULL && Allocated(old(Live(tiles)), p, nb, Live(tiles))
      ensures Chosen(old(tiles), old(Now()), nb, p)
      ensures p in old(tree.size) && SizeOf(old(tiles), p) == old(tree.size)[p]
      ensures RestIsVictim(old(dv), old(dvsize), p, old(tree.size)[p], nb)
      ensures ServedInTurn(old(Book()), old(tiles), p) && Book() == Served(old(Book()), old(tiles), nb, p)
    {
      hide Orderly, Filing, Tagged, TagsCut, Bins.Valid;
      NullNotFree(tiles, base, limit, Now(), {});
      var rsize;
      p, rsize := tree.SmallestFit(nb);
      LargeIsFree(tiles, base, limit, Now(), p);
      LargeChosen(tiles, base, limit, Now(), nb, p);
      UnlinkChunk(p, rsize + nb, {});
      assert {} + {p} == {p};
      if rsize < MIN_CHUNK_SIZE {
        UseWhole(p, rsize + nb);
      } else {
        UseSplit(p, nb, rsize + nb);
        ReplaceDv(p + nb, rsize);
      }
    }

    /** The filed chunk `p` serves the request; a remainder is filed. */
    method UseFiled(p: Addr, nb: nat, rsize: nat)
      requires Valid() && ToFile(tiles, dv, {}, p) && tiles.size[p] == rsize + nb && MIN_CHUNK_SIZE <= nb && nb % 8 == 0
      modifies `head, `prevFoot, `smallbins, `tiles, tree
      ensures Valid() && Allocated(old(Live(tiles)), p, nb, Live(tiles))
      ensures MIN_LARGE_SIZE <= nb ==> Book() == ServedFiled(old(Book()), nb, p, rsize + nb)
    {
      hide Orderly, Filing, Tagged, TagsCut, Bins.Valid;
      UnlinkChunk(p, rsize + nb, {});
      assert {} + {p} == {p};
      if rsize < MIN_CHUNK_SIZE {
        UseWhole(p, rsize + nb);
      } else {
        UseSplit(p, nb, rsize + nb);
        InsertChunk(p + nb, rsize, {p + nb});
        assert {p + nb} - {p + nb} == {};
      }
    }

    /** tmalloc_large: the best fitting large chunk serves a large request, unless the victim fits as well. */
    method UseLarge(nb: nat) returns (p: Addr)
      requires Valid() && MIN_LARGE_SIZE <= nb < TWO_64 && nb % 8 == 0
      modifies `head, `prevFoot, `smallbins, `tiles, tree
      ensures Valid() && (p != NULL ==> Allocated(old(Live(tiles)), p, nb, Live(tiles)))
      ensures p != NULL ==> Chosen(old(tiles), old(Now()), nb, p)
      ensures p == NULL ==> tiles == old(tiles) && Now() == old(Now()) && NonePreferred(tiles, Now(), nb)
      ensures p == NULL ==> tree.Fields() == old(tree.Fields()) && Book() == old(Book())
      ensures p != NULL ==> ServedInTurn(old(Book()), old(tiles), p) && Book() == Served(old(Book()), old(tiles), nb, p)
    {
      hide Orderly, Filing, Tagged, TagsCut, Bins.Valid, Chosen, NonePreferred, Allocated, InBin, TreeIndexOf, Live;
      var rsize;
      StoreBounds(tiles, base, limit, Now());
      p, rsize := tree.BestFit(nb, dvsize);
      if nb < TWO_40 {
        IndexInBin(nb);
      }
      if p != NULL {
        LargeIsFree(tiles, base, limit, Now(), p);
        LargeChosen(tiles, base, limit, Now(), nb, p);
        UseFiled(p, nb, rsize);
      } else {
        NoneIsPreferred(tiles, base, limit, Now(), nb);
      }
    }

    /** The part of malloc that serves a small request from the bins. */
    method SmallFromBins(nb: nat) returns (p: Addr)
      requires Valid() && MIN_CHUNK_SIZE <= nb <= MAX_SMALL_REQUEST + CHUNK_OVERHEAD && nb % 8 == 0
      modifies `head, `prevFoot, `smallbins, `dv, `dvsize, `tiles, tree
      ensures Valid() && (p != NULL ==> Allocated(old(Live(tiles)), p, nb, Live(tiles)))
      ensures p != NULL ==> Chosen(old(tiles), old(Now()), nb, p)
      ensures p == NULL ==> tiles == old(tiles) && Now() == old(Now()) && NonePreferred(tiles, Now(), nb)
      ensures p == NULL ==> tree.Fields() == old(tree.Fields()) && Book() == old(Book())
      ensures p != NULL ==> ServedInTurn(old(Book()), old(tiles), p) && Book() == Served(old(Book()), old(tiles), nb, p)
      ensures p != NULL ==> RestIsVictim(old(dv), old(dvsize), p, SizeOf(old(tiles), p), nb)
    {
      hide Orderly, Filing, Tagged, TagsCut, Bins.Valid, Chosen, NonePreferred, Served, ServedInTurn, Rings;
      StoreBounds(tiles, base, limit, Now());
      var idx := nb / 8;
      if smallbins[idx] != [] || (idx + 1 < 32 && smallbins[idx + 1] != []) {
        idx := if smallbins[idx] != [] then idx else idx + 1;
        SmallBinChosen(tiles, base, limit, Now(), nb, idx);
        SmallServed(tiles, base, limit, Now(), Book(), nb, idx);
        p := TakeSmall(idx);
      } else if nb > dvsize {
        var i := FirstNonempty(smallbins, idx);
        if i < 32 {
          SmallBinChosen(tiles, base, limit, Now(), nb, i);
          SmallServed(tiles, base, limit, Now(), Book(), nb, i);
          p := UseSmall(i, nb);
        } else if tree.treemap != {} {
          p := UseSmallestLarge(nb);
        } else {
          tree.NothingMarked();
          NoneIsPreferred(tiles, base, limit, Now(), nb);
          p := NULL;
        }
      } else {
        NoneIsPreferred(tiles, base, limit, Now(), nb) by { StoreLarge(tiles, base, limit, Now()); }
        p := NULL;
      }
    }

    /** The part of malloc that serves a large request from the tree bins. */
    method LargeFromBins(nb: nat) returns (p: Addr)
      requires Valid() && MIN_LARGE_SIZE <= nb < TWO_64 && nb % 8 == 0
      modifies `head, `prevFoot, `smallbins, `tiles, tree
      ensures Valid() && (p != NULL ==> Allocated(old(Live(tiles)), p, nb, Live(tiles)))
      ensures p != NULL ==> Chosen(old(tiles), old(Now()), nb, p)
      ensures p == NULL ==> tiles == old(tiles) && Now() == old(Now()) && NonePreferred(tiles, Now(), nb)
      ensures p == NULL ==> tree.Fields() == old(tree.Fields()) && Book() == old(Book())
      ensures p != NULL ==> ServedInTurn(old(Book()), old(tiles), p) && Book() == Served(old(Book()), old(tiles), nb, p)
    {
      hide Orderly, Filing, Tagged, TagsCut, Bins.Valid, Allocated, Chosen, NonePreferred;
      StoreBounds(tiles, base, limit, Now());
      p := NULL;
      if tree.treemap != {} {
        p := UseLarge(nb);
      } else {
        tree.NothingMarked();
        NoneIsPreferred(tiles, base, limit, Now(), nb);
      }
    }

    /**
     * The victim once the chunk `p` of the row `t` serves a request: a small request from
     * a bin leaves it the rest, its own use shrinks it, and nothing else changes it.
     */
    ghost predicate VictimLeft(victim: Addr, size: nat, t: Tiles, nb: nat, p: Addr)
      reads this
    {
      if ToFile(t, victim, {}, p) && nb < MIN_LARGE_SIZE then RestIsVictim(victim, size, p, SizeOf(t, p), nb)
      else if p == victim then RestIsVictim(NULL, 0, p, size, nb)
      else dv == victim && dvsize == size
    }

    /** What malloc falls back on when it takes nothing from the bins. */
    method UseDvOrTop(nb: nat) returns (p: Addr)
      requires Valid() && NonePreferred(tiles, Now(), nb)
      requires nb <= dvsize || nb < topsize ==> MIN_CHUNK_SIZE <= nb && nb % 8 == 0
      modifies `head, `prevFoot, `dv, `dvsize, `top, `topsize, `tiles
      ensures Valid() && (p == NULL <==> old(dvsize) < nb && old(topsize) <= nb)
      ensures p != NULL ==> Allocated(old(Live(tiles)), p, nb, Live(tiles)) && Chosen(old(tiles), old(Now()), nb, p)
      ensures p != NULL ==> ServedInTurn(old(Book()), old(tiles), p) && Book() == Served(old(Book()), old(tiles), nb, p)
      ensures p == NULL ==> tiles == old(tiles) && Now() == old(Now())
      ensures p == NULL ==> Book() == old(Book())
    {
      hide Orderly, Filing, Tagged, TagsCut, Bins.Valid, Allocated, NonePreferred, Served, ServedInTurn, Rings, Live;
      NotFiled(tiles, base, limit, Now());
      TopFacts(tiles, base, limit, Now(), {});
      HeaderOf(tiles, base, limit, Now(), {}, top);
      DvFacts(tiles, base, limit, Now(), {});
      p := NULL;
      if nb <= dvsize {
        VictimServed(tiles, base, limit, Now(), Book(), nb);
        p := UseDv(nb);
      } else if nb < topsize {
        TopServed(tiles, base, limit, Now(), Book(), nb);
        p := SplitTop(nb);
      }
    }

    /** malloc, where the system gives no more memory: the payload, or 0 when nothing fits. */
    method Malloc(bytes: nat) returns (mem: Addr)
      requires Valid() && bytes < TWO_64
      modifies `head, `prevFoot, `smallbins, `dv, `dvsize, `top, `topsize, `tiles, tree
      ensures Valid()
      ensures mem != NULL ==>
        TWO_WORDS <= mem && Allocated(old(Live(tiles)), mem - TWO_WORDS, RequestSize(bytes), Live(tiles))
      ensures mem != NULL ==> Chosen(old(tiles), old(Now()), RequestSize(bytes), mem - TWO_WORDS)
      ensures mem != NULL ==>
        var b, t, p := old(Book()), old(tiles), mem - TWO_WORDS;
        ServedInTurn(b, t, p) && Book() == Served(b, t, RequestSize(bytes), p)
      ensures mem != NULL ==> VictimLeft(old(dv), old(dvsize), old(tiles), RequestSize(bytes), mem - TWO_WORDS)
      ensures mem % 8 == 0
      ensures mem == NULL ==> NothingFits(tiles, RequestSize(bytes), limit)
      ensures mem == NULL ==> Book() == old(Book())
      ensures mem == NULL ==> tiles == old(tiles) && Now() == old(Now()) && tree.Fields() == old(tree.Fields())
    {
      hide Orderly, Filing, Tagged, TagsCut, Bins.Valid, Allocated, NothingFits, Live, NonePreferred, Served,
        ServedInTurn, Rings, VictimLeft, Chosen;
      StoreBounds(tiles, base, limit, Now());
      var p: Addr := NULL;
      var nb;
      SizesOf(bytes);
      hide PadRequest, RequestSize;
      if bytes <= MAX_SMALL_REQUEST {
        nb := RequestSize(bytes);
        p := SmallFromBins(nb);
      } else if bytes >= MAX_REQUEST {
        nb := TWO_64 - 1;
        NoneSoLarge(tiles, base, limit, Now(), nb);
        NoneSoLarge(tiles, base, limit, Now(), RequestSize(bytes));
      } else {
        nb := PadRequest(bytes);
        p := LargeFromBins(nb);
      }
      if p == NULL {
        p := UseDvOrTop(nb);
        if p == NULL {
          NoneFits(tiles, base, limit, Now(), RequestSize(bytes));
          return NULL;
        }
      }
      AllocatedIsChunk(tiles, base, limit, Now(), old(Live(tiles)), p, nb);
      VictimIsLeft(old(Book()), old(tiles), old(Now()), nb, p);
      return p + TWO_WORDS;
    }

    lemma VictimIsLeft(b: Books, t: Tiles, s: Store, nb: nat, p: Addr)
      requires Orderly(t, base, limit, s, {}) && HeapPolicy.Kept(s, b) && Book() == Served(b, t, nb, p) && p != NULL
      ensures VictimLeft(b.dv, b.dvsize, t, nb, p)
    {
      DvFacts(t, base, limit, s, {});
      NotFiled(t, base, limit, s);
      ServedVictim(b, t, nb, p);
      hide Orderly, Served, Rings;
    }

    /** A stretch with the chunk `p` becomes a free chunk, which is put into a bin. */
    method FreeAndFile(q: Addr, e: Addr, ghost p: Addr, ghost pending: set<Addr>)
      requires Held(pending) && Stretch(tiles, q, p, e) && pending == FreeIn(tiles, q, e) &&
        (dv == NULL || dv < q || e <= dv)
      requires (PrevUsed(tiles, base, p) || q < p) && e in tiles.used && q < e && e in head && e in tiles.size
      modifies `head, `prevFoot, `smallbins, `tiles, tree
      ensures Valid() && Live(tiles) == old(Live(tiles)) - {p} && Book() == Merged(old(Book()), q, e, false)
    {
      hide Orderly, Filing, Tagged, TagsCut, Bins.Valid, Added, Rings;
      ghost var was, t := Now(), tiles;
      StretchFacts(t, base, limit, was, pending, q, p, e);
      head := head[q := Head(e - q, true, false)];
      head := head[e := head[e].(pinuse := false)];
      prevFoot := prevFoot[e := e - q];
      tiles := Cut(t, q, e, e, false, false);
      CoalesceOrderly(t, base, limit, was, pending, q, p, e, tiles, Now());
      InsertChunk(q, e - q, {q});
      assert {q} - {q} == {};
    }

    /** A stretch with the chunk `p` and the designated victim becomes the designated victim. */
    method FreeIntoDv(q: Addr, e: Addr, ghost p: Addr, ghost pending: set<Addr>)
      requires Held(pending) && Stretch(tiles, q, p, e) && dv in FreeIn(tiles, q, e) &&
        pending == FreeIn(tiles, q, e) - {dv}
      requires (PrevUsed(tiles, base, p) || q < p) && e in tiles.used && q < e && e in head && e in tiles.size
      modifies `head, `prevFoot, `dv, `dvsize, `tiles
      ensures Valid() && Live(tiles) == old(Live(tiles)) - {p} && Book() == Merged(old(Book()), q, e, true)
    {
      hide Orderly, Filing, Tagged, TagsCut, Bins.Valid;
      ghost var was, t := Now(), tiles;
      StretchFacts(t, base, limit, was, pending, q, p, e);
      dv, dvsize := q, e - q;
      head := head[q := Head(e - q, true, false)];
      head := head[e := head[e].(pinuse := false)];
      prevFoot := prevFoot[e := e - q];
      tiles := Cut(t, q, e, e, false, false);
      CoalesceDvOrderly(t, base, limit, was, pending, q, p, e, tiles, Now());
    }

    /** A stretch with the chunk `p` before the top chunk becomes part of that. */
    method FreeIntoTop(q: Addr, ghost p: Addr, ghost pending: set<Addr>)
      requires Held(pending) && Stretch(tiles, q, p, top) && pending == FreeIn(tiles, q, top) - {dv}
      requires PrevUsed(tiles, base, p) || q < p
      modifies `head, `dv, `dvsize, `top, `topsize, `tiles
      ensures Valid() && Live(tiles) == old(Live(tiles)) - {p}
      ensures Book() == if q == old(dv) then old(Book()).(dv := NULL, dvsize := 0) else old(Book())
    {
      hide Orderly, Filing, Tagged, TagsCut, Bins.Valid, Live, Stretch, Rings, Cut, CutTop;
      ghost var was, t := Now(), tiles;
      TopStretch(t, base, limit, was, pending, q, p);
      StretchFacts(t, base, limit, was, pending, q, p, top);
      DvFacts(t, base, limit, was, pending);
      topsize := topsize + (top - q);
      top := q;
      head := head[q := Head(topsize, true, false)];
      tiles := CutTop(t, limit, q, q);
      if q == dv {
        dv, dvsize := NULL, 0;
        CoalesceTopDvOrderly(t, base, limit, was, pending, q, p, tiles, Now());
      } else {
        CoalesceTopOrderly(t, base, limit, was, pending, q, p, tiles, Now());
      }
    }

    /** What free does once it knows the free chunk before `p`: merge with what comes after it. */
    method FreeForward(q: Addr, next: Addr, ghost p: Addr, ghost pending: set<Addr>)
      requires Held(pending) && Stretch(tiles, q, p, next) && pending == (if q < p && q != dv then {q} else {})
      requires (PrevUsed(tiles, base, p) || q < p) && next == p + tiles.size[p] && next in head
      requires q == dv ==> !head[next].cinuse
      modifies `head, `prevFoot, `smallbins, `dv, `dvsize, `top, `topsize, `tiles, tree
      ensures Valid() && Live(tiles) == old(Live(tiles)) - {p}
      ensures Book() == FreedUpTo(old(Book()), old(tiles), q, next)
    {
      hide Orderly, Filing, Tagged, TagsCut, Bins.Valid, FreeIn, Merged, Taken, Rings;
      ghost var was, t := Now(), tiles;
      HeaderOf(t, base, limit, was, pending, next);
      NextTells(t, base, limit, was, pending, next);
      DvFacts(t, base, limit, was, pending);
      StretchFacts(t, base, limit, was, pending, q, p, next);
      if head[next].cinuse {
        DvOutside(t, base, limit, was, pending, q, next);
        FreeAndFile(q, next, p, pending);
      } else if next == top {
        FreeIntoTop(q, p, pending);
      } else {
        FreeChunk(t, base, limit, was, pending, next);
        var e := next + head[next].size;
        StretchFacts(t, base, limit, was, pending, q, p, e);
        if next == dv {
          FreeIntoDv(q, e, p, pending);
        } else {
          UnlinkChunk(next, head[next].size, pending);
          if q == dv {
            FreeIntoDv(q, e, p, pending + {next});
          } else {
            DvOutside(t, base, limit, was, pending, q, e);
            FreeAndFile(q, e, p, pending + {next});
          }
        }
      }
    }

    /** A chunk in use is merged with the free chunks around it. */
    method DisposeChunk(p: Addr, psize: nat)
      requires Valid() && p in Live(tiles) && psize == Live(tiles)[p]
      modifies `head, `prevFoot, `smallbins, `dv, `dvsize, `top, `topsize, `tiles, tree
      ensures Valid() && Live(tiles) == old(Live(tiles)) - {p}
      ensures Book() == Freed(old(Book()), old(tiles), p)
    {
      hide Orderly, Filing, Tagged, TagsCut, Bins.Valid, FreeFrom, Merged, Taken, Rings;
      ghost var was := Now();
      HeaderOf(tiles, base, limit, was, {}, p);
      UsedIsNotTop(tiles, base, limit, was, {}, p);
      DvFacts(tiles, base, limit, was, {});
      var next := p + psize;
      HeaderOf(tiles, base, limit, was, {}, next);
      var q := p;
      if !head[p].pinuse {
        BackFacts(tiles, base, limit, was, {}, p);
        q := p - prevFoot[p];
        FreeBefore(tiles, base, limit, was, {}, p, q);
        if q != dv {
          UnlinkChunk(q, prevFoot[p], {});
          assert {} + {q} == {q};
        } else if head[next].pinuse && head[next].cinuse {
          StretchFacts(tiles, base, limit, was, {}, q, p, next);
          NextTells(tiles, base, limit, was, {}, next);
          FreeIntoDv(q, next, p, {});
          return;
        }
      } else {
        NothingBefore(tiles, base, limit, was, {}, p);
      }
      FreeForward(q, next, p, if q < p && q != dv then {q} else {});
    }

    /** free: the chunk of the payload is in use no more. */
    method Free(mem: Addr)
      requires Valid() && (mem != NULL ==> TWO_WORDS <= mem && mem - TWO_WORDS in Live(tiles))
      modifies `head, `prevFoot, `smallbins, `dv, `dvsize, `top, `topsize, `tiles, tree
      ensures Valid() && Live(tiles) == old(Live(tiles)) - if mem == NULL then {} else {mem - TWO_WORDS}
      ensures Book() == if mem == NULL then old(Book()) else Freed(old(Book()), old(tiles), mem - TWO_WORDS)
      ensures mem != NULL ==>
        var t, p := old(tiles), mem - TWO_WORDS;
        VictimTakesIn(old(Book()), t, FreeFrom(t, p), p + SizeOf(t, p), Book())
    {
      hide Orderly, Filing, Tagged, Bins.Valid, Freed, FreeFrom, Rings, VictimTakesIn;
      if mem != NULL {
        HeaderOf(tiles, base, limit, Now(), {}, mem - TWO_WORDS);
        UsedIsNotTop(tiles, base, limit, Now(), {}, mem - TWO_WORDS);
        FreedVictim(Book(), tiles, mem - TWO_WORDS);
        DisposeChunk(mem - TWO_WORDS, head[mem - TWO_WORDS].size);
      }
    }

    /** The owner of a payload writes its last word, where the next chunk has its prev_foot. */
    method WriteLastWord(mem: Addr, v: nat)
      requires Valid() && TWO_WORDS <= mem && mem - TWO_WORDS in Live(tiles)
      modifies `prevFoot
      ensures Valid() && prevFoot == old(prevFoot)[mem - TWO_WORDS + Live(tiles)[mem - TWO_WORDS] := v]
    {
      hide Orderly;
      var p := mem - TWO_WORDS;
      ghost var was := Now();
      HeaderOf(tiles, base, limit, was, {}, p);
      prevFoot := prevFoot[p + head[p].size := v];
      PayloadMayOverlap(tiles, base, limit, was, {}, p, v, Now());
    }

    /** All of the stretch from `p` to `e` becomes the chunk `p`. */
    method TakeAll(p: Addr, e: Addr, ghost pending: set<Addr>)
      requires Held(pending) && Stretch(tiles, p, p, e) && pending == FreeIn(tiles, p, e) &&
        (dv == NULL || dv < p || e <= dv)
      modifies `head, `tiles
      ensures Valid() && p < e && Live(tiles) == old(Live(tiles))[p := e - p]
    {
      hide Orderly, Filing, Tagged, TagsCut, Bins.Valid, Stretch, Live, FreeIn;
      ghost var was, t := Now(), tiles;
      StretchFacts(t, base, limit, was, pending, p, p, e);
      head := head[p := Head(e - p, head[p].pinuse, true)];
      head := head[e := head[e].(pinuse := true)];
      tiles := Cut(t, p, e, e, true, false);
      ResizeOrderly(t, base, limit, was, pending, p, e, e, false, tiles, Now());
    }

    /** The stretch from `p` to `e` becomes the chunk `p` up to `r` and another chunk in use. */
    method TakeBoth(p: Addr, r: Addr, e: Addr, ghost pending: set<Addr>)
      requires Held(pending) && Stretch(tiles, p, p, e) && pending == FreeIn(tiles, p, e) &&
        (dv == NULL || dv < p || e <= dv)
      requires p + MIN_CHUNK_SIZE <= r && r + MIN_CHUNK_SIZE <= e && r % 8 == 0
      modifies `head, `tiles
      ensures Valid() && Live(tiles) == old(Live(tiles))[p := r - p][r := e - r] && r !in old(Live(tiles))
      ensures p in old(tiles).size && e in old(tiles).size && tiles == Cut(old(tiles), p, r, e, true, true)
    {
      hide Orderly, Filing, Tagged, TagsCut, Bins.Valid, Stretch, Live, FreeIn;
      ghost var was, t := Now(), tiles;
      StretchFacts(t, base, limit, was, pending, p, p, e);
      head := head[p := Head(r - p, head[p].pinuse, true)];
      head := head[r := Head(e - r, true, true)];
      head := head[e := head[e].(pinuse := true)];
      tiles := Cut(t, p, r, e, true, true);
      ResizeOrderly(t, base, limit, was, pending, p, r, e, true, tiles, Now());
    }

    /**
     * The chunk `p`, with the free chunk after it if that has been taken out of its
     * bin, is cut to `nb` bytes, and the rest is freed.
     */
    method Trim(p: Addr, nb: nat, e: Addr, ghost pending: set<Addr>)
      requires Held(pending) && Stretch(tiles, p, p, e) && pending == FreeIn(tiles, p, e) &&
        (dv == NULL || dv < p || e <= dv)
      requires MIN_CHUNK_SIZE <= nb && p + nb <= e && nb % 8 == 0
      modifies `head, `prevFoot, `smallbins, `dv, `dvsize, `top, `topsize, `tiles, tree
      ensures Valid() && Resized(old(Live(tiles)), p, nb, Live(tiles))
      ensures Book() == Trimmed(old(Book()), old(tiles), p, nb, e)
      ensures VictimTakesRest(old(Book()), old(tiles), p, nb, e, Book())
    {
      hide Orderly, Filing, Tagged, TagsCut, Bins.Valid, Stretch, Live, FreeIn, Freed, Trimmed, Cut, Rings,
        VictimTakesIn;
      ghost var l := Live(tiles);
      HeaderOf(tiles, base, limit, Now(), pending, p) by { StretchStart(tiles, p, e); }
      TrimmedIs(Book(), tiles, p, nb, e) by {
        StretchStart(tiles, p, e);
        StretchFacts(tiles, base, limit, Now(), pending, p, p, e);
      }
      var rsize := e - (p + nb);
      if rsize >= MIN_CHUNK_SIZE {
        var r := p + nb;
        TakeBoth(p, r, e, pending);
        RestVictim(Book(), old(tiles), p, r, e, tiles, base, limit, Now());
        DisposeChunk(r, rsize);
        assert l[p := nb][r := rsize] - {r} == l[p := nb];
      } else {
        TakeAll(p, e, pending);
      }
    }

    /** The designated victim after the chunk `p` is used up by it. */
    method ExhaustDv(p: Addr, e: Addr)
      requires Valid() && Stretch(tiles, p, p, e) && dv in FreeIn(tiles, p, e)
      modifies `head, `dv, `dvsize, `tiles
      ensures Valid() && p < e && Live(tiles) == old(Live(tiles))[p := e - p]
      ensures Book() == old(Book()).(dv := NULL, dvsize := 0)
    {
      hide Orderly, Filing, Tagged, TagsCut, Bins.Valid, Stretch, Live, FreeIn;
      ghost var was, t := Now(), tiles;
      StretchFacts(t, base, limit, was, {}, p, p, e);
      VictimAfter(t, base, limit, was, p, e);
      head := head[p := Head(e - p, head[p].pinuse, true)];
      head := head[e := head[e].(pinuse := true)];
      dv, dvsize := NULL, 0;
      tiles := Cut(t, p, e, e, true, false);
      ResizeDvOrderly(t, base, limit, was, p, e, e, tiles, Now());
    }

    /** The designated victim after the chunk `p` gives up its first part, up to `r`. */
    method ShrinkDv(p: Addr, r: Addr, e: Addr)
      requires Valid() && Stretch(tiles, p, p, e) && dv in FreeIn(tiles, p, e)
      requires p + MIN_CHUNK_SIZE <= r && r + MIN_CHUNK_SIZE <= e && r % 8 == 0
      modifies `head, `prevFoot, `dv, `dvsize, `tiles
      ensures Valid() && Live(tiles) == old(Live(tiles))[p := r - p]
      ensures Book() == old(Book()).(dv := r, dvsize := e - r)
    {
      hide Orderly, Filing, Tagged, TagsCut, Bins.Valid, Stretch, Live, FreeIn, Rings, Cut;
      ghost var was, t := Now(), tiles;
      StretchFacts(t, base, limit, was, {}, p, p, e);
      VictimAfter(t, base, limit, was, p, e);
      head := head[p := Head(r - p, head[p].pinuse, true)];
      head := head[r := Head(e - r, true, false)];
      prevFoot := prevFoot[e := e - r];
      head := head[e := head[e].(pinuse := false)];
      dv, dvsize := r, e - r;
      tiles := Cut(t, p, r, e, true, false);
      ResizeDvOrderly(t, base, limit, was, p, r, e, tiles, Now());
    }

    /** The chunk `p` grows into the designated victim after it. */
    method GrowIntoDv(p: Addr, nb: nat, e: Addr)
      requires Valid() && Stretch(tiles, p, p, e) && dv in FreeIn(tiles, p, e) && MIN_CHUNK_SIZE <= nb &&
        p + nb <= e && nb % 8 == 0
      modifies `head, `prevFoot, `dv, `dvsize, `tiles
      ensures Valid() && Resized(old(Live(tiles)), p, nb, Live(tiles))
      ensures Book() == VictimShrunk(old(Book()), p + nb, e)
      ensures RestBecomesVictim(old(Book()).(dv := NULL, dvsize := 0), nb, p, e - p, Book())
    {
      hide Orderly, Filing, Tagged, TagsCut, Bins.Valid, Stretch, Live, FreeIn;
      HeaderOf(tiles, base, limit, Now(), {}, p) by { StretchStart(tiles, p, e); }
      if e - (p + nb) >= MIN_CHUNK_SIZE {
        ShrinkDv(p, p + nb, e);
      } else {
        ExhaustDv(p, e);
      }
    }

    /** The chunk `p` grows into the top chunk after it. */
    method GrowIntoTop(p: Addr, nb: nat)
      requires Valid() && Stretch(tiles, p, p, top) && top == p + tiles.size[p] && MIN_CHUNK_SIZE <= nb &&
        p + nb < limit && nb % 8 == 0
      modifies `head, `top, `topsize, `tiles
      ensures Valid() && Resized(old(Live(tiles)), p, nb, Live(tiles))
    {
      hide Orderly, Filing, Tagged, TagsCut, Bins.Valid, Live, Stretch, FreeIn;
      ghost var was, t := Now(), tiles;
      StretchStart(t, p, top);
      HeaderOf(t, base, limit, was, {}, p);
      var newtopsize: nat := head[p].size + topsize - nb;
      head := head[p := Head(nb, head[p].pinuse, true)];
      top := p + nb;
      topsize := newtopsize;
      head := head[top := Head(newtopsize, true, false)];
      tiles := CutTop(t, limit, p, p + nb);
      ResizeTopOrderly(t, base, limit, was, p, p + nb, tiles, Now());
    }

    /** try_realloc_chunk: gives the chunk `p` room for `nb` bytes where it is, if there is room. */
    method TryRealloc(p: Addr, nb: nat) returns (ok: bool)
      requires Valid() && p in Live(tiles) && MIN_CHUNK_SIZE <= nb && nb % 8 == 0
      modifies `head, `prevFoot, `smallbins, `dv, `dvsize, `top, `topsize, `tiles, tree
      ensures Valid() && (ok ==> Resized(old(Live(tiles)), p, nb, Live(tiles)))
      ensures ok <==> !NoRoom(old(tiles), p, nb, limit)
      ensures ok ==> Book() == InPlace(old(Book()), old(tiles), p, nb)
      ensures ok ==> VictimInPlace(old(Book()), old(tiles), p, nb, Book())
      ensures !ok ==> Book() == old(Book())
      ensures !ok ==> tiles == old(tiles) && Now() == old(Now()) && tree.Fields() == old(tree.Fields())
    {
      hide Orderly, Filing, Tagged, TagsCut, Bins.Valid, FreeIn, Resized, Trimmed, Taken, VictimShrunk, Rings,
        VictimTakesRest;
      ghost var was, t := Now(), tiles;
      HeaderOf(t, base, limit, was, {}, p);
      UsedIsNotTop(t, base, limit, was, {}, p);
      DvFacts(t, base, limit, was, {});
      var oldsize := head[p].size;
      var next := p + oldsize;
      HeaderOf(t, base, limit, was, {}, next);
      NextTells(t, base, limit, was, {}, next);
      StretchFacts(t, base, limit, was, {}, p, p, next);
      ok := true;
      if oldsize >= nb {
        DvOutside(t, base, limit, was, {}, p, next);
        Trim(p, nb, next, {});
      } else if next == top {
        if oldsize + topsize > nb {
          GrowIntoTop(p, nb);
        } else {
          ok := false;
        }
      } else if !head[next].cinuse {
        var e := next + head[next].size;
        StretchFacts(t, base, limit, was, {}, p, p, e);
        if e - p < nb {
          ok := false;
        } else if next == dv {
          GrowIntoDv(p, nb, e);
        } else {
          UnlinkChunk(next, head[next].size, {});
          assert {} + {next} == {next};
          DvOutside(t, base, limit, was, {}, p, e);
          Trim(p, nb, e, {next});
          TakenVictim(old(Book()), t, p, nb, e, Book(), next, SizeOf(t, next));
        }
      } else {
        ok := false;
      }
    }

    /** The books once another chunk `p` serves instead of the chunk `from`, which is then freed. */
    ghost predicate BookedMove(b: Books, t: Tiles, nb: nat, from: Addr, p: Addr)
      reads this, tree
    {
      exists t': Tiles :: Row(t', base, limit) && p in Live(t') && Live(t') == Live(t)[p := Live(t')[p]] &&
        Book() == Freed(Served(b, t, nb, p), t', from)
    }

    /** A new chunk takes the place of that of `oldmem`, if one can be had. */
    method MoveChunk(oldmem: Addr, bytes: nat) returns (mem: Addr)
      requires Valid() && bytes < MAX_REQUEST && TWO_WORDS <= oldmem && oldmem - TWO_WORDS in Live(tiles)
      modifies `head, `prevFoot, `smallbins, `dv, `dvsize, `top, `topsize, `tiles, tree
      ensures Valid() && mem != oldmem
      ensures mem == NULL ==> Book() == old(Book())
      ensures mem == NULL ==> tiles == old(tiles) && Now() == old(Now()) && tree.Fields() == old(tree.Fields())
      ensures mem == NULL ==> NothingFits(tiles, RequestSize(bytes), limit)
      ensures mem != NULL ==>
        && TWO_WORDS <= mem && Moved(old(Live(tiles)), oldmem, mem - TWO_WORDS, RequestSize(bytes), Live(tiles))
        && Chosen(old(tiles), old(Now()), RequestSize(bytes), mem - TWO_WORDS)
        && ServedInTurn(old(Book()), old(tiles), mem - TWO_WORDS)
        && BookedMove(old(Book()), old(tiles), RequestSize(bytes), oldmem - TWO_WORDS, mem - TWO_WORDS)
    {
      hide Orderly, Filing, Tagged, TagsCut, Bins.Valid, Served, ServedInTurn, Freed, Rings, Live, NothingFits, Chosen;
      mem := Malloc(bytes);
      if mem != NULL {
        ghost var t := tiles;
        RowOf(t, base, limit, Now(), {});
        Free(oldmem);
      }
    }

    /** realloc: the payload, perhaps elsewhere, has room for `bytes` bytes; 0 when it stays as it is. */
    method Realloc(oldmem: Addr, bytes: nat) returns (mem: Addr)
      requires Valid() && bytes < TWO_64 && (oldmem != NULL ==>
        TWO_WORDS <= oldmem && oldmem - TWO_WORDS in Live(tiles))
      modifies `head, `prevFoot, `smallbins, `dv, `dvsize, `top, `topsize, `tiles, tree
      ensures Valid()
      ensures mem == NULL ==> Book() == old(Book())
      ensures mem == NULL ==> tiles == old(tiles) && Now() == old(Now()) && tree.Fields() == old(tree.Fields())
      ensures mem == NULL && bytes < MAX_REQUEST ==> NothingFits(tiles, RequestSize(bytes), limit)
      ensures oldmem != NULL && bytes < MAX_REQUEST ==>
        (mem == oldmem <==> !NoRoom(old(tiles), oldmem - TWO_WORDS, RequestSize(bytes), limit))
      ensures mem != NULL ==>
        TWO_WORDS <= mem && Moved(old(Live(tiles)), oldmem, mem - TWO_WORDS, RequestSize(bytes), Live(tiles))
      ensures mem != NULL ==>
        var b, t, nb := old(Book()), old(tiles), RequestSize(bytes);
        if mem == oldmem
        then Book() == InPlace(b, t, mem - TWO_WORDS, nb) && VictimInPlace(b, t, mem - TWO_WORDS, nb, Book())
        else
          && Chosen(t, old(Now()), nb, mem - TWO_WORDS)
          && ServedInTurn(b, t, mem - TWO_WORDS)
          && if oldmem == NULL then Book() == Served(b, t, nb, mem - TWO_WORDS)
             else BookedMove(b, t, nb, oldmem - TWO_WORDS, mem - TWO_WORDS)
    {
      hide Orderly, Filing, Tagged, TagsCut, Bins.Valid, Served, ServedInTurn, InPlace, BookedMove, Rings, Live,
        NothingFits, Chosen, NoRoom, VictimInPlace;
      if oldmem == NULL {
        mem := Malloc(bytes);
        return;
      } else if bytes >= MAX_REQUEST {
        return NULL;
      }
      var nb := RequestSize(bytes);
      var ok := TryRealloc(oldmem - TWO_WORDS, nb);
      if ok {
        return oldmem;
      }
      mem := MoveChunk(oldmem, bytes);
    }

    /** The chunk of `oldmem`, if any, is replaced by the chunk `p`, and the others are as before. */
    ghost predicate Moved(live: map<Addr, nat>, oldmem: Addr, p: Addr, nb: nat, live': map<Addr, nat>) {
      && p in live' && nb <= live'[p] < nb + MIN_CHUNK_SIZE
      && live' == (if TWO_WORDS <= oldmem then live - {oldmem - TWO_WORDS} else live)[p := live'[p]]
      && (p in live ==> TWO_WORDS <= oldmem && p == oldmem - TWO_WORDS)
    }
  }
}
