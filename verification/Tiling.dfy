/**
 * One segment of the heap as a row of chunks, each used or free, up to the top
 * chunk: what keeps the row gapless and free chunks apart, and what the header
 * words have to say about it.
 */
module Tiling {
  import opened TreeIndex
  import opened TreeLinks

  /** The chunks by address: their sizes, which are in use, and the chunk before each but the first. */
  datatype Tiles = Tiles(size: map<Addr, nat>, used: set<Addr>, prev: map<Addr, Addr>, top: Addr)

  /** The chunk at `a` is followed by another one, which is in use if `a` is free. */
  predicate NextOk(t: Tiles, a: Addr)
    requires a in t.size
  {
    a != t.top ==>
      && MIN_CHUNK_SIZE <= t.size[a] && a + t.size[a] in t.size
      && a + t.size[a] in t.prev && t.prev[a + t.size[a]] == a
      && (a in t.used || a + t.size[a] in t.used)
  }

  predicate PrevOk(t: Tiles, base: Addr, a: Addr)
    requires a in t.size
  {
    && base <= a
    && (a != base ==> a in t.prev && t.prev[a] in t.size && t.prev[a] != t.top && t.prev[a] + t.size[t.prev[a]] == a)
  }

  ghost predicate Row(t: Tiles, base: Addr, limit: Addr) {
    && base in t.size && t.top in t.size && 0 < t.size[t.top] && t.top + t.size[t.top] == limit
    && t.used <= t.size.Keys && t.top !in t.used
    && (forall a {:trigger NextOk(t, a)} :: a in t.size ==> NextOk(t, a))
    && (forall a {:trigger PrevOk(t, base, a)} :: a in t.size ==> PrevOk(t, base, a))
  }

  /** Chunks do not overlap. */
  lemma {:induction false} Disjoint(t: Tiles, base: Addr, limit: Addr, a: Addr, b: Addr)
    requires Row(t, base, limit) && a in t.size && b in t.size && a < b
    ensures a != t.top && a + t.size[a] <= b
    decreases b
  {
    assert PrevOk(t, base, a) && PrevOk(t, base, b);
    var p := t.prev[b];
    assert NextOk(t, p);
    if a < p {
      Disjoint(t, base, limit, a, p);
    } else if p < a {
      Disjoint(t, base, limit, p, a);
    }
  }

  predicate Holds(t: Tiles, a: Addr, x: Addr) {
    a in t.size && a <= x < a + t.size[a]
  }

  /** Every address of the segment is in exactly one chunk. */
  lemma {:induction false} EveryAddressInOneChunk(t: Tiles, base: Addr, limit: Addr, x: Addr)
    requires Row(t, base, limit) && base <= x < limit
    ensures exists a :: Holds(t, a, x)
    ensures forall a, b :: Holds(t, a, x) && Holds(t, b, x) ==> a == b
  {
    ChunkUpFrom(t, base, limit, base, x);
    forall a, b | Holds(t, a, x) && Holds(t, b, x) ensures a == b {
      if a < b {
        Disjoint(t, base, limit, a, b);
      } else if b < a {
        Disjoint(t, base, limit, b, a);
      }
    }
  }

  lemma {:induction false} ChunkUpFrom(t: Tiles, base: Addr, limit: Addr, a: Addr, x: Addr)
    requires Row(t, base, limit) && a in t.size && a <= x < limit
    ensures exists b :: Holds(t, b, x)
    decreases x - a
  {
    if x < a + t.size[a] {
      assert Holds(t, a, x);
    } else {
      assert NextOk(t, a);
      ChunkUpFrom(t, base, limit, a + t.size[a], x);
    }
  }

  // ---------------------------------------------------------------- cutting a stretch anew

  /** The stretch from `q` to `e` becomes a chunk up to `m` and, if that is before `e`, another one. */
  ghost predicate Recut(t: Tiles, q: Addr, m: Addr, e: Addr, first: bool, second: bool, t': Tiles) {
    && q in t.size && e in t.size && q < m <= e && t'.top == t.top
    && (forall a :: a in t'.size <==> a == m || (a in t.size && (a <= q || e <= a)))
    && (forall a <- t'.size :: t'.size[a] == if a == q then m - q else if a == m && m < e then e - m else t.size[a])
    && (forall a :: a in t'.used <==> if a == q then first else if a == m && m < e then second
      else a in t.used && (a < q || e <= a))
    && t'.prev == t.prev[m := q][e := if m < e then m else q]
  }

  ghost function CutSizes(t: Tiles, q: Addr, m: Addr, e: Addr): (size: map<Addr, nat>)
    requires q in t.size && e in t.size && q < m <= e
    ensures forall a :: a in size <==> a == m || (a in t.size && (a <= q || e <= a))
    ensures forall a <- size :: size[a] == if a == q then m - q else if a == m && m < e then e - m else t.size[a]
  {
    map a | a in t.size.Keys + {m} && (a == m || a <= q || e <= a) ::
      if a == q then m - q else if a == m && m < e then e - m else t.size[a]
  }

  ghost function CutUsed(t: Tiles, q: Addr, m: Addr, e: Addr, first: bool, second: bool): (used: set<Addr>)
    requires q < m <= e
    ensures forall a :: a in used <==> if a == q then first else if a == m && m < e then second
      else a in t.used && (a < q || e <= a)
  {
    set a | a in t.used + {q, m} &&
      (if a == q then first else if a == m && m < e then second else a in t.used && (a < q || e <= a))
  }

  ghost function Cut(t: Tiles, q: Addr, m: Addr, e: Addr, first: bool, second: bool): (t': Tiles)
    requires q in t.size && e in t.size && q < m <= e
    ensures Recut(t, q, m, e, first, second, t')
  {
    hide CutSizes, CutUsed;
    Tiles(CutSizes(t, q, m, e), CutUsed(t, q, m, e, first, second), t.prev[m := q][e := if m < e then m else q], t.top)
  }

  /** The chunks in use, with their sizes. */
  ghost function Live(t: Tiles): map<Addr, nat> {
    map a | a in t.used && a in t.size :: t.size[a]
  }

  lemma NextInUse(t: Tiles, base: Addr, limit: Addr, a: Addr)
    requires Row(t, base, limit) && a in t.size && a !in t.used && a != t.top
    ensures a + t.size[a] in t.used && a + t.size[a] in t.size && t.size[a] > 0
  {
    assert NextOk(t, a);
  }

  /** A chunk of one row is one of the other, as the chunks in use are the same. */
  lemma {:induction false} SameChunk(t: Tiles, t': Tiles, base: Addr, limit: Addr, a: Addr)
    requires Row(t, base, limit) && Row(t', base, limit) && Live(t) == Live(t') && a in t.size
    ensures a in t'.size && t'.size[a] == t.size[a] && (a in t.used <==> a in t'.used) && (a == t.top <==> a == t'.top)
    decreases a
  {
    assert PrevOk(t, base, a);
    if a != base {
      var p := t.prev[a];
      assert NextOk(t, p);
      SameChunk(t, t', base, limit, p);
      assert NextOk(t', p);
    }
    SameUse(t, t', base, limit, a);
    SameUse(t', t, base, limit, a);
  }

  lemma SameUse(t: Tiles, t': Tiles, base: Addr, limit: Addr, a: Addr)
    requires Row(t, base, limit) && Row(t', base, limit) && Live(t) == Live(t') && a in t.size && a in t'.size
    ensures a in t.used ==> a in t'.used && t'.size[a] == t.size[a]
    ensures a !in t.used && a != t.top ==> a != t'.top && t'.size[a] <= t.size[a]
    ensures a == t.top ==> a == t'.top && t'.size[a] == t.size[a]
  {
    if a in t.used {
      assert a in Live(t) && a in Live(t');
    } else {
      assert a !in Live(t) && a !in Live(t');
      if a != t.top {
        NextInUse(t, base, limit, a);
        var e := a + t.size[a];
        assert e in Live(t) && e in Live(t');
        Disjoint(t', base, limit, a, e);
      } else if a != t'.top {
        NextInUse(t', base, limit, a);
        var e := a + t'.size[a];
        assert e in Live(t') && e in Live(t);
        Disjoint(t, base, limit, a, e);
      }
    }
  }

  /** The chunks in use determine the row: where the free chunks and the top chunk are, and how large. */
  lemma LiveDetermines(t: Tiles, t': Tiles, base: Addr, limit: Addr)
    requires Row(t, base, limit) && Row(t', base, limit) && Live(t) == Live(t')
    ensures t.size == t'.size && t.used == t'.used && t.top == t'.top
  {
    forall a ensures a in t.size <==> a in t'.size {
      if a in t.size {
        SameChunk(t, t', base, limit, a);
      }
      if a in t'.size {
        SameChunk(t', t, base, limit, a);
      }
    }
    forall a <- t.size ensures t'.size[a] == t.size[a] && (a in t.used <==> a in t'.used) {
      SameChunk(t, t', base, limit, a);
    }
    SameChunk(t, t', base, limit, t.top);
  }

  /** Nothing but `q` is in use in the stretch from `q` to `e` that is cut anew. */
  lemma LiveAfterCut(t: Tiles, q: Addr, m: Addr, e: Addr, first: bool, t': Tiles, p: Addr)
    requires Recut(t, q, m, e, first, false, t') && (forall a <- t.used | a in t.size && a != p :: a < q || e <= a)
    requires q <= p < e
    ensures first && (p == q || p !in t.used) ==> Live(t') == Live(t)[q := m - q]
    ensures !first && p in t.used ==> Live(t') == Live(t) - {p}
    ensures !first && p !in t.used ==> Live(t') == Live(t)
  {
    var l, l' := Live(t), Live(t');
    forall a | a != q && a != p
      ensures a in l' <==> a in l
      ensures a in l ==> l'[a] == l[a]
    {
    }
  }

  /** A chunk in use keeps its place and gets another size; a second piece may be in use, too. */
  lemma LiveAfterResize(t: Tiles, q: Addr, m: Addr, e: Addr, second: bool, t': Tiles)
    requires Recut(t, q, m, e, true, second, t') && (forall a <- t.used | a in t.size && a != q :: a < q || e <= a)
    ensures !second || m == e ==> Live(t') == Live(t)[q := m - q]
    ensures second && m < e ==> Live(t') == Live(t)[q := m - q][m := e - m] && m !in Live(t)
  {
    var l, l' := Live(t), Live(t');
    forall a | a != q && a != m
      ensures a in l' <==> a in l
      ensures a in l ==> l'[a] == l[a]
    {
    }
  }

  /** The pieces are large enough, and a free one has neighbours in use. */
  predicate CutOk(t: Tiles, base: Addr, q: Addr, m: Addr, e: Addr, first: bool, second: bool)
  {
    && q + MIN_CHUNK_SIZE <= m && (m < e ==> m + MIN_CHUNK_SIZE <= e)
    && (!first ==> m == e && (q == base || (q in t.prev && t.prev[q] in t.used)))
    && (!(if m < e then second else first) ==> e in t.used)
  }

  lemma RecutNext(t: Tiles, base: Addr, limit: Addr, q: Addr, m: Addr, e: Addr, first: bool, second: bool, t': Tiles,
      a: Addr)
    requires Row(t, base, limit) && Recut(t, q, m, e, first, second, t') && CutOk(t, base, q, m, e, first, second)
    requires a in t'.size
    ensures NextOk(t', a)
  {
    if a != q && a != m && a != t.top {
      assert NextOk(t, a);
      assert PrevOk(t, base, a) && PrevOk(t, base, q);
      if a < q {
        Disjoint(t, base, limit, a, q);
      }
    } else if a == m == e {
      assert NextOk(t, e);
    }
  }

  lemma RecutPrev(t: Tiles, base: Addr, limit: Addr, q: Addr, m: Addr, e: Addr, first: bool, second: bool, t': Tiles,
      a: Addr)
    requires Row(t, base, limit) && Recut(t, q, m, e, first, second, t') && CutOk(t, base, q, m, e, first, second)
    requires a in t'.size
    ensures PrevOk(t', base, a)
  {
    assert PrevOk(t, base, q) && PrevOk(t, base, e);
    Disjoint(t, base, limit, q, e);
    if t.top < e {
      Disjoint(t, base, limit, t.top, e);
    }
    if a != m && a != e {
      assert PrevOk(t, base, a);
      if a > e {
        var p := t.prev[a];
        if p < e {
          Disjoint(t, base, limit, p, e);
        }
      } else if a != base {
        var p := t.prev[a];
        assert NextOk(t, p);
      }
    }
  }

  lemma IsRow(t: Tiles, base: Addr, limit: Addr)
    requires base in t.size && t.top in t.size && 0 < t.size[t.top] && t.top + t.size[t.top] == limit
    requires t.used <= t.size.Keys && t.top !in t.used
    requires forall a {:trigger NextOk(t, a)} {:trigger PrevOk(t, base, a)} :: a in t.size ==>
      NextOk(t, a) && PrevOk(t, base, a)
    ensures Row(t, base, limit)
  {
    hide NextOk, PrevOk;
  }

  lemma RecutEnds(t: Tiles, base: Addr, limit: Addr, q: Addr, m: Addr, e: Addr, first: bool, second: bool, t': Tiles)
    requires Row(t, base, limit) && Recut(t, q, m, e, first, second, t') && CutOk(t, base, q, m, e, first, second)
    ensures base in t'.size && t'.top in t'.size && 0 < t'.size[t'.top] && t'.top + t'.size[t'.top] == limit
    ensures t'.used <= t'.size.Keys && t'.top !in t'.used
  {
    assert PrevOk(t, base, q) && PrevOk(t, base, t.top);
    Disjoint(t, base, limit, q, e);
    if t.top < e {
      Disjoint(t, base, limit, t.top, e);
    }
  }

  /** Cutting a stretch anew keeps the row. */
  lemma RecutRow(t: Tiles, base: Addr, limit: Addr, q: Addr, m: Addr, e: Addr, first: bool, second: bool, t': Tiles)
    requires Row(t, base, limit) && Recut(t, q, m, e, first, second, t') && CutOk(t, base, q, m, e, first, second)
    ensures Row(t', base, limit)
  {
    hide *;
    RecutEnds(t, base, limit, q, m, e, first, second, t');
    forall a | a in t'.size ensures NextOk(t', a) && PrevOk(t', base, a) {
      RecutNext(t, base, limit, q, m, e, first, second, t', a);
      RecutPrev(t, base, limit, q, m, e, first, second, t', a);
    }
    IsRow(t', base, limit);
  }

  /** The stretch from `q` to the limit becomes the top chunk, or a chunk in use up to `m` and the top chunk. */
  ghost predicate RecutTop(t: Tiles, limit: Addr, q: Addr, m: Addr, t': Tiles) {
    && q in t.size && q <= m < limit && t'.top == m
    && (forall a :: a in t'.size <==> a == m || (a in t.size && a <= q))
    && (forall a <- t'.size :: t'.size[a] == if a == m then limit - m else if a == q then m - q else t.size[a])
    && (forall a :: a in t'.used <==> if a == q then q < m else a in t.used && a < q)
    && t'.prev == if q < m then t.prev[m := q] else t.prev
  }

  ghost function CutTop(t: Tiles, limit: Addr, q: Addr, m: Addr): (t': Tiles)
    requires q in t.size && q <= m < limit
    ensures RecutTop(t, limit, q, m, t')
  {
    var size := map a | a in t.size.Keys + {m} && (a == m || a <= q) ::
                  if a == m then limit - m else if a == q then m - q else t.size[a];
    var used := set a | a in t.used + {q} && (if a == q then q < m else a < q);
    Tiles(size, used, if q < m then t.prev[m := q] else t.prev, m)
  }

  lemma LiveAfterCutTop(t: Tiles, limit: Addr, q: Addr, m: Addr, t': Tiles, p: Addr)
    requires RecutTop(t, limit, q, m, t') && (forall a <- t.used | a in t.size && a != p :: a < q)
    requires q <= p
    ensures q < m && (p == q || p !in t.used) ==> Live(t') == Live(t)[q := m - q]
    ensures q == m && p in t.used ==> Live(t') == Live(t) - {p}
  {
    var l, l' := Live(t), Live(t');
    forall a | a != q && a != p
      ensures a in l' <==> a in l
      ensures a in l ==> l'[a] == l[a]
    {
    }
  }

  lemma RecutTopNext(t: Tiles, base: Addr, limit: Addr, q: Addr, m: Addr, t': Tiles, a: Addr)
    requires Row(t, base, limit) && RecutTop(t, limit, q, m, t') && (q < m ==> q + MIN_CHUNK_SIZE <= m)
    requires q == m && q != base ==> q in t.prev && t.prev[q] in t.used
    requires a in t'.size
    ensures NextOk(t', a)
  {
    if a < q {
      assert NextOk(t, a) && PrevOk(t, base, q) && PrevOk(t, base, a);
      Disjoint(t, base, limit, a, q);
    }
  }

  lemma RecutTopPrev(t: Tiles, base: Addr, limit: Addr, q: Addr, m: Addr, t': Tiles, a: Addr)
    requires Row(t, base, limit) && RecutTop(t, limit, q, m, t') && (q < m ==> q + MIN_CHUNK_SIZE <= m)
    requires a in t'.size
    ensures PrevOk(t', base, a)
  {
    assert PrevOk(t, base, q);
    if a != m || m == q {
      assert PrevOk(t, base, a);
      if a != base {
        assert NextOk(t, t.prev[a]);
      }
    }
  }

  lemma RecutTopRow(t: Tiles, base: Addr, limit: Addr, q: Addr, m: Addr, t': Tiles)
    requires Row(t, base, limit) && RecutTop(t, limit, q, m, t') && (q < m ==> q + MIN_CHUNK_SIZE <= m)
    requires q == m && q != base ==> q in t.prev && t.prev[q] in t.used
    ensures Row(t', base, limit)
  {
    assert PrevOk(t, base, q);
    hide NextOk, PrevOk;
    forall a | a in t'.size ensures NextOk(t', a) && PrevOk(t', base, a) {
      RecutTopNext(t, base, limit, q, m, t', a);
      RecutTopPrev(t, base, limit, q, m, t', a);
    }
  }

  // ---------------------------------------------------------------- header words

  /** The header word of a chunk: its size, and whether the chunk before it and itself are in use. */
  datatype Head = Head(size: nat, pinuse: bool, cinuse: bool)

  predicate PrevUsed(t: Tiles, base: Addr, a: Addr) {
    a == base || (a in t.prev && t.prev[a] in t.used)
  }

  /** The header of the chunk at `a`, and the size that a free chunk leaves in the next one. */
  predicate TagOk(t: Tiles, base: Addr, head: map<Addr, Head>, foot: map<Addr, nat>, a: Addr)
    requires a in t.size
  {
    && a in head && head[a] == Head(t.size[a], PrevUsed(t, base, a), a in t.used)
    && (a !in t.used && a != t.top ==> a + t.size[a] in foot && foot[a + t.size[a]] == t.size[a])
  }

  ghost predicate Tagged(t: Tiles, base: Addr, head: map<Addr, Head>, foot: map<Addr, nat>) {
    forall a {:trigger TagOk(t, base, head, foot, a)} :: a in t.size ==> TagOk(t, base, head, foot, a)
  }

  /** What the headers have to be after a stretch has been cut anew. */
  predicate TagsCut(t: Tiles, q: Addr, m: Addr, e: Addr, first: bool, second: bool, t': Tiles,
      head: map<Addr, Head>, foot: map<Addr, nat>, head': map<Addr, Head>, foot': map<Addr, nat>)
  {
    && (forall a <- t'.size | a !in {q, m, e} && a in head :: a in head' && head'[a] == head[a])
    && q < m <= e && q in head && q in head' && head'[q] == Head(m - q, head[q].pinuse, first)
    && (m < e ==> m in head' && head'[m] == Head(e - m, first, second))
    && e in head && e in head' && head'[e] == head[e].(pinuse := if m < e then second else first)
    && (forall a <- foot | a != e :: a in foot' && foot'[a] == foot[a])
    && (!(if m < e then second else first) ==> e in foot' && foot'[e] == e - if m < e then m else q)
  }

  lemma RecutTag(t: Tiles, base: Addr, limit: Addr, q: Addr, m: Addr, e: Addr, first: bool, second: bool, t': Tiles,
      head: map<Addr, Head>, foot: map<Addr, nat>, head': map<Addr, Head>, foot': map<Addr, nat>, a: Addr)
    requires Row(t, base, limit) && Recut(t, q, m, e, first, second, t') && CutOk(t, base, q, m, e, first, second)
    requires Tagged(t, base, head, foot) && TagsCut(t, q, m, e, first, second, t', head, foot, head', foot')
    requires q < m <= e && a in t'.size
    ensures TagOk(t', base, head', foot', a)
  {
    assert PrevOk(t, base, q) && TagOk(t, base, head, foot, q) && TagOk(t, base, head, foot, e);
    if a !in {q, m, e} {
      assert TagOk(t, base, head, foot, a) && PrevOk(t, base, a);
      if a < q {
        Disjoint(t, base, limit, a, q);
      } else if a != base && t.prev[a] < e {
        Disjoint(t, base, limit, t.prev[a], e);
      }
    } else if a == q {
      assert q != base ==> NextOk(t, t.prev[q]);
    } else if a == e {
      assert NextOk(t, e);
    }
  }

  lemma RecutTags(t: Tiles, base: Addr, limit: Addr, q: Addr, m: Addr, e: Addr, first: bool, second: bool, t': Tiles,
      head: map<Addr, Head>, foot: map<Addr, nat>, head': map<Addr, Head>, foot': map<Addr, nat>)
    requires Row(t, base, limit) && Recut(t, q, m, e, first, second, t') && CutOk(t, base, q, m, e, first, second)
    requires Tagged(t, base, head, foot) && TagsCut(t, q, m, e, first, second, t', head, foot, head', foot')
    ensures Tagged(t', base, head', foot')
  {
    hide TagsCut, Row, CutOk, TagOk;
    forall a | a in t'.size ensures TagOk(t', base, head', foot', a) {
      RecutTag(t, base, limit, q, m, e, first, second, t', head, foot, head', foot', a);
    }
  }

  predicate TagsCutTop(t: Tiles, limit: Addr, q: Addr, m: Addr, t': Tiles,
      head: map<Addr, Head>, foot: map<Addr, nat>, head': map<Addr, Head>, foot': map<Addr, nat>)
  {
    && m < limit
    && (forall a <- t'.size | a !in {q, m} && a in head :: a in head' && head'[a] == head[a])
    && q in head && m in head' && head'[m] == Head(limit - m, true, false)
    && (q < m ==> q in head' && head'[q] == Head(m - q, head[q].pinuse, true))
    && foot' == foot
  }

  lemma RecutTopTags(t: Tiles, base: Addr, limit: Addr, q: Addr, m: Addr, t': Tiles,
      head: map<Addr, Head>, foot: map<Addr, nat>, head': map<Addr, Head>, foot': map<Addr, nat>)
    requires Row(t, base, limit) && RecutTop(t, limit, q, m, t')
    requires q == m && q != base ==> q in t.prev && t.prev[q] in t.used
    requires Tagged(t, base, head, foot) && TagsCutTop(t, limit, q, m, t', head, foot, head', foot')
    ensures Tagged(t', base, head', foot')
  {
    forall a | a in t'.size ensures TagOk(t', base, head', foot', a) {
      assert PrevOk(t, base, q) && TagOk(t, base, head, foot, q);
      if a in t.size {
        assert TagOk(t, base, head, foot, a) && PrevOk(t, base, a);
        if a < q {
          Disjoint(t, base, limit, a, q);
        }
        if a != base {
          assert NextOk(t, t.prev[a]);
        }
      }
    }
  }
}
