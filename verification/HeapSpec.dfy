/**
 * What keeps a segment of the heap in order: the row of chunks with their
 * headers, and the bins that file exactly the free ones.
 */
module HeapSpec {
  import opened Collections
  import opened TreeIndex
  import opened TreeLinks
  import opened Tiling

  /** The fields of the allocator. The large chunks stand for the tree bins, with the sizes filed there. */
  datatype Store = Store(
    head: map<Addr, Head>, foot: map<Addr, nat>, small: seq<seq<Addr>>, dv: Addr, dvsize: nat,
    large: set<Addr>, largeSize: map<Addr, nat>)

  predicate IsFree(t: Tiles, a: Addr) {
    a in t.size && a !in t.used && a != t.top
  }

  /** A free chunk that has to be in a bin. */
  predicate ToFile(t: Tiles, dv: Addr, pending: set<Addr>, a: Addr) {
    IsFree(t, a) && a != dv && a !in pending
  }

  ghost predicate DvOk(t: Tiles, dv: Addr, dvsize: nat, pending: set<Addr>) {
    && (dv == NULL <==> dvsize == 0)
    && (dv != NULL ==> IsFree(t, dv) && t.size[dv] == dvsize && dv !in pending)
  }

  ghost predicate SmallOk(t: Tiles, small: seq<seq<Addr>>, dv: Addr, pending: set<Addr>) {
    && |small| == 32
    && (forall a <- t.size | ToFile(t, dv, pending, a) && t.size[a] < MIN_LARGE_SIZE :: a in small[t.size[a] / 8])
    && (forall i :: 0 <= i < 32 ==> Distinct(small[i]) && forall a <- small[i] ::
      ToFile(t, dv, pending, a) && t.size[a] == 8 * i)
  }

  ghost predicate LargeOk(t: Tiles, large: set<Addr>, largeSize: map<Addr, nat>, dv: Addr, pending: set<Addr>) {
    && (forall a <- t.size | ToFile(t, dv, pending, a) && MIN_LARGE_SIZE <= t.size[a] :: a in large)
    && (forall a <- large ::
      ToFile(t, dv, pending, a) && MIN_LARGE_SIZE <= t.size[a] && a in largeSize && largeSize[a] == t.size[a])
  }

  /** Every free chunk but the pending ones is the designated victim or in the bin of its size, and nothing else is. */
  ghost predicate Filing(t: Tiles, s: Store, pending: set<Addr>) {
    && DvOk(t, s.dv, s.dvsize, pending)
    && SmallOk(t, s.small, s.dv, pending)
    && LargeOk(t, s.large, s.largeSize, s.dv, pending)
  }

  ghost predicate Aligned(t: Tiles) {
    forall a <- t.size :: a % 8 == 0
  }

  ghost predicate Orderly(t: Tiles, base: Addr, limit: Addr, s: Store, pending: set<Addr>) {
    && NULL < base && limit % 8 == 0
    && Row(t, base, limit) && Tagged(t, base, s.head, s.foot) && Aligned(t) && Filing(t, s, pending)
  }

  // ---------------------------------------------------------------- the bins while the row stays

  /** The same chunks have to be filed, with the same sizes. */
  ghost predicate SameToFile(t: Tiles, dv: Addr, pending: set<Addr>, t': Tiles, dv': Addr, pending': set<Addr>) {
    forall a :: (ToFile(t', dv', pending', a) <==> ToFile(t, dv, pending, a)) &&
      (ToFile(t, dv, pending, a) ==> a in t'.size && t'.size[a] == t.size[a])
  }

  lemma BinsKept(t: Tiles, s: Store, pending: set<Addr>, t': Tiles, s': Store, pending': set<Addr>)
    requires SmallOk(t, s.small, s.dv, pending) && LargeOk(t, s.large, s.largeSize, s.dv, pending)
    requires SameToFile(t, s.dv, pending, t', s'.dv, pending')
    requires s'.small == s.small && s'.large == s.large && s'.largeSize == s.largeSize
    ensures SmallOk(t', s'.small, s'.dv, pending') && LargeOk(t', s'.large, s'.largeSize, s'.dv, pending')
  {
    hide Distinct;
  }

  /** The designated victim is given up. */
  lemma ForgetDv(t: Tiles, s: Store, pending: set<Addr>, s': Store)
    requires Filing(t, s, pending) && s.dv != NULL && NULL !in t.size
    requires s'.small == s.small && s'.large == s.large && s'.largeSize == s.largeSize && s'.dv == NULL &&
      s'.dvsize == 0
    ensures Filing(t, s', pending + {s.dv})
  {
    BinsKept(t, s, pending, t, s', pending + {s.dv});
  }

  lemma SetDv(t: Tiles, s: Store, pending: set<Addr>, s': Store)
    requires Filing(t, s, pending) && s.dv == NULL && s'.dv in pending && IsFree(t, s'.dv) &&
      s'.dvsize == t.size[s'.dv] && s'.dvsize > 0 && s'.dv != NULL
    requires NULL !in t.size
    requires s'.small == s.small && s'.large == s.large && s'.largeSize == s.largeSize
    ensures Filing(t, s', pending - {s'.dv})
  {
    BinsKept(t, s, pending, t, s', pending - {s'.dv});
  }

  lemma LargeKept(t: Tiles, large: set<Addr>, largeSize: map<Addr, nat>, dv: Addr, pending: set<Addr>, a: Addr)
    requires LargeOk(t, large, largeSize, dv, pending) && a in t.size && t.size[a] < MIN_LARGE_SIZE
    ensures LargeOk(t, large, largeSize, dv, pending + {a}) && LargeOk(t, large, largeSize, dv, pending - {a})
  {
  }

  lemma SmallKept(t: Tiles, small: seq<seq<Addr>>, dv: Addr, pending: set<Addr>, a: Addr)
    requires SmallOk(t, small, dv, pending) && a in t.size && MIN_LARGE_SIZE <= t.size[a]
    ensures SmallOk(t, small, dv, pending + {a}) && SmallOk(t, small, dv, pending - {a})
  {
  }

  lemma AddFirst(r: seq<Addr>, a: Addr)
    requires Distinct(r) && a !in r
    ensures Distinct([a] + r)
  {
  }

  /** A pending small chunk becomes the first of its bin. */
  lemma FileSmall(t: Tiles, s: Store, pending: set<Addr>, a: Addr, s': Store)
    requires Filing(t, s, pending) && a in pending && a != NULL && IsFree(t, a) && t.size[a] < MIN_LARGE_SIZE &&
      t.size[a] % 8 == 0
    requires s'.small == s.small[t.size[a] / 8 := [a] + s.small[t.size[a] / 8]]
    requires s'.dv == s.dv && s'.dvsize == s.dvsize && s'.large == s.large && s'.largeSize == s.largeSize
    ensures Filing(t, s', pending - {a})
  {
    LargeKept(t, s.large, s.largeSize, s.dv, pending, a);
    AddFirst(s.small[t.size[a] / 8], a);
    hide Distinct, LargeOk;
    forall i | 0 <= i < 32
      ensures Distinct(s'.small[i]) && forall b <- s'.small[i] ::
        ToFile(t, s.dv, pending - {a}, b) && t.size[b] == 8 * i
    {
      if i != t.size[a] / 8 {
        assert s'.small[i] == s.small[i];
      }
    }
  }

  lemma {:induction false} RemoveMembers(r: seq<Addr>, a: Addr)
    requires Distinct(r)
    ensures Distinct(RemoveFirst(r, a)) && forall b :: b in RemoveFirst(r, a) <==> b in r && b != a
  {
    if r != [] && r[0] != a {
      RemoveMembers(r[1..], a);
      AddFirst(RemoveFirst(r[1..], a), r[0]);
    }
  }

  /** A small chunk leaves its bin. */
  lemma UnfileSmall(t: Tiles, s: Store, pending: set<Addr>, a: Addr, s': Store)
    requires Filing(t, s, pending) && ToFile(t, s.dv, pending, a) && t.size[a] < MIN_LARGE_SIZE
    requires s'.small == s.small[t.size[a] / 8 := RemoveFirst(s.small[t.size[a] / 8], a)]
    requires s'.dv == s.dv && s'.dvsize == s.dvsize && s'.large == s.large && s'.largeSize == s.largeSize
    ensures Filing(t, s', pending + {a})
  {
    LargeKept(t, s.large, s.largeSize, s.dv, pending, a);
    RemoveMembers(s.small[t.size[a] / 8], a);
  }

  lemma UnfileLarge(t: Tiles, s: Store, pending: set<Addr>, a: Addr, s': Store)
    requires Filing(t, s, pending) && ToFile(t, s.dv, pending, a) && MIN_LARGE_SIZE <= t.size[a]
    requires s'.large == s.large - {a} && s'.largeSize == s.largeSize
    requires s'.dv == s.dv && s'.dvsize == s.dvsize && s'.small == s.small
    ensures Filing(t, s', pending + {a})
  {
    SmallKept(t, s.small, s.dv, pending, a);
  }

  lemma FileLarge(t: Tiles, s: Store, pending: set<Addr>, a: Addr, s': Store)
    requires Filing(t, s, pending) && a in pending && a != NULL && IsFree(t, a) && MIN_LARGE_SIZE <= t.size[a]
    requires s'.large == s.large + {a} && a in s'.largeSize && s'.largeSize[a] == t.size[a]
    requires forall b <- s.large | b in s.largeSize && b != a :: b in s'.largeSize && s'.largeSize[b] == s.largeSize[b]
    requires s'.dv == s.dv && s'.dvsize == s.dvsize && s'.small == s.small
    ensures Filing(t, s', pending - {a})
  {
    SmallKept(t, s.small, s.dv, pending, a);
    hide SmallOk;
    forall b | b in s'.large
      ensures ToFile(t, s.dv, pending - {a}, b) && MIN_LARGE_SIZE <= t.size[b] && b in s'.largeSize &&
        s'.largeSize[b] == t.size[b]
    {
      assert b == a || b in s.large;
    }
  }

  // ---------------------------------------------------------------- the bins while the row is cut anew

  ghost function FreeIn(t: Tiles, q: Addr, e: Addr): set<Addr> {
    set a | a in t.size && q <= a < e && IsFree(t, a)
  }

  ghost function Pieces(q: Addr, m: Addr, e: Addr, first: bool, second: bool): set<Addr> {
    (if first then {} else {q}) + (if m < e && !second then {m} else {})
  }

  lemma RecutToFile(t: Tiles, q: Addr, m: Addr, e: Addr, first: bool, second: bool, t': Tiles, dv: Addr,
      pending: set<Addr>)
    requires Recut(t, q, m, e, first, second, t') && FreeIn(t, q, e) == pending && (dv == NULL || dv < q || e <= dv)
    requires NULL !in t.size && 0 < q
    ensures SameToFile(t, dv, pending, t', dv, Pieces(q, m, e, first, second))
  {
  }

  lemma {:induction false} AlignedSum(t: Tiles, base: Addr, limit: Addr, a: Addr)
    requires Row(t, base, limit) && Aligned(t) && a in t.size && limit % 8 == 0
    ensures t.size[a] % 8 == 0
  {
    assert NextOk(t, a);
  }

  lemma NullIsNone(t: Tiles, base: Addr, limit: Addr)
    requires Row(t, base, limit) && NULL < base
    ensures NULL !in t.size
  {
    if NULL in t.size {
      FirstAfter(t, base, limit, NULL);
    }
  }

  lemma FirstAfter(t: Tiles, base: Addr, limit: Addr, a: Addr)
    requires Row(t, base, limit) && a in t.size
    ensures base <= a
  {
    assert PrevOk(t, base, a);
  }

  /** Cutting a stretch anew, after its free chunks have left their bins. */
  lemma RecutOrderly(t: Tiles, base: Addr, limit: Addr, s: Store, pending: set<Addr>,
      q: Addr, m: Addr, e: Addr, first: bool, second: bool, t': Tiles, s': Store)
    requires Orderly(t, base, limit, s, pending) && Recut(t, q, m, e, first, second, t') &&
      CutOk(t, base, q, m, e, first, second)
    requires pending == FreeIn(t, q, e) && TagsCut(t, q, m, e, first, second, t', s.head, s.foot, s'.head, s'.foot) &&
      m % 8 == 0
    requires s' == s.(head := s'.head, foot := s'.foot)
    ensures Orderly(t', base, limit, s', Pieces(q, m, e, first, second))
  {
    NullIsNone(t, base, limit);
    FirstAfter(t, base, limit, q);
    hide Row, Tagged, TagsCut, CutOk, SmallOk, LargeOk, SameToFile;
    RecutRow(t, base, limit, q, m, e, first, second, t');
    RecutTags(t, base, limit, q, m, e, first, second, t', s.head, s.foot, s'.head, s'.foot);
    RecutToFile(t, q, m, e, first, second, t', s.dv, pending);
    BinsKept(t, s, pending, t', s', Pieces(q, m, e, first, second));
  }

  lemma RecutTopToFile(t: Tiles, base: Addr, limit: Addr, q: Addr, m: Addr, t': Tiles, dv: Addr, pending: set<Addr>)
    requires Row(t, base, limit) && RecutTop(t, limit, q, m, t') && FreeIn(t, q, limit) == pending &&
      (dv == NULL || dv < q)
    requires NULL !in t.size && 0 < q
    ensures SameToFile(t, dv, pending, t', dv, {})
  {
    hide NextOk, PrevOk;
    if t.top < q {
      Disjoint(t, base, limit, t.top, q);
    }
    forall a | a in t.size ensures a < limit {
      if t.top < a {
        Disjoint(t, base, limit, t.top, a);
      }
    }
  }

  lemma RecutTopOrderly(t: Tiles, base: Addr, limit: Addr, s: Store, pending: set<Addr>, q: Addr, m: Addr, t': Tiles,
      s': Store)
    requires Orderly(t, base, limit, s, pending) && RecutTop(t, limit, q, m, t') && (q < m ==> q + MIN_CHUNK_SIZE <= m)
    requires q == m && q != base ==> q in t.prev && t.prev[q] in t.used
    requires pending == FreeIn(t, q, limit) && TagsCutTop(t, limit, q, m, t', s.head, s.foot, s'.head, s'.foot) &&
      m % 8 == 0
    requires s' == s.(head := s'.head, foot := s'.foot) && (s.dv == NULL || s.dv < q)
    ensures Orderly(t', base, limit, s', {})
  {
    NullIsNone(t, base, limit);
    FirstAfter(t, base, limit, q);
    hide Row, Tagged, TagsCutTop, SmallOk, LargeOk, SameToFile;
    RecutTopRow(t, base, limit, q, m, t');
    RecutTopTags(t, base, limit, q, m, t', s.head, s.foot, s'.head, s'.foot);
    RecutTopToFile(t, base, limit, q, m, t', s.dv, pending);
    BinsKept(t, s, pending, t', s', {});
  }

  // ---------------------------------------------------------------- what the headers say

  /** Between a chunk and the next one there is nothing. */
  lemma NothingBetween(t: Tiles, base: Addr, limit: Addr, p: Addr, a: Addr)
    requires Row(t, base, limit) && p in t.size && a in t.size
    ensures a < p || a == p || p + t.size[p] <= a
  {
    if p < a {
      Disjoint(t, base, limit, p, a);
    }
  }

  lemma HeaderOf(t: Tiles, base: Addr, limit: Addr, s: Store, pending: set<Addr>, p: Addr)
    requires Orderly(t, base, limit, s, pending) && p in t.size
    ensures p in s.head && s.head[p] == Head(t.size[p], PrevUsed(t, base, p), p in t.used)
    ensures p != NULL && p % 8 == 0 && t.size[p] % 8 == 0
    ensures p != t.top ==>
      MIN_CHUNK_SIZE <= t.size[p] && p + t.size[p] in t.size && p + t.size[p] in t.prev && t.prev[p + t.size[p]] == p
    ensures base <= p && p + t.size[p] <= limit
  {
    hide Filing;
    assert TagOk(t, base, s.head, s.foot, p) && NextOk(t, p);
    FirstAfter(t, base, limit, p);
    AlignedSum(t, base, limit, p);
    NullIsNone(t, base, limit);
    if p < t.top {
      Disjoint(t, base, limit, p, t.top);
    } else if t.top < p {
      Disjoint(t, base, limit, t.top, p);
    }
  }

  /** A free chunk lies between chunks in use. */
  lemma FreeChunk(t: Tiles, base: Addr, limit: Addr, s: Store, pending: set<Addr>, p: Addr)
    requires Orderly(t, base, limit, s, pending) && IsFree(t, p)
    ensures var e := p + t.size[p];
      && e in t.size && e in t.used && p in s.head && s.head[p] == Head(t.size[p], true, false)
      && e in s.head && !s.head[e].pinuse && s.head[e].size == t.size[e] && s.head[e].cinuse
      && e in s.foot && s.foot[e] == t.size[p]
      && FreeIn(t, p, e) == {p} && (forall a <- t.used | a in t.size :: a < p || e <= a)
      && PrevUsed(t, base, p)
  {
    hide Filing;
    HeaderOf(t, base, limit, s, pending, p);
    HeaderOf(t, base, limit, s, pending, p + t.size[p]);
    assert TagOk(t, base, s.head, s.foot, p) && NextOk(t, p) && PrevOk(t, base, p);
    if p != base {
      assert NextOk(t, t.prev[p]);
    }
    hide Row, Tagged;
    forall a | a in t.size ensures a < p || a == p || p + t.size[p] <= a {
      NothingBetween(t, base, limit, p, a);
    }
  }

  // ---------------------------------------------------------------- filing and taking out

  lemma BinsOf(t: Tiles, base: Addr, limit: Addr, s: Store, pending: set<Addr>, p: Addr)
    requires Orderly(t, base, limit, s, pending) && ToFile(t, s.dv, pending, p)
    ensures |s.small| == 32 && t.size[p] % 8 == 0 && MIN_CHUNK_SIZE <= t.size[p]
    ensures if t.size[p] < MIN_LARGE_SIZE then p in s.small[t.size[p] / 8]
      else p in s.large && p in s.largeSize && s.largeSize[p] == t.size[p]
  {
    HeaderOf(t, base, limit, s, pending, p);
    hide Row, Tagged;
  }

  lemma PendingOf(t: Tiles, base: Addr, limit: Addr, s: Store, pending: set<Addr>, p: Addr)
    requires Orderly(t, base, limit, s, pending) && p in pending && IsFree(t, p)
    ensures |s.small| == 32 && t.size[p] % 8 == 0 && MIN_CHUNK_SIZE <= t.size[p] <= limit - base && p != NULL &&
      p !in s.large && p != s.dv
  {
    HeaderOf(t, base, limit, s, pending, p);
    hide Row, Tagged;
  }

  lemma UnfileSmallOrderly(t: Tiles, base: Addr, limit: Addr, s: Store, pending: set<Addr>, p: Addr, s': Store)
    requires Orderly(t, base, limit, s, pending) && ToFile(t, s.dv, pending, p) && t.size[p] < MIN_LARGE_SIZE
    requires |s.small| == 32 && s' == s.(small := s.small[t.size[p] / 8 := RemoveFirst(s.small[t.size[p] / 8], p)])
    ensures Orderly(t, base, limit, s', pending + {p})
  {
    hide Row, Tagged, Filing, Aligned;
    UnfileSmall(t, s, pending, p, s');
  }

  lemma UnfileLargeOrderly(t: Tiles, base: Addr, limit: Addr, s: Store, pending: set<Addr>, p: Addr, s': Store)
    requires Orderly(t, base, limit, s, pending) && ToFile(t, s.dv, pending, p) && MIN_LARGE_SIZE <= t.size[p]
    requires s' == s.(large := s.large - {p})
    ensures Orderly(t, base, limit, s', pending + {p})
  {
    hide Row, Tagged, Filing, Aligned;
    UnfileLarge(t, s, pending, p, s');
  }

  lemma FileSmallOrderly(t: Tiles, base: Addr, limit: Addr, s: Store, pending: set<Addr>, p: Addr, s': Store)
    requires Orderly(t, base, limit, s, pending) && p in pending && IsFree(t, p) && t.size[p] < MIN_LARGE_SIZE
    requires |s.small| == 32 && s' == s.(small := s.small[t.size[p] / 8 := [p] + s.small[t.size[p] / 8]])
    ensures Orderly(t, base, limit, s', pending - {p})
  {
    PendingOf(t, base, limit, s, pending, p);
    hide Row, Tagged, Filing, Aligned;
    FileSmall(t, s, pending, p, s');
  }

  lemma FileLargeOrderly(t: Tiles, base: Addr, limit: Addr, s: Store, pending: set<Addr>, p: Addr, s': Store)
    requires Orderly(t, base, limit, s, pending) && p in pending && IsFree(t, p) && MIN_LARGE_SIZE <= t.size[p]
    requires s' == s.(large := s.large + {p}, largeSize := s.largeSize[p := t.size[p]])
    ensures Orderly(t, base, limit, s', pending - {p})
  {
    PendingOf(t, base, limit, s, pending, p);
    hide Row, Tagged, Filing, Aligned;
    FileLarge(t, s, pending, p, s');
  }

  lemma ForgetDvOrderly(t: Tiles, base: Addr, limit: Addr, s: Store, pending: set<Addr>, s': Store)
    requires Orderly(t, base, limit, s, pending) && s.dv != NULL && s' == s.(dv := NULL, dvsize := 0)
    ensures Orderly(t, base, limit, s', pending + {s.dv})
  {
    NullIsNone(t, base, limit);
    hide Row, Tagged, Filing, Aligned;
    ForgetDv(t, s, pending, s');
  }

  lemma SetDvOrderly(t: Tiles, base: Addr, limit: Addr, s: Store, pending: set<Addr>, p: Addr, s': Store)
    requires Orderly(t, base, limit, s, pending) && s.dv == NULL && p in pending && IsFree(t, p) &&
      s' == s.(dv := p, dvsize := t.size[p])
    ensures Orderly(t, base, limit, s', pending - {p})
  {
    PendingOf(t, base, limit, s, pending, p);
    NullIsNone(t, base, limit);
    hide Row, Tagged, Filing, Aligned;
    SetDv(t, s, pending, s');
  }

  lemma RowOf(t: Tiles, base: Addr, limit: Addr, s: Store, pending: set<Addr>)
    requires Orderly(t, base, limit, s, pending)
    ensures Row(t, base, limit)
  {
  }

  lemma DvFacts(t: Tiles, base: Addr, limit: Addr, s: Store, pending: set<Addr>)
    requires Orderly(t, base, limit, s, pending)
    ensures s.dv == NULL <==> s.dvsize == 0
    ensures s.dv != NULL ==> IsFree(t, s.dv) && t.size[s.dv] == s.dvsize && s.dv !in pending
  {
    hide Row, Tagged, Aligned;
  }

  /** Every free chunk is the designated victim or in exactly one bin, that of its size; nothing else is in a bin. */
  lemma FiledOnce(t: Tiles, base: Addr, limit: Addr, s: Store, a: Addr)
    requires Orderly(t, base, limit, s, {})
    ensures |s.small| == 32
    ensures forall i :: 0 <= i < 32 ==> (a in s.small[i] <==> IsFree(t, a) && a != s.dv && t.size[a] == 8 * i)
    ensures a in s.large <==> IsFree(t, a) && a != s.dv && MIN_LARGE_SIZE <= t.size[a]
  {
    SmallBins(t, base, limit, s);
    if IsFree(t, a) && a != s.dv {
      BinsOf(t, base, limit, s, {}, a);
    }
    hide Row, Tagged, Aligned;
  }

  /** Two chunks in use do not share an address, and no two neighbours are both free, counting the top chunk. */
  lemma NeighboursOf(t: Tiles, base: Addr, limit: Addr, s: Store, a: Addr, b: Addr)
    requires Orderly(t, base, limit, s, {}) && a in t.size && b in t.size && a < b
    ensures a + t.size[a] <= b
    ensures a in t.used || b in t.used || a + t.size[a] < b
    ensures a + t.size[a] == b ==> b in s.head && s.head[b].pinuse == (a in t.used)
    ensures a + t.size[a] == b && a !in t.used ==> b in s.foot && s.foot[b] == t.size[a]
  {
    Disjoint(t, base, limit, a, b);
    HeaderOf(t, base, limit, s, {}, a);
    HeaderOf(t, base, limit, s, {}, b);
    FirstAfter(t, base, limit, a);
    if IsFree(t, a) {
      FreeChunk(t, base, limit, s, {}, a);
    }
  }

  /** The bytes from `lo` up to `hi` and those from `lo'` up to `hi'` have none in common. */
  predicate Apart(lo: nat, hi: nat, lo': nat, hi': nat) {
    hi <= lo' || hi' <= lo
  }

  /**
   * The payload of a chunk in use reaches into the next chunk's prev_foot, but into
   * no header, no other payload, and no link or footer of a free chunk.
   */
  lemma PayloadsApart(t: Tiles, base: Addr, limit: Addr, a: Addr, b: Addr)
    requires Row(t, base, limit) && a in t.used && a in t.size && b in t.size && a != b
    ensures Apart(a + 16, a + t.size[a] + 8, b + 8, b + 16)
    ensures Apart(a + 16, a + t.size[a] + 8, b + 16, b + t.size[b] + 8)
  {
    if a < b {
      Disjoint(t, base, limit, a, b);
    } else {
      Disjoint(t, base, limit, b, a);
    }
  }

  /** Hence the owner of a chunk may write all of its payload: no check looks at a prev_foot after a chunk in use. */
  lemma PayloadMayOverlap(t: Tiles, base: Addr, limit: Addr, s: Store, pending: set<Addr>, p: Addr, v: nat, s': Store)
    requires Orderly(t, base, limit, s, pending) && p in t.used && p in t.size
    requires s' == s.(foot := s.foot[p + t.size[p] := v])
    ensures Orderly(t, base, limit, s', pending)
  {
    hide Filing, Aligned, Row;
    forall a | a in t.size ensures TagOk(t, base, s'.head, s'.foot, a) {
      UsedFootFree(t, base, limit, s, a, p, v);
    }
    assert Filing(t, s', pending) by { FootNotFiled(t, s, pending, s'); }
  }

  lemma FootNotFiled(t: Tiles, s: Store, pending: set<Addr>, s': Store)
    requires Filing(t, s, pending) && s' == s.(foot := s'.foot)
    ensures Filing(t, s', pending)
  {
  }

  lemma UsedFootFree(t: Tiles, base: Addr, limit: Addr, s: Store, a: Addr, p: Addr, v: nat)
    requires Row(t, base, limit) && Tagged(t, base, s.head, s.foot) && a in t.size && p in t.used && p in t.size
    ensures TagOk(t, base, s.head, s.foot[p + t.size[p] := v], a)
  {
    assert TagOk(t, base, s.head, s.foot, a) && NextOk(t, a) && NextOk(t, p);
  }

  // ---------------------------------------------------------------- using a free chunk

  /** One more chunk is in use, too large for `nb` bytes by less than a chunk, and the others are as before. */
  predicate Allocated(live: map<Addr, nat>, p: Addr, nb: nat, live': map<Addr, nat>) {
    p !in live && p in live' && nb <= live'[p] < nb + MIN_CHUNK_SIZE && live' == live[p := live'[p]]
  }

  lemma UseWholeOrderly(t: Tiles, base: Addr, limit: Addr, s: Store, p: Addr, t': Tiles, s': Store)
    requires Orderly(t, base, limit, s, {p}) && IsFree(t, p) && s.dv != p
    requires var n := p + t.size[p]; n in t.size && Recut(t, p, n, n, true, false, t') && n in s.head
    requires var n := p + t.size[p];
      s' == s.(head := s.head[p := Head(t.size[p], true, true)][n := s.head[n].(pinuse := true)])
    ensures Orderly(t', base, limit, s', {}) && Live(t') == Live(t)[p := t.size[p]]
  {
    var n := p + t.size[p];
    FreeChunk(t, base, limit, s, {p}, p);
    HeaderOf(t, base, limit, s, {p}, p);
    hide Row, Tagged, Filing, Aligned, Recut;
    assert TagsCut(t, p, n, n, true, false, t', s.head, s.foot, s'.head, s'.foot);
    assert CutOk(t, base, p, n, n, true, false);
    assert Pieces(p, n, n, true, false) == {};
    RecutOrderly(t, base, limit, s, {p}, p, n, n, true, false, t', s');
    LiveAfterCut(t, p, n, n, true, t', p);
  }

  lemma UseSplitOrderly(t: Tiles, base: Addr, limit: Addr, s: Store, p: Addr, nb: nat, t': Tiles, s': Store)
    requires Orderly(t, base, limit, s, {p}) && IsFree(t, p) && s.dv != p
    requires MIN_CHUNK_SIZE <= nb && nb + MIN_CHUNK_SIZE <= t.size[p] && nb % 8 == 0
    requires p + t.size[p] in t.size && Recut(t, p, p + nb, p + t.size[p], true, false, t')
    requires var r, rsize := p + nb, t.size[p] - nb;
      s' == s.(head := s.head[r := Head(rsize, true, false)][p := Head(nb, true, true)],
        foot := s.foot[r + rsize := rsize])
    ensures Orderly(t', base, limit, s', {p + nb}) && Live(t') == Live(t)[p := nb]
    ensures IsFree(t', p + nb) && t'.size[p + nb] == t.size[p] - nb
  {
    hide Orderly, Recut;
    var r, e := p + nb, p + t.size[p];
    FreeChunk(t, base, limit, s, {p}, p);
    HeaderOf(t, base, limit, s, {p}, p);
    NotTheTop(t, base, limit, s, {p}, p, r, e);
    assert Pieces(p, r, e, true, false) == {r};
    hide *;
    SplitTags(t, p, r, e, t', s, s');
    UsedCutOk(t, base, p, r, e);
    RecutOrderly(t, base, limit, s, {p}, p, r, e, true, false, t', s');
    LiveAfterCut(t, p, r, e, true, t', p);
    SplitRest(t, p, r, e, t');
  }

  lemma UsedCutOk(t: Tiles, base: Addr, p: Addr, r: Addr, e: Addr)
    requires p + MIN_CHUNK_SIZE <= r && r + MIN_CHUNK_SIZE <= e && e in t.used
    ensures CutOk(t, base, p, r, e, true, false)
  {
  }

  lemma SplitTags(t: Tiles, p: Addr, r: Addr, e: Addr, t': Tiles, s: Store, s': Store)
    requires p < r < e && p in s.head && s.head[p].pinuse && e in s.head && !s.head[e].pinuse
    requires s'.head == s.head[r := Head(e - r, true, false)][p := Head(r - p, true, true)] &&
      s'.foot == s.foot[e := e - r]
    ensures TagsCut(t, p, r, e, true, false, t', s.head, s.foot, s'.head, s'.foot)
  {
  }

  lemma SplitRest(t: Tiles, p: Addr, r: Addr, e: Addr, t': Tiles)
    requires Recut(t, p, r, e, true, false, t') && r < e && r != t.top
    ensures IsFree(t', r) && t'.size[r] == e - r
  {
  }

  lemma NotTheTop(t: Tiles, base: Addr, limit: Addr, s: Store, pending: set<Addr>, p: Addr, r: Addr, e: Addr)
    requires Orderly(t, base, limit, s, pending) && p in t.size && e in t.size && p < r < e == p + t.size[p]
    ensures r != t.top
  {
    NothingBetween(t, base, limit, p, t.top);
  }

  lemma FreshRow(base: Addr, own: nat, limit: Addr, t: Tiles, head: map<Addr, Head>)
    requires 0 < base && MIN_CHUNK_SIZE <= own && base + own < limit
    requires t == Tiles(map[base := own, base + own := limit - base - own], {base}, map[base + own := base], base + own)
    requires head == map[base := Head(own, true, true), base + own := Head(limit - base - own, true, false)]
    ensures Row(t, base, limit) && Tagged(t, base, head, map[])
  {
    forall a | a in t.size ensures NextOk(t, a) && PrevOk(t, base, a) && TagOk(t, base, head, map[], a) {
    }
    IsRow(t, base, limit);
  }

  lemma NoneToFile(t: Tiles, s: Store)
    requires forall a <- t.size :: !IsFree(t, a)
    requires |s.small| == 32 && (forall i :: 0 <= i < 32 ==> s.small[i] == []) && s.dv == NULL && s.dvsize == 0 &&
      s.large == {}
    ensures Filing(t, s, {})
  {
  }

  function EmptyBins(): seq<seq<Addr>> {
    seq(32, _ => [])
  }

  /** A fresh segment: the allocator's own state in a chunk in use, and the rest is the top chunk. */
  lemma FreshOrderly(base: Addr, own: nat, limit: Addr, t: Tiles, s: Store)
    requires 0 < base && base % 8 == 0 && MIN_CHUNK_SIZE <= own && own % 8 == 0 && base + own < limit && limit % 8 == 0
    requires t == Tiles(map[base := own, base + own := limit - base - own], {base}, map[base + own := base], base + own)
    requires s == Store(map[base := Head(own, true, true), base + own := Head(limit - base - own, true, false)], map[],
                        EmptyBins(), NULL, 0, {}, s.largeSize)
    ensures Orderly(t, base, limit, s, {}) && Live(t) == map[base := own]
  {
    hide Row, Tagged, Filing;
    FreshRow(base, own, limit, t, s.head);
    NoneToFile(t, s);
  }

  // ---------------------------------------------------------------- the top chunk

  lemma TopFacts(t: Tiles, base: Addr, limit: Addr, s: Store, pending: set<Addr>)
    requires Orderly(t, base, limit, s, pending)
    ensures t.top in t.size && t.size[t.top] == limit - t.top && t.top < limit
    ensures t.top in s.head && s.head[t.top] == Head(limit - t.top, true, false) && PrevUsed(t, base, t.top)
    ensures forall a <- t.used | a in t.size :: a < t.top
    ensures FreeIn(t, t.top, limit) == {} && (s.dv == NULL || s.dv < t.top) && t.top % 8 == 0
  {
    HeaderOf(t, base, limit, s, pending, t.top);
    assert PrevOk(t, base, t.top);
    if t.top != base {
      assert NextOk(t, t.prev[t.top]);
    }
    DvFacts(t, base, limit, s, pending);
    hide Tagged, Filing;
    forall a | a in t.size ensures a <= t.top {
      if t.top < a {
        Disjoint(t, base, limit, t.top, a);
      }
    }
  }

  lemma SplitTopOrderly(t: Tiles, base: Addr, limit: Addr, s: Store, nb: nat, t': Tiles, s': Store)
    requires Orderly(t, base, limit, s, {}) && MIN_CHUNK_SIZE <= nb && nb < limit - t.top && nb % 8 == 0
    requires RecutTop(t, limit, t.top, t.top + nb, t')
    requires s' ==
      s.(head := s.head[t.top + nb := Head(limit - t.top - nb, true, false)][t.top := Head(nb, true, true)])
    ensures Orderly(t', base, limit, s', {}) && Live(t') == Live(t)[t.top := nb] && t.top !in Live(t)
  {
    hide Orderly, RecutTop, TagsCutTop, Live, FreeIn;
    TopFacts(t, base, limit, s, {});
    TopNotUsed(t, base, limit, s);
    SplitTopTags(t, limit, nb, t', s, s');
    RecutTopOrderly(t, base, limit, s, {}, t.top, t.top + nb, t', s');
    LiveAfterCutTop(t, limit, t.top, t.top + nb, t', t.top);
  }

  lemma SplitTopTags(t: Tiles, limit: Addr, nb: nat, t': Tiles, s: Store, s': Store)
    requires 0 < nb && t.top + nb < limit && t.top in s.head && s.head[t.top].pinuse
    requires s' ==
      s.(head := s.head[t.top + nb := Head(limit - t.top - nb, true, false)][t.top := Head(nb, true, true)])
    ensures TagsCutTop(t, limit, t.top, t.top + nb, t', s.head, s.foot, s'.head, s'.foot)
  {
  }

  lemma TopNotUsed(t: Tiles, base: Addr, limit: Addr, s: Store)
    requires Orderly(t, base, limit, s, {})
    ensures t.top !in Live(t)
  {
  }

  // ---------------------------------------------------------------- when nothing fits

  /** No free chunk has `nb` bytes, and the top chunk has not more than that. */
  ghost predicate NothingFits(t: Tiles, nb: nat, limit: Addr) {
    (forall a <- t.size | IsFree(t, a) :: t.size[a] < nb) && t.top < limit && limit - t.top <= nb
  }

  /** All sizes are within the segment. */
  lemma StoreBounds(t: Tiles, base: Addr, limit: Addr, s: Store)
    requires Orderly(t, base, limit, s, {})
    ensures |s.small| == 32 && base <= t.top && s.dvsize <= limit - base && t.top % 8 == 0
    ensures forall a <- s.large :: a in s.largeSize && s.largeSize[a] <= limit - base
  {
    DvFacts(t, base, limit, s, {});
    TopFacts(t, base, limit, s, {});
    SmallBins(t, base, limit, s);
    FirstAfter(t, base, limit, t.top);
    hide Orderly;
    if s.dv != NULL {
      HeaderOf(t, base, limit, s, {}, s.dv);
    }
    forall a <- s.large ensures a in s.largeSize && s.largeSize[a] <= limit - base {
      LargeIsFree(t, base, limit, s, a);
      HeaderOf(t, base, limit, s, {}, a);
    }
  }

  lemma SmallBins(t: Tiles, base: Addr, limit: Addr, s: Store)
    requires Orderly(t, base, limit, s, {})
    ensures |s.small| == 32
  {
    hide Row, Tagged, Aligned;
  }

  lemma NoneFits(t: Tiles, base: Addr, limit: Addr, s: Store, nb: nat)
    requires Orderly(t, base, limit, s, {}) && NonePreferred(t, s, nb) && s.dvsize < nb && t.top < limit &&
      limit - t.top <= nb
    ensures NothingFits(t, nb, limit)
  {
    DvFacts(t, base, limit, s, {});
    NullIsNone(t, base, limit);
    hide Orderly;
    forall a <- t.size | IsFree(t, a) ensures t.size[a] < nb {
      assert a != s.dv ==> ToFile(t, s.dv, {}, a);
    }
  }

  // ---------------------------------------------------------------- which chunk is used

  /** The designated victim and the top chunk are in no bin. */
  lemma NotFiled(t: Tiles, base: Addr, limit: Addr, s: Store)
    requires Orderly(t, base, limit, s, {})
    ensures !ToFile(t, s.dv, {}, s.dv) && !ToFile(t, s.dv, {}, t.top)
  {
  }

  /** No chunk is larger than the segment. */
  lemma NoneSoLarge(t: Tiles, base: Addr, limit: Addr, s: Store, nb: nat)
    requires Orderly(t, base, limit, s, {}) && limit - base < nb
    ensures NonePreferred(t, s, nb)
  {
    hide Orderly;
    forall a <- t.size ensures t.size[a] < nb {
      HeaderOf(t, base, limit, s, {}, a);
    }
  }

  lemma StoreLarge(t: Tiles, base: Addr, limit: Addr, s: Store)
    requires Orderly(t, base, limit, s, {})
    ensures forall a <- s.large :: a in s.largeSize && MIN_LARGE_SIZE <= s.largeSize[a]
  {
    hide Row, Tagged, Aligned;
  }

  /** Whether a filed chunk of `n` bytes goes before the designated victim. */
  predicate Preferred(nb: nat, n: nat, dvsize: nat) {
    nb <= n && (dvsize < nb || if nb < MIN_LARGE_SIZE then n <= nb + 8 && n < MIN_LARGE_SIZE else n < dvsize)
  }

  ghost predicate NonePreferred(t: Tiles, s: Store, nb: nat) {
    forall a <- t.size | ToFile(t, s.dv, {}, a) :: !Preferred(nb, t.size[a], s.dvsize)
  }

  /**
   * The chunk that a request for `nb` bytes is served from: the smallest filed one
   * that fits, if it is preferred to the designated victim; or the designated
   * victim, if it fits; or the top chunk.
   */
  ghost predicate Chosen(t: Tiles, s: Store, nb: nat, p: Addr) {
    if ToFile(t, s.dv, {}, p) then
      && Preferred(nb, t.size[p], s.dvsize)
      && forall a <- t.size | ToFile(t, s.dv, {}, a) && nb <= t.size[a] :: t.size[p] <= t.size[a]
    else NonePreferred(t, s, nb) && p == if nb <= s.dvsize then s.dv else t.top
  }

  /** The first small bin in use holds the smallest filed chunks that fit. */
  lemma SmallBinChosen(t: Tiles, base: Addr, limit: Addr, s: Store, nb: nat, i: nat)
    requires Orderly(t, base, limit, s, {}) && nb % 8 == 0 && nb / 8 <= i < 32 == |s.small| && s.small[i] != []
    requires (forall k :: nb / 8 <= k < i ==> s.small[k] == []) && (nb <= s.dvsize ==> 8 * i <= nb + 8)
    ensures Chosen(t, s, nb, s.small[i][0])
  {
    FirstOfBin(t, base, limit, s, i);
    hide Orderly;
    forall a <- t.size | ToFile(t, s.dv, {}, a) && nb <= t.size[a] ensures 8 * i <= t.size[a] {
      BinsOf(t, base, limit, s, {}, a);
    }
  }

  /** Without a small chunk that fits, the smallest of the large ones is the smallest of all. */
  lemma LargeChosen(t: Tiles, base: Addr, limit: Addr, s: Store, nb: nat, p: Addr)
    requires Orderly(t, base, limit, s, {}) && nb % 8 == 0 && |s.small| == 32 && p in s.large && p in s.largeSize
    requires Preferred(nb, s.largeSize[p], s.dvsize)
    requires nb < MIN_LARGE_SIZE ==> forall k :: nb / 8 <= k < 32 ==> s.small[k] == []
    requires forall a <- s.large | a in s.largeSize && nb <= s.largeSize[a] :: s.largeSize[p] <= s.largeSize[a]
    ensures Chosen(t, s, nb, p)
  {
    LargeIsFree(t, base, limit, s, p);
    hide Orderly;
    forall a <- t.size | ToFile(t, s.dv, {}, a) && nb <= t.size[a] ensures t.size[p] <= t.size[a] {
      BinsOf(t, base, limit, s, {}, a);
      if t.size[a] >= MIN_LARGE_SIZE {
        LargeIsFree(t, base, limit, s, a);
      }
    }
  }

  lemma NoneIsPreferred(t: Tiles, base: Addr, limit: Addr, s: Store, nb: nat)
    requires Orderly(t, base, limit, s, {}) && nb % 8 == 0 && |s.small| == 32
    requires nb < MIN_LARGE_SIZE ==>
      forall k :: nb / 8 <= k < 32 && (nb <= s.dvsize ==> 8 * k <= nb + 8) ==> s.small[k] == []
    requires forall a <- s.large | a in s.largeSize :: !Preferred(nb, s.largeSize[a], s.dvsize)
    ensures NonePreferred(t, s, nb)
  {
    hide Orderly;
    forall a <- t.size | ToFile(t, s.dv, {}, a) ensures !Preferred(nb, t.size[a], s.dvsize) {
      BinsOf(t, base, limit, s, {}, a);
      if t.size[a] >= MIN_LARGE_SIZE {
        LargeIsFree(t, base, limit, s, a);
      }
    }
  }

  /** The first bin from `i` on that is not empty, or 32. */
  function FirstNonempty(small: seq<seq<Addr>>, i: nat): (j: nat)
    requires i <= 32 == |small|
    ensures i <= j <= 32 && (j < 32 ==> small[j] != []) && forall k :: i <= k < j ==> small[k] == []
    decreases 32 - i
  {
    if i == 32 || small[i] != [] then i else FirstNonempty(small, i + 1)
  }

  lemma FirstOfBin(t: Tiles, base: Addr, limit: Addr, s: Store, i: nat)
    requires Orderly(t, base, limit, s, {}) && i < |s.small| == 32 && s.small[i] != []
    ensures var p := s.small[i][0]; ToFile(t, s.dv, {}, p) && t.size[p] == 8 * i && p !in Live(t)
  {
    hide Row, Tagged, Aligned;
    assert s.small[i][0] in s.small[i];
  }

  lemma LargeIsFree(t: Tiles, base: Addr, limit: Addr, s: Store, p: Addr)
    requires Orderly(t, base, limit, s, {}) && p in s.large
    ensures ToFile(t, s.dv, {}, p) && MIN_LARGE_SIZE <= t.size[p] && p in s.largeSize && s.largeSize[p] == t.size[p] &&
      p !in Live(t)
  {
    hide Row, Tagged, Aligned;
  }

  // ---------------------------------------------------------------- freeing

  /** The free chunk before `p`, found by the size it left there. */
  lemma BackFacts(t: Tiles, base: Addr, limit: Addr, s: Store, pending: set<Addr>, p: Addr)
    requires Orderly(t, base, limit, s, pending) && p in t.used && p in t.size && p in s.head && !s.head[p].pinuse
    ensures p in s.foot && s.foot[p] <= p && IsFree(t, p - s.foot[p]) && t.size[p - s.foot[p]] == s.foot[p] &&
      0 < s.foot[p]
  {
    hide Filing, Aligned;
    HeaderOf(t, base, limit, s, pending, p);
    assert PrevOk(t, base, p);
    assert TagOk(t, base, s.head, s.foot, t.prev[p]) && NextOk(t, t.prev[p]);
  }

  /** The stretch that is freed with `p`: from the free chunk before it to the end of the free chunk after it. */
  predicate Stretch(t: Tiles, q: Addr, p: Addr, e: Addr) {
    && p in t.size && p in t.used && p != t.top
    && (q == p || (IsFree(t, q) && q + t.size[q] == p))
    && var n := p + t.size[p];
      n in t.size && (e == n || (IsFree(t, n) && e == n + t.size[n]))
  }

  lemma StretchFacts(t: Tiles, base: Addr, limit: Addr, s: Store, pending: set<Addr>, q: Addr, p: Addr, e: Addr)
    requires Orderly(t, base, limit, s, pending) && Stretch(t, q, p, e)
    ensures e in t.size && q in t.size && q <= p < e && q + MIN_CHUNK_SIZE <= e && e % 8 == 0 && 0 < q && p in t.used
    ensures FreeIn(t, q, e) == (if q < p then {q} else {}) + (if p + t.size[p] < e then {p + t.size[p]} else {})
    ensures forall a <- t.used | a in t.size && a != p :: a < q || e <= a
    ensures PrevUsed(t, base, p) || q < p ==> PrevUsed(t, base, q)
    ensures p + t.size[p] < e ==> e in t.used
    ensures q in s.head && e in s.head && s.head[q].pinuse == PrevUsed(t, base, q) &&
      (p + t.size[p] < e ==> !s.head[e].pinuse)
  {
    var n := p + t.size[p];
    HeaderOf(t, base, limit, s, pending, p);
    HeaderOf(t, base, limit, s, pending, q);
    HeaderOf(t, base, limit, s, pending, n);
    if q < p {
      FreeChunk(t, base, limit, s, pending, q);
    }
    if n < e {
      FreeChunk(t, base, limit, s, pending, n);
    }
    HeaderOf(t, base, limit, s, pending, e);
    assert Row(t, base, limit);
    hide Orderly, Row;
    forall a | a in t.size ensures a < q || a == q || a == p || a == n || e <= a {
      NothingBetween(t, base, limit, q, a);
      NothingBetween(t, base, limit, p, a);
      NothingBetween(t, base, limit, n, a);
    }
  }

  lemma FreedTags(t: Tiles, q: Addr, e: Addr, t': Tiles, s: Store, s': Store)
    requires q < e && q in s.head && s.head[q].pinuse && e in s.head
    requires s'.head == s.head[q := Head(e - q, true, false)][e := s.head[e].(pinuse := false)] &&
      s'.foot == s.foot[e := e - q]
    ensures TagsCut(t, q, e, e, false, false, t', s.head, s.foot, s'.head, s'.foot)
  {
  }

  lemma FreedCutOk(t: Tiles, base: Addr, q: Addr, e: Addr)
    requires q + MIN_CHUNK_SIZE <= e && e in t.used && PrevUsed(t, base, q)
    ensures CutOk(t, base, q, e, e, false, false)
  {
  }

  lemma FreedPiece(t: Tiles, q: Addr, e: Addr, t': Tiles, top: Addr)
    requires Recut(t, q, e, e, false, false, t') && q != t.top
    ensures IsFree(t', q) && t'.size[q] == e - q
  {
  }

  /** The stretch becomes one free chunk, not yet filed. */
  lemma CoalesceOrderly(t: Tiles, base: Addr, limit: Addr, s: Store, pending: set<Addr>, q: Addr, p: Addr, e: Addr,
      t': Tiles, s': Store)
    requires Orderly(t, base, limit, s, pending) && Stretch(t, q, p, e) && pending == FreeIn(t, q, e) &&
      (s.dv == NULL || s.dv < q || e <= s.dv)
    requires (PrevUsed(t, base, p) || q < p) && e in t.used && q < e && e in s.head && e in t.size &&
      Recut(t, q, e, e, false, false, t')
    requires s' == s.(head := s.head[q := Head(e - q, true, false)][e := s.head[e].(pinuse := false)],
      foot := s.foot[e := e - q])
    ensures Orderly(t', base, limit, s', {q}) && Live(t') == Live(t) - {p}
    ensures IsFree(t', q) && t'.size[q] == e - q
  {
    hide Orderly, Recut, Live;
    StretchFacts(t, base, limit, s, pending, q, p, e);
    assert Pieces(q, e, e, false, false) == {q};
    assert q != t.top;
    FreedTags(t, q, e, t', s, s');
    FreedCutOk(t, base, q, e);
    hide *;
    RecutOrderly(t, base, limit, s, pending, q, e, e, false, false, t', s');
    LiveAfterCut(t, q, e, e, false, t', p);
    FreedPiece(t, q, e, t', t.top);
  }

  /** The stretch, of which the designated victim is part, becomes the designated victim. */
  lemma CoalesceDvOrderly(t: Tiles, base: Addr, limit: Addr, s: Store, pending: set<Addr>, q: Addr, p: Addr, e: Addr,
      t': Tiles, s': Store)
    requires Orderly(t, base, limit, s, pending) && Stretch(t, q, p, e) && s.dv in FreeIn(t, q, e) &&
      pending == FreeIn(t, q, e) - {s.dv}
    requires (PrevUsed(t, base, p) || q < p) && e in t.used && q < e && e in s.head && e in t.size &&
      Recut(t, q, e, e, false, false, t')
    requires s' == s.(head := s.head[q := Head(e - q, true, false)][e := s.head[e].(pinuse := false)],
      foot := s.foot[e := e - q],
                      dv := q, dvsize := e - q)
    ensures Orderly(t', base, limit, s', {}) && Live(t') == Live(t) - {p}
  {
    hide Orderly, Recut, Stretch;
    var s1 := s.(dv := NULL, dvsize := 0);
    NullNotFree(t, base, limit, s, pending);
    ForgetDvOrderly(t, base, limit, s, pending, s1);
    assert pending + {s.dv} == FreeIn(t, q, e);
    var s2 := s'.(dv := NULL, dvsize := 0);
    CoalesceOrderly(t, base, limit, s1, pending + {s.dv}, q, p, e, t', s2);
    SetDvOrderly(t', base, limit, s2, {q}, q, s');
    assert {q} - {q} == {};
  }

  lemma NullNotFree(t: Tiles, base: Addr, limit: Addr, s: Store, pending: set<Addr>)
    requires Orderly(t, base, limit, s, pending)
    ensures !IsFree(t, NULL)
  {
    NullIsNone(t, base, limit);
  }

  lemma TopStretch(t: Tiles, base: Addr, limit: Addr, s: Store, pending: set<Addr>, q: Addr, p: Addr)
    requires Orderly(t, base, limit, s, pending) && Stretch(t, q, p, t.top)
    ensures FreeIn(t, q, limit) == FreeIn(t, q, t.top) && (forall a <- t.used | a in t.size && a != p :: a < q)
    ensures q in t.size && q in s.head && q < t.top < limit && q % 8 == 0 &&
      (PrevUsed(t, base, p) || q < p ==> PrevUsed(t, base, q))
    ensures s.dv != NULL ==> s.dv < q || s.dv in FreeIn(t, q, t.top)
  {
    TopFacts(t, base, limit, s, pending);
    StretchFacts(t, base, limit, s, pending, q, p, t.top);
    HeaderOf(t, base, limit, s, pending, q);
    DvFacts(t, base, limit, s, pending);
    assert Row(t, base, limit);
    hide Orderly, Row, Stretch;
    forall a | a in t.size ensures a <= t.top {
      NothingBetween(t, base, limit, t.top, a);
      if t.top < a {
        Disjoint(t, base, limit, t.top, a);
      }
    }
  }

  /** The stretch before the top chunk becomes part of it. */
  lemma CoalesceTopOrderly(t: Tiles, base: Addr, limit: Addr, s: Store, pending: set<Addr>, q: Addr, p: Addr,
      t': Tiles, s': Store)
    requires Orderly(t, base, limit, s, pending) && Stretch(t, q, p, t.top) && s.dv !in FreeIn(t, q, t.top) &&
      pending == FreeIn(t, q, t.top)
    requires (PrevUsed(t, base, p) || q < p) && q <= limit && RecutTop(t, limit, q, q, t')
    requires s' == s.(head := s.head[q := Head(limit - q, true, false)])
    ensures Orderly(t', base, limit, s', {}) && Live(t') == Live(t) - {p}
  {
    TopStretch(t, base, limit, s, pending, q, p);
    assert TagsCutTop(t, limit, q, q, t', s.head, s.foot, s'.head, s'.foot) by { hide Orderly, RecutTop; }
    assert p in t.used && q <= p;
    hide Orderly, RecutTop, Stretch, Live;
    RecutTopOrderly(t, base, limit, s, pending, q, q, t', s');
    LiveAfterCutTop(t, limit, q, q, t', p);
  }

  lemma CoalesceTopDvOrderly(t: Tiles, base: Addr, limit: Addr, s: Store, pending: set<Addr>, q: Addr, p: Addr,
      t': Tiles, s': Store)
    requires Orderly(t, base, limit, s, pending) && Stretch(t, q, p, t.top) && s.dv in FreeIn(t, q, t.top) &&
      pending == FreeIn(t, q, t.top) - {s.dv}
    requires (PrevUsed(t, base, p) || q < p) && q <= limit && RecutTop(t, limit, q, q, t')
    requires s' == s.(head := s.head[q := Head(limit - q, true, false)], dv := NULL, dvsize := 0)
    ensures Orderly(t', base, limit, s', {}) && Live(t') == Live(t) - {p}
  {
    hide Orderly, RecutTop, Stretch;
    var s1 := s.(dv := NULL, dvsize := 0);
    NullNotFree(t, base, limit, s, pending);
    ForgetDvOrderly(t, base, limit, s, pending, s1);
    assert pending + {s.dv} == FreeIn(t, q, t.top);
    CoalesceTopOrderly(t, base, limit, s1, pending + {s.dv}, q, p, t', s');
  }

  lemma UsedIsNotTop(t: Tiles, base: Addr, limit: Addr, s: Store, pending: set<Addr>, p: Addr)
    requires Orderly(t, base, limit, s, pending) && p in t.used
    ensures p != t.top && p in t.size
  {
  }

  lemma DvOutside(t: Tiles, base: Addr, limit: Addr, s: Store, pending: set<Addr>, q: Addr, e: Addr)
    requires Orderly(t, base, limit, s, pending) && s.dv !in FreeIn(t, q, e)
    ensures s.dv == NULL || s.dv < q || e <= s.dv
  {
    DvFacts(t, base, limit, s, pending);
    hide Orderly;
  }

  // ---------------------------------------------------------------- resizing a chunk in use

  lemma ResizeTags(t: Tiles, p: Addr, m: Addr, e: Addr, second: bool, t': Tiles, s: Store, s': Store)
    requires p < m <= e && p in s.head && e in s.head
    requires s'.head == if m < e
      then s.head[p := Head(m - p, s.head[p].pinuse, true)]
        [m := Head(e - m, true, second)][e := s.head[e].(pinuse := second)]
      else s.head[p := Head(m - p, s.head[p].pinuse, true)][e := s.head[e].(pinuse := true)]
    requires s'.foot == if m < e && !second then s.foot[e := e - m] else s.foot
    ensures TagsCut(t, p, m, e, true, second, t', s.head, s.foot, s'.head, s'.foot)
  {
  }

  lemma ResizeCutOk(t: Tiles, base: Addr, p: Addr, m: Addr, e: Addr, second: bool)
    requires p + MIN_CHUNK_SIZE <= m <= e && (m < e ==> m + MIN_CHUNK_SIZE <= e && (second || e in t.used))
    ensures CutOk(t, base, p, m, e, true, second)
  {
  }

  /** The chunk `p`, perhaps with the free chunk after it, is cut anew: `p` up to `m`, and what is left of it. */
  lemma ResizeOrderly(t: Tiles, base: Addr, limit: Addr, s: Store, pending: set<Addr>, p: Addr, m: Addr, e: Addr,
      second: bool, t': Tiles, s': Store)
    requires Orderly(t, base, limit, s, pending) && Stretch(t, p, p, e) && pending == FreeIn(t, p, e) &&
      (s.dv == NULL || s.dv < p || e <= s.dv)
    requires p + MIN_CHUNK_SIZE <= m <= e && (m < e ==> m + MIN_CHUNK_SIZE <= e && (second || e in t.used)) &&
      m % 8 == 0
    requires e in t.size && e in s.head && p in s.head && Recut(t, p, m, e, true, second, t')
    requires s' == s.(head := s'.head, foot := s'.foot)
    requires s'.head == if m < e
      then s.head[p := Head(m - p, s.head[p].pinuse, true)]
        [m := Head(e - m, true, second)][e := s.head[e].(pinuse := second)]
      else s.head[p := Head(m - p, s.head[p].pinuse, true)][e := s.head[e].(pinuse := true)]
    requires s'.foot == if m < e && !second then s.foot[e := e - m] else s.foot
    ensures Orderly(t', base, limit, s', if m < e && !second then {m} else {})
    ensures !second || m == e ==> Live(t') == Live(t)[p := m - p]
    ensures second && m < e ==> Live(t') == Live(t)[p := m - p][m := e - m] && m !in Live(t)
    ensures m < e && !second ==> IsFree(t', m) && t'.size[m] == e - m
  {
    hide Orderly, Recut, Live;
    StretchFacts(t, base, limit, s, pending, p, p, e);
    assert Pieces(p, m, e, true, second) == if m < e && !second then {m} else {};
    ResizeTags(t, p, m, e, second, t', s, s');
    ResizeCutOk(t, base, p, m, e, second);
    if m < e {
      TopNotWithin(t, base, limit, s, pending, p, m, e);
    }
    hide *;
    RecutOrderly(t, base, limit, s, pending, p, m, e, true, second, t', s');
    LiveAfterResize(t, p, m, e, second, t');
    if m < e && !second {
      SplitRest(t, p, m, e, t');
    }
  }

  lemma TopNotWithin(t: Tiles, base: Addr, limit: Addr, s: Store, pending: set<Addr>, p: Addr, m: Addr, e: Addr)
    requires Orderly(t, base, limit, s, pending) && p in t.size && e in t.size && p < m < e
    ensures m != t.top
  {
    if m == t.top {
      Disjoint(t, base, limit, t.top, e);
    }
  }

  lemma ResizeDvOrderly(t: Tiles, base: Addr, limit: Addr, s: Store, p: Addr, m: Addr, e: Addr, t': Tiles, s': Store)
    requires Orderly(t, base, limit, s, {}) && Stretch(t, p, p, e) && s.dv in FreeIn(t, p, e)
    requires p + MIN_CHUNK_SIZE <= m <= e && (m < e ==> m + MIN_CHUNK_SIZE <= e) && e in t.used && m % 8 == 0
    requires e in t.size && e in s.head && p in s.head && Recut(t, p, m, e, true, false, t')
    requires s' == s.(head := s'.head, foot := s'.foot, dv := if m < e then m else NULL, dvsize := e - m)
    requires s'.head == if m < e
      then
        s.head[p := Head(m - p, s.head[p].pinuse, true)][m := Head(e - m, true, false)]
          [e := s.head[e].(pinuse := false)]
      else s.head[p := Head(m - p, s.head[p].pinuse, true)][e := s.head[e].(pinuse := true)]
    requires s'.foot == if m < e then s.foot[e := e - m] else s.foot
    ensures Orderly(t', base, limit, s', {}) && Live(t') == Live(t)[p := m - p]
  {
    hide Orderly, Recut, Live;
    var s1 := s.(dv := NULL, dvsize := 0);
    NullNotFree(t, base, limit, s, {});
    OneFreeIn(t, base, limit, s, p, e);
    ForgetDvOrderly(t, base, limit, s, {}, s1);
    assert {} + {s.dv} == FreeIn(t, p, e);
    var s2 := s'.(dv := NULL, dvsize := 0);
    ResizeOrderly(t, base, limit, s1, {} + {s.dv}, p, m, e, false, t', s2);
    if m < e {
      SetDvOrderly(t', base, limit, s2, {m}, m, s');
      assert {m} - {m} == {};
    }
  }

  lemma OneFreeIn(t: Tiles, base: Addr, limit: Addr, s: Store, p: Addr, e: Addr)
    requires Orderly(t, base, limit, s, {}) && Stretch(t, p, p, e) && s.dv in FreeIn(t, p, e)
    ensures FreeIn(t, p, e) == {s.dv}
  {
    StretchFacts(t, base, limit, s, {}, p, p, e);
  }

  /** The chunk before the top chunk grows into it. */
  lemma ResizeTopOrderly(t: Tiles, base: Addr, limit: Addr, s: Store, p: Addr, m: Addr, t': Tiles, s': Store)
    requires Orderly(t, base, limit, s, {}) && Stretch(t, p, p, t.top) && p + MIN_CHUNK_SIZE <= m < limit && m % 8 == 0
    requires p in s.head && RecutTop(t, limit, p, m, t')
    requires s' == s.(head := s.head[p := Head(m - p, s.head[p].pinuse, true)][m := Head(limit - m, true, false)])
    ensures Orderly(t', base, limit, s', {}) && Live(t') == Live(t)[p := m - p]
  {
    TopStretch(t, base, limit, s, {}, p, p);
    StretchFacts(t, base, limit, s, {}, p, p, t.top);
    DvFacts(t, base, limit, s, {});
    assert FreeIn(t, p, limit) == {};
    assert TagsCutTop(t, limit, p, m, t', s.head, s.foot, s'.head, s'.foot) by { hide Orderly, RecutTop; }
    hide Orderly, RecutTop, Stretch, Live;
    RecutTopOrderly(t, base, limit, s, {}, p, m, t', s');
    LiveAfterCutTop(t, limit, p, m, t', p);
  }

  /** The chunk `p` is too large for `nb` bytes by less than a chunk, and the others are as before. */
  predicate Resized(live: map<Addr, nat>, p: Addr, nb: nat, live': map<Addr, nat>) {
    p in live' && nb <= live'[p] < nb + MIN_CHUNK_SIZE && live' == live[p := live'[p]]
  }

  /** The chunk `p` cannot have `nb` bytes where it is. */
  predicate NoRoom(t: Tiles, p: Addr, nb: nat, limit: Addr) {
    && p in t.size && t.size[p] < nb
    && var n := p + t.size[p];
      if n == t.top then n < limit && p + nb >= limit
      else n in t.size && (n in t.used || p + nb > n + t.size[n])
  }

  lemma StretchStart(t: Tiles, p: Addr, e: Addr)
    requires Stretch(t, p, p, e)
    ensures p in t.size
  {
  }

  lemma VictimAfter(t: Tiles, base: Addr, limit: Addr, s: Store, p: Addr, e: Addr)
    requires Orderly(t, base, limit, s, {}) && Stretch(t, p, p, e) && s.dv in FreeIn(t, p, e)
    ensures e in t.used
  {
    StretchFacts(t, base, limit, s, {}, p, p, e);
  }

  lemma AllocatedIsChunk(t: Tiles, base: Addr, limit: Addr, s: Store, live: map<Addr, nat>, p: Addr, nb: nat)
    requires Orderly(t, base, limit, s, {}) && Allocated(live, p, nb, Live(t))
    ensures (p + 16) % 8 == 0
  {
    HeaderOf(t, base, limit, s, {}, p);
  }
}
