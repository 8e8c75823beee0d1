/**
 * What the allocator does with its free chunks: which bin a chunk goes to and where in
 * it, what is left of a chunk that serves a request, and what a freed one merges with.
 */
module HeapPolicy {
  import opened TreeIndex
  import opened TreeLinks
  import opened TreeRings
  import opened Collections
  import opened Tiling
  import opened HeapSpec

  /** The bins, each in its order, and the designated victim. */
  datatype Books = Books(small: seq<seq<Addr>>, large: map<nat, seq<Addr>>, dv: Addr, dvsize: nat)

  predicate IsSmall(s: nat) {
    s / 8 < 32
  }

  function SmallBin(b: Books, i: nat): seq<Addr> {
    if i < |b.small| then b.small[i] else []
  }

  function WithSmall(b: Books, i: nat, r: seq<Addr>): Books {
    if i < |b.small| then b.(small := b.small[i := r]) else b
  }

  function SizeOf(t: Tiles, a: Addr): nat {
    if a in t.size then t.size[a] else 0
  }

  /** insert_chunk: first in its small bin, or in the ring of its size. */
  function Added(b: Books, p: Addr, s: nat): Books {
    if IsSmall(s) then WithSmall(b, s / 8, [p] + SmallBin(b, s / 8)) else b.(large := Joining(b.large, p, s))
  }

  /** unlink_chunk */
  function Taken(b: Books, p: Addr, s: nat): Books {
    if IsSmall(s) then WithSmall(b, s / 8, RemoveFirst(SmallBin(b, s / 8), p)) else b.(large := Leaving(b.large, p, s))
  }

  predicate IsFirst(b: Books, p: Addr, s: nat) {
    if IsSmall(s) then SmallBin(b, s / 8) != [] && SmallBin(b, s / 8)[0] == p
    else s in b.large && b.large[s] != [] && b.large[s][0] == p
  }

  /** The old victim, if any, is filed. */
  function VictimReplaced(b: Books, p: Addr, s: nat): Books {
    (if b.dvsize != 0 then Added(b, b.dv, b.dvsize) else b).(dv := p, dvsize := s)
  }

  /** The victim shrinks to what follows `r` up to `e`, if that is a chunk. */
  function VictimShrunk(b: Books, r: Addr, e: Addr): Books {
    if r + MIN_CHUNK_SIZE <= e then b.(dv := r, dvsize := e - r) else b.(dv := NULL, dvsize := 0)
  }

  /** The books once the filed chunk `p` of `s` bytes serves a request for `nb` bytes. */
  function ServedFiled(b: Books, nb: nat, p: Addr, s: nat): Books {
    var taken := Taken(b, p, s);
    if s < nb + MIN_CHUNK_SIZE then taken
    else if nb < MIN_LARGE_SIZE then VictimReplaced(taken, p + nb, s - nb)
    else Added(taken, p + nb, s - nb)
  }

  /** The books once the chunk `p` of the row `t` serves a request for `nb` bytes. */
  function Served(b: Books, t: Tiles, nb: nat, p: Addr): Books {
    if ToFile(t, b.dv, {}, p) then ServedFiled(b, nb, p, SizeOf(t, p))
    else if p == b.dv then VictimShrunk(b, p + nb, p + SizeOf(t, p))
    else b
  }

  /** A filed chunk that serves a request is the first of its bin. */
  predicate ServedInTurn(b: Books, t: Tiles, p: Addr) {
    ToFile(t, b.dv, {}, p) ==> IsFirst(b, p, SizeOf(t, p))
  }

  /** The chunk `q` is free and ends where `p` begins. */
  predicate EndsAt(t: Tiles, q: Addr, p: Addr) {
    IsFree(t, q) && q + t.size[q] == p
  }

  /** Where the free chunk before `p` begins, or `p` itself. */
  ghost function FreeFrom(t: Tiles, p: Addr): Addr {
    if exists q: Addr :: EndsAt(t, q, p) then var q: Addr :| EndsAt(t, q, p); q else p
  }

  /** The books once the chunk `p` in use is free: what is before it is merged, and what comes after. */
  ghost function Freed(b: Books, t: Tiles, p: Addr): Books {
    var q, n := FreeFrom(t, p), p + SizeOf(t, p);
    FreedUpTo(if q < p && q != b.dv then Taken(b, q, p - q) else b, t, q, n)
  }

  /** The stretch from `q` to `n` is free and, but for the victim, out of its bin. */
  function FreedUpTo(b: Books, t: Tiles, q: Addr, n: Addr): Books {
    if n == t.top then if q == b.dv then b.(dv := NULL, dvsize := 0) else b
    else if !IsFree(t, n) then Merged(b, q, n, q == b.dv)
    else
      var e := n + SizeOf(t, n);
      if n == b.dv then Merged(b, q, e, true) else Merged(Taken(b, n, SizeOf(t, n)), q, e, q == b.dv)
  }

  /** The free stretch becomes the victim, or it is filed. */
  function Merged(b: Books, q: Addr, e: Addr, victim: bool): Books {
    var s := if q < e then e - q else 0;
    if victim then b.(dv := q, dvsize := s) else Added(b, q, s)
  }

  /** The chunk `p`, which is to have `nb` bytes of the stretch up to `e`, gives the rest back. */
  ghost function Trimmed(b: Books, t: Tiles, p: Addr, nb: nat, e: Addr): Books {
    if p in t.size && e in t.size && 0 < nb && p + nb + MIN_CHUNK_SIZE <= e
    then Freed(b, Cut(t, p, p + nb, e, true, true), p + nb) else b
  }

  /** The books once the chunk `p` has been given room for `nb` bytes where it is. */
  ghost function InPlace(b: Books, t: Tiles, p: Addr, nb: nat): Books {
    var n := p + SizeOf(t, p);
    if nb <= SizeOf(t, p) then Trimmed(b, t, p, nb, n)
    else if n == t.top then b
    else if n == b.dv then VictimShrunk(b, p + nb, n + SizeOf(t, n))
    else Trimmed(Taken(b, n, SizeOf(t, n)), t, p, nb, n + SizeOf(t, n))
  }

  // ---------------------------------------------------------------- what precedes a chunk

  lemma FreeBefore(t: Tiles, base: Addr, limit: Addr, s: Store, pending: set<Addr>, p: Addr, q: Addr)
    requires Orderly(t, base, limit, s, pending) && p in t.size && EndsAt(t, q, p)
    ensures FreeFrom(t, p) == q
  {
    var r: Addr :| EndsAt(t, r, p) && r == FreeFrom(t, p);
    assert Row(t, base, limit);
    FirstAfter(t, base, limit, p);
    NoTopBefore(t, base, limit, p, q);
    NoTopBefore(t, base, limit, p, r);
    hide Orderly, Row;
    if q < r {
      Disjoint(t, base, limit, q, r);
    } else if r < q {
      Disjoint(t, base, limit, r, q);
    }
  }

  lemma NoTopBefore(t: Tiles, base: Addr, limit: Addr, p: Addr, q: Addr)
    requires Row(t, base, limit) && p in t.size && EndsAt(t, q, p)
    ensures 0 < t.size[q] && q < p
  {
    assert NextOk(t, q);
  }

  lemma NothingBefore(t: Tiles, base: Addr, limit: Addr, s: Store, pending: set<Addr>, p: Addr)
    requires Orderly(t, base, limit, s, pending) && p in t.size && PrevUsed(t, base, p)
    ensures FreeFrom(t, p) == p
  {
    assert Row(t, base, limit);
    if q: Addr :| EndsAt(t, q, p) {
      assert NextOk(t, q);
      FirstAfter(t, base, limit, q);
    }
  }

  // ---------------------------------------------------------------- what serves a request

  /** The bins and the victim of the fields are those of the books. */
  predicate Kept(s: Store, b: Books) {
    b.small == s.small && b.dv == s.dv && b.dvsize == s.dvsize
  }

  lemma SmallServed(t: Tiles, base: Addr, limit: Addr, s: Store, b: Books, nb: nat, i: nat)
    requires Orderly(t, base, limit, s, {}) && Kept(s, b) && i < 32 == |s.small| && s.small[i] != []
    ensures var p := s.small[i][0]; ServedInTurn(b, t, p) && Served(b, t, nb, p) == ServedFiled(b, nb, p, 8 * i)
    ensures SizeOf(t, s.small[i][0]) == 8 * i
  {
    FirstOfBin(t, base, limit, s, i);
    hide Orderly, ServedFiled;
  }

  lemma VictimServed(t: Tiles, base: Addr, limit: Addr, s: Store, b: Books, nb: nat)
    requires Orderly(t, base, limit, s, {}) && Kept(s, b) && s.dvsize != 0
    ensures ServedInTurn(b, t, s.dv) && Served(b, t, nb, s.dv) == VictimShrunk(b, s.dv + nb, s.dv + s.dvsize)
  {
    DvFacts(t, base, limit, s, {});
    hide Orderly;
  }

  lemma TopServed(t: Tiles, base: Addr, limit: Addr, s: Store, b: Books, nb: nat)
    requires Orderly(t, base, limit, s, {}) && Kept(s, b)
    ensures ServedInTurn(b, t, t.top) && Served(b, t, nb, t.top) == b
  {
    TopFacts(t, base, limit, s, {});
    HeaderOf(t, base, limit, s, {}, t.top);
    DvFacts(t, base, limit, s, {});
    hide Orderly;
  }

  lemma TrimmedIs(b: Books, t: Tiles, p: Addr, nb: nat, e: Addr)
    requires p in t.size && e in t.size && 0 < nb
    ensures p + nb + MIN_CHUNK_SIZE <= e ==>
      Trimmed(b, t, p, nb, e) == Freed(b, Cut(t, p, p + nb, e, true, true), p + nb)
    ensures e < p + nb + MIN_CHUNK_SIZE ==> Trimmed(b, t, p, nb, e) == b
  {
    hide Freed, Cut;
  }

  /** The header of the chunk after a freed one tells whether it is free, in use or the top. */
  lemma NextTells(t: Tiles, base: Addr, limit: Addr, s: Store, pending: set<Addr>, n: Addr)
    requires Orderly(t, base, limit, s, pending) && n in t.size
    ensures n in s.head && SizeOf(t, n) == s.head[n].size && (n == t.top ==> !s.head[n].cinuse)
    ensures n != t.top ==> (IsFree(t, n) <==> !s.head[n].cinuse)
  {
    HeaderOf(t, base, limit, s, pending, n);
    TopFacts(t, base, limit, s, pending);
    hide Orderly;
  }

  // ---------------------------------------------------------------- what the books promise

  /** What is left of a chunk of `s` bytes at `p` is the victim, if it is a chunk; otherwise the victim is as before. */
  predicate RestBecomesVictim(b: Books, nb: nat, p: Addr, s: nat, b': Books) {
    if nb + MIN_CHUNK_SIZE <= s then b'.dv == p + nb && b'.dvsize == s - nb else b'.dv == b.dv && b'.dvsize == b.dvsize
  }

  /** The victim after a request: only small requests that are served from a bin, and the victim's own, change it. */
  lemma ServedVictim(b: Books, t: Tiles, nb: nat, p: Addr)
    ensures var b' := Served(b, t, nb, p);
      if ToFile(t, b.dv, {}, p) && nb < MIN_LARGE_SIZE then RestBecomesVictim(b, nb, p, SizeOf(t, p), b')
      else if !ToFile(t, b.dv, {}, p) && p == b.dv
      then RestBecomesVictim(b.(dv := NULL, dvsize := 0), nb, p, SizeOf(t, p), b')
      else b'.dv == b.dv && b'.dvsize == b.dvsize
  {
  }

  /** The victim once `q` to `n` is free: it takes in what is next to it, unless the top chunk does. */
  predicate VictimTakesIn(b: Books, t: Tiles, q: Addr, n: Addr, b': Books) {
    if n == t.top then
      if b.dv == q then b'.dv == NULL && b'.dvsize == 0 else b'.dv == b.dv && b'.dvsize == b.dvsize
    else if b.dv == q then b'.dv == q && b'.dvsize == (if IsFree(t, n) then n + SizeOf(t, n) else n) - q
    else if b.dv == n && IsFree(t, n) then b'.dv == q && b'.dvsize == n + SizeOf(t, n) - q
    else b'.dv == b.dv && b'.dvsize == b.dvsize
  }

  lemma FreedVictim(b: Books, t: Tiles, p: Addr)
    requires 0 < SizeOf(t, p)
    ensures VictimTakesIn(b, t, FreeFrom(t, p), p + SizeOf(t, p), Freed(b, t, p))
  {
    FreeFromBound(t, p);
    hide Added, Taken, FreedUpTo, FreeFrom, VictimTakesIn;
    FreedFrom(b, t, FreeFrom(t, p), p, p + SizeOf(t, p));
  }

  lemma FreedFrom(b: Books, t: Tiles, q: Addr, p: Addr, n: Addr)
    requires q <= p < n
    ensures VictimTakesIn(b, t, q, n, FreedUpTo(if q < p && q != b.dv then Taken(b, q, p - q) else b, t, q, n))
  {
    BinsKeepVictim(b, q, p - q);
    hide Taken, FreedUpTo;
    MergedVictim(if q < p && q != b.dv then Taken(b, q, p - q) else b, t, q, n);
  }

  /** Filing a chunk, or taking it out of its bin, does not touch the victim. */
  lemma BinsKeepVictim(b: Books, p: Addr, s: nat)
    ensures Added(b, p, s).dv == b.dv && Added(b, p, s).dvsize == b.dvsize
    ensures Taken(b, p, s).dv == b.dv && Taken(b, p, s).dvsize == b.dvsize
  {
  }

  lemma MergedVictim(b: Books, t: Tiles, q: Addr, n: Addr)
    requires q < n
    ensures VictimTakesIn(b, t, q, n, FreedUpTo(b, t, q, n))
  {
    var e := n + SizeOf(t, n);
    BinsKeepVictim(b, q, n - q);
    BinsKeepVictim(b, n, SizeOf(t, n));
    BinsKeepVictim(Taken(b, n, SizeOf(t, n)), q, e - q);
    hide Added, Taken;
  }

  /** The victim once the rest of a stretch up to `e`, behind a chunk `p` of `nb` bytes, is free if it is a chunk. */
  predicate VictimTakesRest(b: Books, t: Tiles, p: Addr, nb: nat, e: Addr, b': Books) {
    if p + nb + MIN_CHUNK_SIZE <= e then VictimTakesIn(b, t, p + nb, e, b') else b'.dv == b.dv && b'.dvsize == b.dvsize
  }

  /** The victim once the chunk `p` has `nb` bytes in place: it takes in the rest, or `p` grows into it. */
  predicate VictimInPlace(b: Books, t: Tiles, p: Addr, nb: nat, b': Books) {
    var n := p + SizeOf(t, p);
    if nb <= SizeOf(t, p) then VictimTakesRest(b, t, p, nb, n, b')
    else if n == t.top then b'.dv == b.dv && b'.dvsize == b.dvsize
    else if n == b.dv then RestBecomesVictim(b.(dv := NULL, dvsize := 0), nb, p, n + SizeOf(t, n) - p, b')
    else VictimTakesRest(b, t, p, nb, n + SizeOf(t, n), b')
  }

  lemma TakenVictim(b: Books, t: Tiles, p: Addr, nb: nat, e: Addr, b': Books, q: Addr, s: nat)
    requires VictimTakesRest(Taken(b, q, s), t, p, nb, e, b')
    ensures VictimTakesRest(b, t, p, nb, e, b')
  {
    BinsKeepVictim(b, q, s);
    hide Taken;
  }

  lemma RestVictim(b: Books, t: Tiles, p: Addr, r: Addr, e: Addr, t': Tiles, base: Addr, limit: Addr, s: Store)
    requires p in t.size && e in t.size && p < r < e && t' == Cut(t, p, r, e, true, true)
    requires Orderly(t', base, limit, s, {})
    ensures VictimTakesIn(b, t, r, e, Freed(b, t', r))
  {
    assert r in t'.size && PrevUsed(t', base, r) && SizeOf(t', r) == e - r && t'.top == t.top;
    assert (IsFree(t', e) <==> IsFree(t, e)) && SizeOf(t', e) == SizeOf(t, e);
    NothingBefore(t', base, limit, s, {}, r);
    hide Orderly, Freed, FreeFrom, Cut;
    FreedVictim(b, t', r);
  }

  lemma FreeFromBound(t: Tiles, p: Addr)
    ensures FreeFrom(t, p) <= p
  {
  }

  // ---------------------------------------------------------------- whose turn it is

  function Backwards(r: seq<Addr>): seq<Addr> {
    if r == [] then [] else Backwards(r[1..]) + [r[0]]
  }

  /** The chunks of a bin or, if it is a tree bin, of one size in it, in the order in which they are to be taken. */
  function Turns(b: Books, s: nat): seq<Addr> {
    if IsSmall(s) then SmallBin(b, s / 8)
    else if s in b.large && b.large[s] != [] then [b.large[s][0]] + Backwards(b.large[s][1..])
    else []
  }

  predicate SameBin(s: nat, n: nat) {
    s == n || (IsSmall(s) && IsSmall(n) && s / 8 == n / 8)
  }

  lemma FirstHasTurn(b: Books, p: Addr, s: nat)
    ensures IsFirst(b, p, s) <==> Turns(b, s) != [] && Turns(b, s)[0] == p
  {
  }

  /** Small chunks are taken last in, first out; large ones of one size first in, first out. */
  lemma AddedTurns(b: Books, p: Addr, s: nat)
    requires |b.small| == 32
    ensures Turns(Added(b, p, s), s) == if IsSmall(s) then [p] + Turns(b, s) else Turns(b, s) + [p]
    ensures forall n: nat :: !SameBin(s, n) ==> Turns(Added(b, p, s), n) == Turns(b, n)
  {
    if !IsSmall(s) && s in b.large && b.large[s] != [] {
      var r := b.large[s];
      assert ([r[0], p] + r[1..])[1..] == [p] + r[1..];
      assert ([p] + r[1..])[1..] == r[1..];
    }
  }

  /** Whichever chunk is taken out, the others keep their turns. */
  lemma TakenTurns(b: Books, p: Addr, s: nat)
    requires |b.small| == 32 && (!IsSmall(s) && s in b.large ==> Distinct(b.large[s]))
    ensures Turns(Taken(b, p, s), s) == RemoveFirst(Turns(b, s), p)
    ensures forall n: nat :: !SameBin(s, n) ==> Turns(Taken(b, p, s), n) == Turns(b, n)
  {
    if !IsSmall(s) && s in b.large {
      RingTurns(b, p, s, b.large[s]);
    }
  }

  lemma RingTurns(b: Books, p: Addr, s: nat, r: seq<Addr>)
    requires !IsSmall(s) && s in b.large && b.large[s] == r && Distinct(r)
    ensures Turns(Taken(b, p, s), s) == RemoveFirst(Turns(b, s), p)
  {
    if r == [] {
      return;
    }
    var rest := r[1..];
    assert r == [r[0]] + rest && Turns(b, s) == [r[0]] + Backwards(rest);
    assert ([r[0]] + Backwards(rest))[1..] == Backwards(rest);
    if r[0] != p {
      RemoveBackwards(rest, p);
      if p !in rest {
        NothingRemoved(rest, p);
      } else {
        assert ([r[0]] + RemoveFirst(rest, p))[1..] == RemoveFirst(rest, p);
      }
    } else if rest != [] {
      var n := |rest| - 1;
      LastFirst(rest[..n], rest[n]);
      assert rest == rest[..n] + [rest[n]] && r[1..|r| - 1] == rest[..n];
    }
  }

  lemma {:induction false} NothingRemoved(r: seq<Addr>, p: Addr)
    requires p !in r
    ensures RemoveFirst(r, p) == r
  {
    if r != [] {
      NothingRemoved(r[1..], p);
    }
  }

  lemma {:induction false} LastFirst(r: seq<Addr>, a: Addr)
    ensures Backwards(r + [a]) == [a] + Backwards(r)
  {
    if r == [] {
      assert [a][1..] == [];
    } else {
      LastFirst(r[1..], a);
      assert (r + [a])[1..] == r[1..] + [a];
    }
  }

  lemma {:induction false} RemoveBackwards(r: seq<Addr>, p: Addr)
    requires Distinct(r)
    ensures Backwards(RemoveFirst(r, p)) == RemoveFirst(Backwards(r), p)
    ensures p in Backwards(r) <==> p in r
  {
    if r != [] {
      RemoveBackwards(r[1..], p);
      RemoveBefore(Backwards(r[1..]), r[0], p);
      if r[0] != p {
        assert ([r[0]] + RemoveFirst(r[1..], p))[1..] == RemoveFirst(r[1..], p);
        if p !in r[1..] {
          NothingRemoved(Backwards(r[1..]), p);
        }
      }
    }
  }

  lemma {:induction false} RemoveBefore(r: seq<Addr>, a: Addr, p: Addr)
    ensures RemoveFirst(r + [a], p) ==
      if p in r then RemoveFirst(r, p) + [a] else if a == p then r else r + [a]
  {
    if r != [] {
      RemoveBefore(r[1..], a, p);
      assert (r + [a])[1..] == r[1..] + [a];
    }
  }

  /** Taking out what was just put in leaves every bin as it was, in its order. */
  lemma TakingUndoesAdding(b: Books, p: Addr, s: nat)
    requires |b.small| == 32 && (s in b.large ==> b.large[s] != [] && p !in b.large[s])
    ensures Taken(Added(b, p, s), p, s) == b
  {
    if IsSmall(s) {
      assert RemoveFirst([p] + b.small[s / 8], p) == b.small[s / 8];
    } else if s in b.large {
      var r := b.large[s];
      var j := [r[0], p] + r[1..];
      assert j[1..] == [p] + r[1..];
      assert RemoveFirst(j, p) == r;
    }
  }
}
