/**
 * The chunks of each size in the trees, in the order of their ring: the first one is
 * the one in the tree, which the searches find.
 */
module TreeRings {
  import opened Collections
  import opened TreeIndex
  import opened TreeTrie
  import opened TreeLinks
  import opened TreeBinsSpec

  ghost function SizesIn(g: Trees): set<nat> {
    set s | s in g.key && s in g.ring :: g.key[s]
  }

  ghost function RingOfSize(g: Trees, n: nat): seq<Addr>
    requires n in SizesIn(g)
  {
    var s :| s in g.key && s in g.ring && g.key[s] == n;
    g.ring[s]
  }

  /** The ring of each size that is filed. */
  ghost function Rings(g: Trees): map<nat, seq<Addr>> {
    map n | n in SizesIn(g) :: RingOfSize(g, n)
  }

  /** The chunk goes behind the first one of its size, if there is one. */
  function Joining(rings: map<nat, seq<Addr>>, x: Addr, n: nat): map<nat, seq<Addr>> {
    if n in rings && rings[n] != [] then rings[n := [rings[n][0], x] + rings[n][1..]] else rings[n := [x]]
  }

  /** The last chunk of a ring replaces the first one; a ring of one chunk is gone with it. */
  function Leaving(rings: map<nat, seq<Addr>>, x: Addr, n: nat): map<nat, seq<Addr>> {
    if n !in rings || x !in rings[n] then rings
    else if |rings[n]| == 1 then rings - {n}
    else if rings[n][0] == x then rings[n := [rings[n][|rings[n]| - 1]] + rings[n][1..|rings[n]| - 1]]
    else rings[n := RemoveFirst(rings[n], x)]
  }

  /** Each size has one place only. */
  lemma OnePlace(g: Trees, s: Slot, t: Slot)
    requires Trie(g.key) && AllBinned(g.key) && s in g.key && t in g.key && g.key[s] == g.key[t]
    ensures s == t
  {
    hide TreeIndexOf, InBin;
    assert Binned(s.index, g.key[s]) && Binned(t.index, g.key[t]);
  }

  lemma RingAt(g: Trees, s: Slot)
    requires Trie(g.key) && AllBinned(g.key) && s in g.key && s in g.ring
    ensures g.key[s] in Rings(g) && Rings(g)[g.key[s]] == g.ring[s]
  {
    hide Trie, AllBinned;
    var n := g.key[s];
    assert n in SizesIn(g);
    var t :| t in g.key && t in g.ring && g.key[t] == n && RingOfSize(g, n) == g.ring[t];
    OnePlace(g, s, t);
  }

  /** What a map has to tell of every place to be that of the rings. */
  lemma RingsAre(g: Trees, rings: map<nat, seq<Addr>>)
    requires forall s <- g.key :: s in g.ring && g.key[s] in rings && rings[g.key[s]] == g.ring[s]
    requires forall n <- rings :: exists s :: s in g.key && g.key[s] == n
    ensures Rings(g) == rings
  {
    forall n ensures n in SizesIn(g) <==> n in rings {
      if n in rings {
        var s :| s in g.key && g.key[s] == n;
      }
    }
  }

  /** Writing one place changes the ring of its size. */
  lemma RingsPut(g: Trees, s: Slot, k: nat, r: seq<Addr>, g': Trees)
    requires Trie(g'.key) && AllBinned(g'.key) && Trie(g.key) && AllBinned(g.key)
    requires Put(g, s, k, r, g') && (s in g.key ==> g.key[s] == k) && (forall t :: t in g.ring <==> t in g.key)
    ensures Rings(g') == Rings(g)[k := r]
  {
    hide Trie, AllBinned, Moved;
    var rings := Rings(g)[k := r];
    forall t <- g'.key ensures t in g'.ring && g'.key[t] in rings && rings[g'.key[t]] == g'.ring[t] {
      if t != s {
        RingAt(g, t);
        if g'.key[t] == k {
          OnePlace(g', s, t);
        }
      }
    }
    forall n <- rings ensures exists t :: t in g'.key && g'.key[t] == n {
      if n == k {
        assert s in g'.key && g'.key[s] == n;
      } else {
        var t :| t in g.key && t in g.ring && g.key[t] == n;
        assert t in g'.key && g'.key[t] == n;
      }
    }
    RingsAre(g', rings);
  }

  /** A place that falls out of use takes its size with it. */
  lemma RingsDrop(g: Trees, s: Slot, g': Trees)
    requires Trie(g.key) && AllBinned(g.key) && s in g.key && Drop(g, s, g')
    requires forall t :: t in g.ring <==> t in g.key
    ensures Rings(g') == Rings(g) - {g.key[s]}
  {
    hide Trie, AllBinned, Moved;
    var rings := Rings(g) - {g.key[s]};
    forall t <- g'.key ensures t in g'.ring && g'.key[t] in rings && rings[g'.key[t]] == g'.ring[t] {
      RingAt(g, t);
      if g.key[t] == g.key[s] {
        OnePlace(g, s, t);
      }
    }
    forall n <- rings ensures exists t :: t in g'.key && g'.key[t] == n {
      var t :| t in g.key && t in g.ring && g.key[t] == n;
      assert t in g'.key && g'.key[t] == n;
    }
    RingsAre(g', rings);
  }

  /** A chunk alone at a place `s` leaves; the leaf `q` comes there with its ring. */
  lemma RingsReplace(g: Trees, s: Slot, q: Slot, g1: Trees, g': Trees)
    requires Trie(g.key) && AllBinned(g.key) && (forall t :: t in g.ring <==> t in g.key)
    requires s in g.key && q in g.key && q != s && q in g.ring && Drop(g, q, g1) && Put(g1, s, g.key[q], g.ring[q], g')
    ensures Rings(g') == Rings(g) - {g.key[s]}
  {
    hide Trie, AllBinned, Moved;
    var rings := Rings(g) - {g.key[s]};
    forall t <- g'.key ensures t in g'.ring && g'.key[t] in rings && rings[g'.key[t]] == g'.ring[t] {
      var u := if t == s then q else t;
      RingAt(g, u);
      if g.key[u] == g.key[s] {
        OnePlace(g, s, u);
      }
    }
    forall n <- rings ensures exists t :: t in g'.key && g'.key[t] == n {
      var t :| t in g.key && t in g.ring && g.key[t] == n;
      var u := if t == q then s else t;
      assert u in g'.key && g'.key[u] == n;
    }
    RingsAre(g', rings);
  }

  // ---------------------------------------------------------------- insertion and removal

  lemma RingsStart(g: Trees, s: Slot, n: nat, x: Addr, g': Trees)
    requires Trie(g.key) && AllBinned(g.key) && Trie(g'.key) && AllBinned(g'.key)
    requires Put(g, s, n, [x], g') && s !in g.key && (forall t :: t in g.ring <==> t in g.key)
    ensures Rings(g') == Joining(Rings(g), x, n)
  {
    hide Trie, AllBinned, Moved;
    RingsPut(g, s, n, [x], g');
    if n in Rings(g) {
      var t :| t in g.key && t in g.ring && g.key[t] == n;
      OnePlace(g', s, t);
    }
  }

  lemma RingsJoin(g: Trees, s: Slot, x: Addr, g': Trees)
    requires Trie(g.key) && AllBinned(g.key) && Trie(g'.key) && AllBinned(g'.key) && s in g.key && s in g.ring
    requires g.ring[s] != [] && Put(g, s, g.key[s], [g.ring[s][0], x] + g.ring[s][1..], g')
    requires forall t :: t in g.ring <==> t in g.key
    ensures Rings(g') == Joining(Rings(g), x, g.key[s])
  {
    hide Trie, AllBinned, Moved;
    RingAt(g, s);
    RingsPut(g, s, g.key[s], [g.ring[s][0], x] + g.ring[s][1..], g');
  }

  lemma {:induction false} RemoveAt(r: seq<Addr>, k: nat)
    requires k < |r| && Distinct(r)
    ensures RemoveFirst(r, r[k]) == r[..k] + r[k + 1..]
  {
    if k > 0 {
      assert r[1..][k - 1] == r[k];
      RemoveAt(r[1..], k - 1);
      assert r[0] != r[k];
      assert r[1..][..k - 1] == r[1..k] && r[1..][k..] == r[k + 1..];
      assert r[..k] == [r[0]] + r[1..k];
    }
  }

  lemma RingsLeave(g: Trees, s: Slot, k: nat, g': Trees)
    requires Trie(g.key) && AllBinned(g.key) && Trie(g'.key) && AllBinned(g'.key) && s in g.key && s in g.ring
    requires k < |g.ring[s]| && |g.ring[s]| > 1 && Distinct(g.ring[s])
    requires Put(g, s, g.key[s], Without(g.ring[s], k), g') && (forall t :: t in g.ring <==> t in g.key)
    ensures Rings(g') == Leaving(Rings(g), g.ring[s][k], g.key[s])
  {
    hide Trie, AllBinned, Moved;
    RingAt(g, s);
    RingsPut(g, s, g.key[s], Without(g.ring[s], k), g');
    RemoveAt(g.ring[s], k);
  }

  lemma RingsAlone(g: Trees, s: Slot, x: Addr)
    requires Trie(g.key) && AllBinned(g.key) && s in g.key && s in g.ring && g.ring[s] == [x]
    ensures Leaving(Rings(g), x, g.key[s]) == Rings(g) - {g.key[s]}
  {
    RingAt(g, s);
  }

  /** `x` is the first in the ring of its size, hence the one in the tree. */
  ghost predicate FirstOfSize(g: Trees, x: Addr, n: nat) {
    n in Rings(g) && Rings(g)[n] != [] && Rings(g)[n][0] == x
  }

  lemma RingMember(m: Memory, g: Trees, s: Slot, k: nat)
    requires Filed(g.key, g.ring, m.size, g.own) && s in g.ring && s in g.key && k < |g.ring[s]|
    ensures Distinct(g.ring[s]) && g.ring[s][k] in m.size && m.size[g.ring[s][k]] == g.key[s]
  {
    assert RingOf(s, g.ring[s], g.key[s], m.size, g.own);
    assert g.ring[s][k] in g.ring[s];
  }

  lemma HeadIsFirstOfSize(m: Memory, g: Trees, s: Slot, x: Addr)
    requires Sound(m, g) && s in g.ring && s in g.key && x == Head(g.ring, s)
    ensures FirstOfSize(g, x, g.key[s])
  {
    hide AllLinked, ChildLinks, ParentLinks, Indexed, Roots, Trie, AllBinned, Rings;
    RingAt(g, s);
    UsedSize(m, g, s, x);
  }
}
