/**
 * What an insertion writes, pointer by pointer, for sizes of every kind, and that
 * the search of the heap checker meets the chunk afterwards.
 */
module TreeInsert {
  import opened TreeIndex
  import opened TreeTrie
  import opened TreeLinks
  import opened TreeBinsSpec

  /** The bit that the key of a descent shows. */
  function TopBit(k: nat): nat {
    if k >= TWO_63 then 1 else 0
  }

  /** From `t`, steps by the bits of `k` past `n` chunks of other sizes lead to `t'`, where `k'` is left. */
  predicate Walks(m: Memory, t: Addr, k: nat, s: nat, n: nat, t': Addr, k': nat)
    decreases n
  {
    && k < TWO_64
    && if n == 0 then t == t' && k == k' else
       && t != NULL && t in m.child && t in m.size && m.size[t] != s
       && Walks(m, m.child[t].At(TopBit(k)), ShiftLeft(k), s, n - 1, t', k')
  }

  /** The descent in bin `i` by the bits of `s` comes to the chunk `t` after `n` steps. */
  predicate ComesTo(m: Memory, i: nat, s: nat, n: nat, t: Addr, k: nat) {
    && i <= LAST_BIN && i < |m.treebins| && s < TWO_64
    && Walks(m, m.treebins[i], Key(s, LeftShift(i)), s, n, t, k) && t != NULL && t in m.size && t in m.child
  }

  function Prepared(m: Memory, x: Addr, i: nat): Memory {
    m.(index := m.index[x := i], child := m.child[x := NO_CHILDREN])
  }

  function Started(m: Memory, x: Addr, i: nat): Memory
    requires i < |m.treebins|
  {
    m.(treemap := m.treemap + {i}, treebins := m.treebins[i := x], parent := m.parent[x := Bin(i)],
       fd := m.fd[x := x], bk := m.bk[x := x])
  }

  function Hung(m: Memory, x: Addr, t: Addr, bit: nat): Memory
    requires t in m.child
  {
    m.(child := m.child[t := m.child[t].With(bit, x)], parent := m.parent[x := Chunk(t)],
       fd := m.fd[x := x], bk := m.bk[x := x])
  }

  function Joined(m: Memory, x: Addr, t: Addr): Memory
    requires t in m.fd
  {
    m.(fd := m.fd[t := x][x := m.fd[t]], bk := m.bk[m.fd[t] := x][x := t], parent := m.parent[x := NoLink])
  }

  /** `m'` is `m` with `x` at `t`: in the ring of its size or, where there is none, as a new leaf. */
  ghost predicate PlacedAt(m: Memory, m': Memory, x: Addr, s: nat, t: Addr, k: nat)
    requires t in m.size && t in m.child
  {
    if m.size[t] == s then t in m.fd && m' == Joined(m, x, t)
    else m.child[t].At(TopBit(k)) == NULL && m' == Hung(m, x, t, TopBit(k))
  }

  /** What inserting `x` makes of the fields. */
  ghost predicate Inserted(m: Memory, m': Memory, x: Addr, s: nat) {
    var i, m1 := TreeIndexOf(s), Prepared(m, x, TreeIndexOf(s));
    && i < |m.treebins|
    && if i !in m.treemap then m' == Started(m1, x, i)
       else exists n: nat, t, k: nat :: ComesTo(m1, i, s, n, t, k) && t != x && PlacedAt(m1, m', x, s, t, k)
  }

  /** The search of the heap checker comes to a chunk of the size of `x` that is `x` or has it next in its ring. */
  ghost predicate Met(m: Memory, x: Addr) {
    && x in m.size && TreeIndexOf(m.size[x]) in m.treemap
    && exists n: nat, t, k: nat :: ComesTo(m, TreeIndexOf(m.size[x]), m.size[x], n, t, k) &&
         m.size[t] == m.size[x] && (t == x || (t in m.fd && m.fd[t] == x))
  }

  lemma BinCount(m: Memory, g: Trees)
    requires Sound(m, g)
    ensures |m.treebins| == 32
  {
  }

  lemma NotPlaced(m: Memory, g: Trees, x: Addr, p: Slot, t: Addr)
    requires Sound(m, g) && x !in g.own && p in g.ring && t == Head(g.ring, p)
    ensures t != x
  {
    hide Trie, AllBinned, AllLinked, ChildLinks, ParentLinks, Indexed, Roots;
    UsedSize(m, g, p, t);
  }

  lemma InsertedFirst(m: Memory, m': Memory, x: Addr, s: nat)
    requires TreeIndexOf(s) < |m.treebins| && TreeIndexOf(s) !in m.treemap
    requires m' == Started(Prepared(m, x, TreeIndexOf(s)), x, TreeIndexOf(s))
    ensures Inserted(m, m', x, s)
  {
  }

  lemma InsertedBelow(m: Memory, m': Memory, x: Addr, s: nat, n: nat, t: Addr, k: nat)
    requires TreeIndexOf(s) < |m.treebins| && TreeIndexOf(s) in m.treemap && t != x
    requires ComesTo(Prepared(m, x, TreeIndexOf(s)), TreeIndexOf(s), s, n, t, k)
    requires t in m.size && t in Prepared(m, x, TreeIndexOf(s)).child
    requires PlacedAt(Prepared(m, x, TreeIndexOf(s)), m', x, s, t, k)
    ensures Inserted(m, m', x, s)
  {
  }

  lemma NoWalk(m: Memory, t: Addr, k: nat, s: nat)
    requires k < TWO_64
    ensures Walks(m, t, k, s, 0, t, k)
  {
  }

  lemma {:induction false} WalkOn(m: Memory, t: Addr, k: nat, s: nat, n: nat, t': Addr, k': nat)
    requires Walks(m, t, k, s, n, t', k')
    requires t' != NULL && t' in m.child && t' in m.size && m.size[t'] != s
    ensures k' < TWO_64 && Walks(m, t, k, s, n + 1, m.child[t'].At(TopBit(k')), ShiftLeft(k'))
    decreases n
  {
    if n > 0 {
      WalkOn(m, m.child[t].At(TopBit(k)), ShiftLeft(k), s, n - 1, t', k');
    }
  }

  /** A walk goes the same way when null links are set. */
  lemma {:induction false} SameWalk(m: Memory, m': Memory, t: Addr, k: nat, s: nat, n: nat, t': Addr, k': nat)
    requires Walks(m, t, k, s, n, t', k') && t' != NULL && m'.size == m.size && m.child.Keys <= m'.child.Keys
    requires forall a <- m.child, bit | 0 <= bit < 2 && m.child[a].At(bit) != NULL ::
      m'.child[a].At(bit) == m.child[a].At(bit)
    ensures Walks(m', t, k, s, n, t', k')
    decreases n
  {
    if n > 0 {
      SameWalk(m, m', m.child[t].At(TopBit(k)), ShiftLeft(k), s, n - 1, t', k');
    }
  }

  /** Whatever the size, be its index right or wrong: the chunk is met after it was inserted. */
  lemma InsertedIsMet(m: Memory, m': Memory, x: Addr, s: nat)
    requires Inserted(m, m', x, s) && x in m.size && m.size[x] == s < TWO_64 && x != NULL
    ensures Met(m', x)
  {
    hide TreeIndexOf, Key;
    var i, m1 := TreeIndexOf(s), Prepared(m, x, TreeIndexOf(s));
    if i !in m.treemap {
      IndexBound(s);
      assert ComesTo(m', i, s, 0, x, Key(s, LeftShift(i)));
    } else {
      var n: nat, t, k: nat :| ComesTo(m1, i, s, n, t, k) && t != x && PlacedAt(m1, m', x, s, t, k);
      SameWalk(m1, m', m1.treebins[i], Key(s, LeftShift(i)), s, n, t, k);
      if m.size[t] == s {
        assert ComesTo(m', i, s, n, t, k);
      } else {
        WalkOn(m', m1.treebins[i], Key(s, LeftShift(i)), s, n, t, k);
        assert ComesTo(m', i, s, n + 1, x, ShiftLeft(k));
      }
    }
  }
}
