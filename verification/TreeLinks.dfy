/**
 * How the fields of the chunks represent the trees: a place in use holds a ring
 * of chunks of one size, the first of which carries the links of the tree.
 */
module TreeLinks {
  import opened Collections
  import opened TreeIndex
  import opened TreeTrie

  type Addr = nat
  const NULL: Addr := 0

  datatype Children = Children(left: Addr, right: Addr) {
    function At(bit: nat): Addr {
      if bit == 0 then left else right
    }

    function With(bit: nat, a: Addr): Children {
      if bit == 0 then this.(left := a) else this.(right := a)
    }
  }

  const NO_CHILDREN := Children(NULL, NULL)

  /** What a `parent` field points to. */
  datatype Link = NoLink | Bin(index: nat) | Chunk(address: Addr)

  // ---------------------------------------------------------------- who is where

  predicate RingOf(s: Slot, r: seq<Addr>, k: nat, size: map<Addr, nat>, own: map<Addr, Slot>) {
    && r != [] && Distinct(r)
    && forall a <- r :: a in size && size[a] == k && a in own && own[a] == s
  }

  /** The rings hold the chunks, each of them once and at a place of its size. */
  ghost predicate Filed(key: map<Slot, nat>, ring: map<Slot, seq<Addr>>, size: map<Addr, nat>, own: map<Addr, Slot>) {
    && NULL !in own
    && (forall s :: s in ring <==> s in key)
    && (forall s <- ring :: RingOf(s, ring[s], key[s], size, own))
    && (forall a <- own :: own[a] in ring && a in ring[own[a]])
  }

  function Head(ring: map<Slot, seq<Addr>>, s: Slot): Addr {
    if s in ring && ring[s] != [] then ring[s][0] else NULL
  }

  // ---------------------------------------------------------------- the links

  function Next(r: seq<Addr>, k: nat): (n: nat)
    requires k < |r|
  {
    if k + 1 < |r| then k + 1 else 0
  }

  function Previous(r: seq<Addr>, k: nat): (p: nat)
    requires k < |r|
  {
    if k == 0 then |r| - 1 else k - 1
  }

  predicate LinkedAt(r: seq<Addr>, k: nat, fd: map<Addr, Addr>, bk: map<Addr, Addr>)
    requires k < |r|
  {
    && r[k] in fd && fd[r[k]] == r[Next(r, k)]
    && r[k] in bk && bk[r[k]] == r[Previous(r, k)]
  }

  predicate Linked(r: seq<Addr>, fd: map<Addr, Addr>, bk: map<Addr, Addr>) {
    forall k :: 0 <= k < |r| ==> LinkedAt(r, k, fd, bk)
  }

  ghost predicate AllLinked(ring: map<Slot, seq<Addr>>, fd: map<Addr, Addr>, bk: map<Addr, Addr>) {
    forall s <- ring :: Linked(ring[s], fd, bk)
  }

  function ChildrenOf(ring: map<Slot, seq<Addr>>, s: Slot, a: Addr): Children {
    if a == Head(ring, s) then Children(Head(ring, Kid(s, 0)), Head(ring, Kid(s, 1))) else NO_CHILDREN
  }

  ghost predicate ChildLinks(ring: map<Slot, seq<Addr>>, own: map<Addr, Slot>, child: map<Addr, Children>) {
    forall a <- own :: a in child && child[a] == ChildrenOf(ring, own[a], a)
  }

  function Above(ring: map<Slot, seq<Addr>>, s: Slot): Link {
    if s == RootSlot(s.index) then Bin(s.index) else Chunk(Head(ring, Up(s)))
  }

  function ParentOf(ring: map<Slot, seq<Addr>>, s: Slot, a: Addr): Link {
    if a == Head(ring, s) then Above(ring, s) else NoLink
  }

  ghost predicate ParentLinks(ring: map<Slot, seq<Addr>>, own: map<Addr, Slot>, parent: map<Addr, Link>) {
    forall a <- own :: a in parent && parent[a] == ParentOf(ring, own[a], a)
  }

  predicate Indexed(own: map<Addr, Slot>, index: map<Addr, nat>) {
    forall a <- own :: a in index && index[a] == own[a].index
  }

  predicate Roots(ring: map<Slot, seq<Addr>>, treebins: seq<Addr>, treemap: set<nat>) {
    && |treebins| == 32
    && (forall i :: 0 <= i < 32 ==> treebins[i] == Head(ring, RootSlot(i)))
    && (forall i :: 0 <= i < 32 ==> (i in treemap <==> RootSlot(i) in ring))
    && (forall i <- treemap :: i < 32)
  }

  // ---------------------------------------------------------------- changing the rings

  /** The chunks of ring `r` are at place `s`, and the others where they were, except those that were at `s`. */
  ghost predicate Moved(own: map<Addr, Slot>, s: Slot, r: seq<Addr>, own': map<Addr, Slot>) {
    && (forall a :: a in own' <==> a in r || (a in own && own[a] != s))
    && (forall a <- own' :: own'[a] == if a in r then s else own[a])
  }

  function Place(own: map<Addr, Slot>, s: Slot, r: seq<Addr>): (own': map<Addr, Slot>)
    ensures Moved(own, s, r, own')
  {
    map a | a in own.Keys + (set b | b in r) && (a in r || own[a] != s) :: if a in r then s else own[a]
  }

  /** Ring `r` of size `k` comes to place `s`, which may have been in use or not. */
  lemma FiledPut(key: map<Slot, nat>, ring: map<Slot, seq<Addr>>, size: map<Addr, nat>, own: map<Addr, Slot>,
      s: Slot, k: nat, r: seq<Addr>, own': map<Addr, Slot>)
    requires Filed(key, ring, size, own) && Moved(own, s, r, own')
    requires forall a <- r :: a in own ==> own[a] == s
    requires r != [] && Distinct(r) && forall a <- r :: a != NULL && a in size && size[a] == k
    ensures Filed(key[s := k], ring[s := r], size, own')
  {
  }

  /** The ring at place `s` goes away. */
  lemma FiledDrop(key: map<Slot, nat>, ring: map<Slot, seq<Addr>>, size: map<Addr, nat>, own: map<Addr, Slot>,
      s: Slot, own': map<Addr, Slot>)
    requires Filed(key, ring, size, own) && Moved(own, s, [], own')
    ensures Filed(key - {s}, ring - {s}, size, own')
  {
  }

  lemma HeadOwned(key: map<Slot, nat>, ring: map<Slot, seq<Addr>>, size: map<Addr, nat>, own: map<Addr, Slot>, s: Slot)
    requires Filed(key, ring, size, own)
    ensures s in ring ==> Head(ring, s) in own && own[Head(ring, s)] == s && Head(ring, s) != NULL
  {
    if s in ring {
      assert RingOf(s, ring[s], key[s], size, own);
      assert ring[s][0] in ring[s];
    }
  }

  /** What becomes of the children of the chunk above `s` when the first chunk at `s` changes to `h`. */
  function Rehung(ring: map<Slot, seq<Addr>>, child: map<Addr, Children>, s: Slot, h: Addr, a: Addr): Children
    requires a in child
  {
    if a == Head(ring, Up(s)) then child[a].With(s.prefix % 2, h) else child[a]
  }

  lemma ChildLinksPut(ring: map<Slot, seq<Addr>>, own: map<Addr, Slot>, child: map<Addr, Children>,
      s: Slot, r: seq<Addr>, own': map<Addr, Slot>, child': map<Addr, Children>)
    requires ChildLinks(ring, own, child) && Moved(own, s, r, own') && r != [] && NULL !in own
    requires Up(s) in ring ==> Head(ring, Up(s)) in own && own[Head(ring, Up(s))] == Up(s)
    requires forall a <- r :: a in own ==> own[a] == s
    requires r[0] in child' && child'[r[0]] == Children(Head(ring, Kid(s, 0)), Head(ring, Kid(s, 1)))
    requires forall a <- r | a != r[0] :: a in child' && child'[a] == NO_CHILDREN
    requires forall a <- own | own[a] != s && a in child :: a in child' && child'[a] == Rehung(ring, child, s, r[0], a)
    ensures ChildLinks(ring[s := r], own', child')
  {
    var ring' := ring[s := r];
    forall a <- own' ensures a in child' && child'[a] == ChildrenOf(ring', own'[a], a) {
      if a in r {
        assert Kid(s, 0) != s && Kid(s, 1) != s;
      } else {
        var t := own[a];
        assert child[a] == ChildrenOf(ring, t, a);
        HangsAt(t, s);
      }
    }
  }

  lemma HangsAt(t: Slot, s: Slot)
    ensures Kid(t, 0) == s <==> t == Up(s) && s.prefix % 2 == 0
    ensures Kid(t, 1) == s <==> t == Up(s) && s.prefix % 2 == 1
  {
  }

  lemma ChildLinksDrop(ring: map<Slot, seq<Addr>>, own: map<Addr, Slot>, child: map<Addr, Children>,
      s: Slot, own': map<Addr, Slot>, child': map<Addr, Children>)
    requires ChildLinks(ring, own, child) && Moved(own, s, [], own') && NULL !in own
    requires Up(s) in ring ==> Head(ring, Up(s)) in own && own[Head(ring, Up(s))] == Up(s)
    requires forall a <- own | own[a] != s && a in child :: a in child' && child'[a] == Rehung(ring, child, s, NULL, a)
    ensures ChildLinks(ring - {s}, own', child')
  {
    var ring' := ring - {s};
    forall a <- own' ensures a in child' && child'[a] == ChildrenOf(ring', own'[a], a) {
      var t := own[a];
      assert child[a] == ChildrenOf(ring, t, a);
      HangsAt(t, s);
    }
  }

  /** What becomes of the parent link of a chunk when the first chunk at `s` changes to `h`. */
  function Adopted(ring: map<Slot, seq<Addr>>, parent: map<Addr, Link>, s: Slot, h: Addr, a: Addr): Link
    requires a in parent
  {
    if a == Head(ring, Kid(s, 0)) || a == Head(ring, Kid(s, 1)) then Chunk(h) else parent[a]
  }

  lemma AdoptedParent(ring: map<Slot, seq<Addr>>, own: map<Addr, Slot>, s: Slot, r: seq<Addr>, a: Addr)
    requires r != [] && NULL !in own && s.level <= StartLevel(s.index)
    requires Kid(s, 0) in ring ==> Head(ring, Kid(s, 0)) in own && own[Head(ring, Kid(s, 0))] == Kid(s, 0)
    requires Kid(s, 1) in ring ==> Head(ring, Kid(s, 1)) in own && own[Head(ring, Kid(s, 1))] == Kid(s, 1)
    requires a in own && own[a] != s
    ensures ParentOf(ring[s := r], own[a], a) ==
            if a == Head(ring, Kid(s, 0)) || a == Head(ring, Kid(s, 1)) then Chunk(r[0]) else ParentOf(ring, own[a], a)
  {
    HangsAt(s, own[a]);
    assert own[a] == RootSlot(own[a].index) ==> Up(own[a]) != s;
  }

  lemma ParentLinksPut(ring: map<Slot, seq<Addr>>, own: map<Addr, Slot>, parent: map<Addr, Link>,
      s: Slot, r: seq<Addr>, own': map<Addr, Slot>, parent': map<Addr, Link>)
    requires ParentLinks(ring, own, parent) && Moved(own, s, r, own') && r != [] && NULL !in own
    requires s.level <= StartLevel(s.index)
    requires Kid(s, 0) in ring ==> Head(ring, Kid(s, 0)) in own && own[Head(ring, Kid(s, 0))] == Kid(s, 0)
    requires Kid(s, 1) in ring ==> Head(ring, Kid(s, 1)) in own && own[Head(ring, Kid(s, 1))] == Kid(s, 1)
    requires forall a <- r :: a in own ==> own[a] == s
    requires r[0] in parent' && parent'[r[0]] == Above(ring, s)
    requires forall a <- r | a != r[0] :: a in parent' && parent'[a] == NoLink
    requires forall a <- own | own[a] != s && a in parent ::
      a in parent' && parent'[a] == Adopted(ring, parent, s, r[0], a)
    ensures ParentLinks(ring[s := r], own', parent')
  {
    var ring' := ring[s := r];
    forall a <- own' ensures a in parent' && parent'[a] == ParentOf(ring', own'[a], a) {
      if a in r {
        assert Up(s) != s;
      } else {
        AdoptedParent(ring, own, s, r, a);
      }
    }
  }

  lemma ParentLinksDrop(ring: map<Slot, seq<Addr>>, own: map<Addr, Slot>, parent: map<Addr, Link>,
      s: Slot, own': map<Addr, Slot>)
    requires ParentLinks(ring, own, parent) && Moved(own, s, [], own') && NULL !in own
    requires Kid(s, 0) !in ring && Kid(s, 1) !in ring
    requires forall a <- own | own[a] != s :: own[a] in ring
    ensures ParentLinks(ring - {s}, own', parent)
  {
    var ring' := ring - {s};
    forall a <- own' ensures a in parent && parent[a] == ParentOf(ring', own'[a], a) {
      HangsAt(s, own[a]);
      assert parent[a] == ParentOf(ring, own[a], a);
    }
  }

  lemma IndexedPut(own: map<Addr, Slot>, index: map<Addr, nat>, s: Slot, r: seq<Addr>, own': map<Addr, Slot>,
      index': map<Addr, nat>)
    requires Indexed(own, index) && Moved(own, s, r, own')
    requires forall a <- own | own[a] != s && a in index :: a in index' && index'[a] == index[a]
    requires forall a <- r :: a in index' && index'[a] == s.index
    ensures Indexed(own', index')
  {
  }

  lemma RootsPut(ring: map<Slot, seq<Addr>>, treebins: seq<Addr>, treemap: set<nat>, s: Slot, r: seq<Addr>,
      treebins': seq<Addr>, treemap': set<nat>)
    requires Roots(ring, treebins, treemap) && r != [] && s.index < 32
    requires s == RootSlot(s.index) ==> treebins' == treebins[s.index := r[0]] && treemap' == treemap + {s.index}
    requires s != RootSlot(s.index) ==> treebins' == treebins && treemap' == treemap
    ensures Roots(ring[s := r], treebins', treemap')
  {
  }

  lemma RootsDrop(ring: map<Slot, seq<Addr>>, treebins: seq<Addr>, treemap: set<nat>, s: Slot,
      treebins': seq<Addr>, treemap': set<nat>)
    requires Roots(ring, treebins, treemap) && s.index < 32
    requires s == RootSlot(s.index) ==> treebins' == treebins[s.index := NULL] && treemap' == treemap - {s.index}
    requires s != RootSlot(s.index) ==> treebins' == treebins && treemap' == treemap
    ensures Roots(ring - {s}, treebins', treemap')
  {
  }

  predicate SameAt(a: Addr, fd: map<Addr, Addr>, bk: map<Addr, Addr>, fd': map<Addr, Addr>, bk': map<Addr, Addr>) {
    a in fd && a in bk ==> a in fd' && a in bk' && fd'[a] == fd[a] && bk'[a] == bk[a]
  }

  lemma LinkedElsewhere(t: Slot, r: seq<Addr>, k: nat, size: map<Addr, nat>, own: map<Addr, Slot>, s: Slot,
      fd: map<Addr, Addr>, bk: map<Addr, Addr>, fd': map<Addr, Addr>, bk': map<Addr, Addr>)
    requires RingOf(t, r, k, size, own) && Linked(r, fd, bk) && t != s
    requires forall a <- own | own[a] != s :: SameAt(a, fd, bk, fd', bk')
    ensures Linked(r, fd', bk')
  {
    forall j | 0 <= j < |r| ensures LinkedAt(r, j, fd', bk') {
      assert r[j] in r;
      assert LinkedAt(r, j, fd, bk);
      assert SameAt(r[j], fd, bk, fd', bk');
    }
  }

  lemma AllLinkedPut(key: map<Slot, nat>, ring: map<Slot, seq<Addr>>, size: map<Addr, nat>, own: map<Addr, Slot>,
      fd: map<Addr, Addr>, bk: map<Addr, Addr>, s: Slot, r: seq<Addr>, fd': map<Addr, Addr>, bk': map<Addr, Addr>)
    requires Filed(key, ring, size, own) && AllLinked(ring, fd, bk)
    requires Linked(r, fd', bk')
    requires forall a <- own | own[a] != s :: SameAt(a, fd, bk, fd', bk')
    ensures AllLinked(ring[s := r], fd', bk')
  {
    forall t <- ring | t != s ensures Linked(ring[t], fd', bk') {
      LinkedElsewhere(t, ring[t], key[t], size, own, s, fd, bk, fd', bk');
    }
  }

  // ---------------------------------------------------------------- changing one ring

  lemma RingAddAt(r: seq<Addr>, x: Addr, fd: map<Addr, Addr>, bk: map<Addr, Addr>, fd': map<Addr, Addr>,
      bk': map<Addr, Addr>,
      r': seq<Addr>, k: nat)
    requires r != [] && Distinct(r) && x !in r && Linked(r, fd, bk)
    requires LinkedAt(r, 0, fd, bk) && fd' == fd[r[0] := x][x := fd[r[0]]] && bk' == bk[fd[r[0]] := x][x := r[0]]
    requires |r'| == |r| + 1 && r'[0] == r[0] && r'[1] == x && forall j :: 2 <= j < |r'| ==> r'[j] == r[j - 1]
    requires k < |r'|
    ensures LinkedAt(r', k, fd', bk')
  {
    if k >= 2 {
      assert LinkedAt(r, k - 1, fd, bk);
      assert r[k - 1] != x && r[k - 1] != r[0];
      assert k > 2 ==> r[k - 1] != r[1];
    }
  }

  lemma RingAdd(r: seq<Addr>, x: Addr, fd: map<Addr, Addr>, bk: map<Addr, Addr>,
      fd': map<Addr, Addr>, bk': map<Addr, Addr>)
    requires r != [] && Distinct(r) && x !in r && Linked(r, fd, bk)
    requires LinkedAt(r, 0, fd, bk) && fd' == fd[r[0] := x][x := fd[r[0]]] && bk' == bk[fd[r[0]] := x][x := r[0]]
    ensures Distinct([r[0], x] + r[1..]) && Linked([r[0], x] + r[1..], fd', bk')
  {
    var r' := [r[0], x] + r[1..];
    assert forall j :: 2 <= j < |r'| ==> r'[j] == r[j - 1];
    forall k | 0 <= k < |r'| ensures LinkedAt(r', k, fd', bk') {
      RingAddAt(r, x, fd, bk, fd', bk', r', k);
    }
  }

  /** The ring without the chunk at `k`; the last chunk becomes the first if it was the first that left. */
  function Without(r: seq<Addr>, k: nat): seq<Addr>
    requires k < |r|
  {
    if k > 0 then r[..k] + r[k + 1..]
    else if |r| > 1 then [r[|r| - 1]] + r[1..|r| - 1]
    else []
  }

  lemma RingRemoveAt(r: seq<Addr>, k: nat, fd: map<Addr, Addr>, bk: map<Addr, Addr>,
      fd': map<Addr, Addr>, bk': map<Addr, Addr>, r': seq<Addr>, j: nat)
    requires 0 < k < |r| && Distinct(r) && Linked(r, fd, bk)
    requires bk' == bk[r[Next(r, k)] := r[k - 1]] && fd' == fd[r[k - 1] := r[Next(r, k)]]
    requires |r'| == |r| - 1 && forall i :: 0 <= i < |r'| ==> r'[i] == r[if i < k then i else i + 1]
    requires j < |r'|
    ensures LinkedAt(r', j, fd', bk')
  {
    var i := if j < k then j else j + 1;
    assert LinkedAt(r, i, fd, bk);
    assert i != k - 1 ==> r[i] != r[k - 1];
    assert i != Next(r, k) ==> r[i] != r[Next(r, k)];
    assert r'[0] == r[0];
    if j + 1 < |r'| {
      assert r'[j + 1] == if j + 1 < k then r[j + 1] else r[j + 2];
    }
  }

  lemma RingRemoveFirstAt(r: seq<Addr>, fd: map<Addr, Addr>, bk: map<Addr, Addr>,
      fd': map<Addr, Addr>, bk': map<Addr, Addr>, r': seq<Addr>, j: nat)
    requires 1 < |r| && Distinct(r) && Linked(r, fd, bk)
    requires bk' == bk[r[1] := r[|r| - 1]] && fd' == fd[r[|r| - 1] := r[1]]
    requires |r'| == |r| - 1 && forall j :: 0 <= j < |r'| ==> r'[j] == if j == 0 then r[|r| - 1] else r[j]
    requires j < |r'|
    ensures LinkedAt(r', j, fd', bk')
  {
    var i := if j == 0 then |r| - 1 else j;
    assert LinkedAt(r, i, fd, bk);
    assert i != |r| - 1 ==> r[i] != r[|r| - 1];
    assert i != 1 ==> r[i] != r[1];
    if j + 1 < |r'| {
      assert r'[j + 1] == r[j + 1];
    } else {
      assert r'[0] == r[|r| - 1];
    }
  }

  lemma RingRemove(r: seq<Addr>, k: nat, fd: map<Addr, Addr>, bk: map<Addr, Addr>,
      fd': map<Addr, Addr>, bk': map<Addr, Addr>)
    requires k < |r| && |r| > 1 && Distinct(r) && Linked(r, fd, bk) && LinkedAt(r, k, fd, bk)
    requires bk' == bk[fd[r[k]] := bk[r[k]]] && fd' == fd[bk[r[k]] := fd[r[k]]]
    ensures Linked(Without(r, k), fd', bk')
  {
    var r' := Without(r, k);
    if k > 0 {
      assert forall i :: 0 <= i < |r'| ==> r'[i] == r[if i < k then i else i + 1];
      forall j | 0 <= j < |r'| ensures LinkedAt(r', j, fd', bk') {
        RingRemoveAt(r, k, fd, bk, fd', bk', r', j);
      }
    } else {
      assert forall j :: 0 <= j < |r'| ==> r'[j] == if j == 0 then r[|r| - 1] else r[j];
      forall j | 0 <= j < |r'| ensures LinkedAt(r', j, fd', bk') {
        RingRemoveFirstAt(r, fd, bk, fd', bk', r', j);
      }
    }
  }

  lemma WithoutMembers(r: seq<Addr>, k: nat)
    requires k < |r| && Distinct(r)
    ensures Distinct(Without(r, k))
    ensures forall a :: a in Without(r, k) <==> a in r && a != r[k]
  {
    var r' := Without(r, k);
    forall a | a in r && a != r[k] ensures a in r' {
      var j :| 0 <= j < |r| && r[j] == a;
      if k > 0 {
        assert r'[if j < k then j else j - 1] == a;
      } else {
        assert r'[if j == |r| - 1 then 0 else j] == a;
      }
    }
  }
}
