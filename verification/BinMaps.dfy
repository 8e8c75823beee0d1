/**
 * The bit tricks that pick the next bin in use from a 32-bit bin map.
 */
module BinMaps {
  import opened TreeSearch

  function Bit(i: bv32): bv32
    requires i < 32
  {
    (1 as bv32) << i
  }

  predicate Marked(m: bv32, i: bv32)
    requires i < 32
  {
    Has(m, Bit(i))
  }

  predicate Has(m: bv32, bit: bv32) {
    m & bit != 0
  }

  /** No bit below the given one. */
  predicate NoneUnder(m: bv32, bit: bv32) {
    m & (bit - 1) == 0
  }

  function LeastBit(x: bv32): bv32 {
    x & (0 - x)
  }

  function LeftBits(x: bv32): bv32 {
    (x << 1) | (0 - (x << 1))
  }

  /** The bins in use to the left of a bit. */
  function LeftIn(m: bv32, bit: bv32): bv32 {
    LeftBits(bit) & m
  }

  lemma MaskOfLeftBits(m: bv32, i: bv32, j: bv32)
    requires i < 32 && j < 32
    ensures (LeftBits(Bit(i)) & m) & Bit(j) != 0 <==> i < j && m & Bit(j) != 0
  {
  }

  lemma LeftBitsAreAbove(m: bv32, i: bv32, j: bv32)
    requires i < 32 && j < 32
    ensures Marked(LeftIn(m, Bit(i)), j) <==> i < j && Marked(m, j)
  {
    hide LeftBits, Bit;
    MaskOfLeftBits(m, i, j);
  }

  lemma LeastBitIsLowest(x: bv32, i: bv32, k: bv32)
    requires i < 32 && LeastBit(x) == Bit(i)
    ensures Marked(x, i) && (k < i ==> !Marked(x, k))
  {
  }

  lemma NothingMarked(x: bv32, k: bv32)
    requires x == 0 && k < 32
    ensures !Marked(x, k)
  {
  }

  /** The least of the left bits is the first bin in use after `idx`; if there are none, nor is there a bin. */
  lemma NextMarked(m: bv32, idx: bv32, i: bv32)
    requires idx < 32 && i < 32
    ensures LeastBit(LeftIn(m, Bit(idx))) == Bit(i) ==>
        idx < i && Marked(m, i) && forall k: bv32 :: idx < k < i ==> !Marked(m, k)
    ensures LeftIn(m, Bit(idx)) == 0 ==> forall k: bv32 :: idx < k < 32 ==> !Marked(m, k)
  {
    hide *;
    var left := LeftIn(m, Bit(idx));
    if left == 0 {
      forall k: bv32 | idx < k < 32 ensures !Marked(m, k) {
        NothingMarked(left, k);
        LeftBitsAreAbove(m, idx, k);
      }
    }
    if LeastBit(left) == Bit(i) {
      LeastBitIsLowest(left, i, i);
      LeftBitsAreAbove(m, idx, i);
      forall k: bv32 | idx < k < i ensures !Marked(m, k) {
        LeastBitIsLowest(left, i, k);
        LeftBitsAreAbove(m, idx, k);
      }
    }
  }

  // ---------------------------------------------------------------- the map as a set of bins

  /** The bit of bin `i`. */
  function BitOf(i: nat): bv32
    requires i < 32
  {
    BackAndForth(i);
    Bit(i as bv32)
  }

  predicate In(m: bv32, i: nat) {
    i < 32 && Has(m, BitOf(i))
  }

  /** The set that the map stands for. */
  ghost predicate StandsFor(m: bv32, bins: set<nat>) {
    forall i: nat :: i < 32 ==> (i in bins <==> In(m, i))
  }

  lemma BackAndForth(i: nat)
    requires i < 32
    ensures (i as bv32) as nat == i && i as bv32 < 32
  {
  }

  lemma ForthAndBack(x: bv32)
    requires x < 32
    ensures x as nat < 32 && (x as nat) as bv32 == x
  {
  }

  lemma SameOrder(x: bv32, y: bv32)
    requires x <= y < 32
    ensures x as nat <= y as nat
  {
  }

  lemma Ascending(i: nat, j: nat)
    requires i < j < 32
    ensures i as bv32 < j as bv32 < 32
  {
    BackAndForth(i);
    BackAndForth(j);
    if j as bv32 <= i as bv32 {
      SameOrder(j as bv32, i as bv32);
    }
  }

  lemma Successor(i: nat)
    requires i < 31
    ensures i as bv32 < 31 && (i + 1) as bv32 == i as bv32 + 1
  {
    Ascending(i, i + 1);
    BackAndForth(i);
    BackAndForth(i + 1);
    NothingBetween(i as bv32, (i + 1) as bv32);
  }

  lemma NothingBetween(a: bv32, b: bv32)
    requires a < b < 32 && b as nat == a as nat + 1
    ensures b == a + 1
  {
    if a + 1 < b {
      ForthAndBack(a + 1);
      SameOrder(a, a + 1);
      SameOrder(a + 1, b);
    }
  }

  /** The bits of bins as positions in a word. */
  lemma Position(i: nat) returns (a: bv32)
    requires i < 32
    ensures a < 32 && BitOf(i) == Bit(a) && (i == 0 ==> a == 0) && (i == 31 ==> a == 31)
  {
    BackAndForth(i);
    a := i as bv32;
  }

  lemma Positions(i: nat, j: nat) returns (a: bv32, b: bv32)
    requires i < j < 32
    ensures a < b < 32 && BitOf(i) == Bit(a) && BitOf(j) == Bit(b) && (j == i + 1 ==> b == a + 1)
  {
    Ascending(i, j);
    if j == i + 1 {
      Successor(i);
    }
    hide Bit;
    a, b := i as bv32, j as bv32;
  }

  lemma MoreNoBits(x: bv32, j: bv32)
    requires j < 31 && !Marked(x, j) && NoneUnder(x, Bit(j))
    ensures NoneUnder(x, Bit(j + 1))
  {
  }

  lemma OneMoreBit(x: bv32, n: nat)
    requires n < 31 && !In(x, n) && NoneUnder(x, BitOf(n))
    ensures NoneUnder(x, BitOf(n + 1))
  {
    hide BitOf, Bit, Has, NoneUnder;
    var a, b := Positions(n, n + 1);
    MoreNoBits(x, a);
  }

  lemma NoBitBelowNone(x: bv32)
    ensures NoneUnder(x, BitOf(0))
  {
    hide BitOf;
    var a := Position(0);
  }

  lemma {:induction false} NoneBelow(x: bv32, n: nat)
    requires n < 32 && forall k: nat :: k < n ==> !In(x, k)
    ensures NoneUnder(x, BitOf(n))
  {
    hide BitOf, In, Has, NoneUnder;
    if n == 0 {
      NoBitBelowNone(x);
    } else {
      NoneBelow(x, n - 1);
      OneMoreBit(x, n - 1);
    }
  }

  lemma LowestIsLeast(x: bv32, j: bv32)
    requires j < 32 && Marked(x, j) && NoneUnder(x, Bit(j))
    ensures x != 0 && LeastBit(x) == Bit(j)
  {
  }

  lemma FirstIsLeast(x: bv32, j: nat)
    requires In(x, j) && NoneUnder(x, BitOf(j))
    ensures x != 0 && LeastBit(x) == BitOf(j)
  {
    hide BitOf, Bit, LeastBit, Has, NoneUnder;
    var a := Position(j);
    LowestIsLeast(x, a);
  }

  lemma NoBitAtAll(x: bv32)
    requires NoneUnder(x, BitOf(31)) && !In(x, 31)
    ensures x == 0
  {
    hide BitOf;
    var a := Position(31);
  }

  /** The least bit of a map is that of its first bin. */
  lemma LeastBitIs(x: bv32, j: nat)
    requires j <= 32 && (j < 32 ==> In(x, j)) && forall k: nat :: k < j ==> !In(x, k)
    ensures (x == 0 <==> j == 32) && (j < 32 ==> LeastBit(x) == BitOf(j))
  {
    hide BitOf, In, LeastBit, Has, NoneUnder;
    if j < 32 {
      NoneBelow(x, j);
      FirstIsLeast(x, j);
    } else {
      NoneBelow(x, 31);
      NoBitAtAll(x);
    }
  }

  /** The least bit of a map is that of the first bin in use. */
  lemma LeastIsFirstBin(m: bv32, bins: set<nat>)
    requires StandsFor(m, bins)
    ensures var j := NextBin(bins, 0); (m == 0 <==> j == 32) && (j < 32 ==> LeastBit(m) == BitOf(j))
  {
    hide BitOf, In, LeastBit, Has, NoneUnder;
    LeastBitIs(m, NextBin(bins, 0));
  }

  /** The least of the left bits is that of the next bin in use, as the search over the set finds it. */
  lemma LeastLeftIsNextBin(m: bv32, bins: set<nat>, idx: nat)
    requires StandsFor(m, bins) && idx < 32
    ensures var j, left := NextBin(bins, idx + 1), LeftIn(m, BitOf(idx));
      (left == 0 <==> j == 32) && (j < 32 ==> LeastBit(left) == BitOf(j))
  {
    hide BitOf, In, LeastBit, LeftIn, Has, NoneUnder;
    var j, left := NextBin(bins, idx + 1), LeftIn(m, BitOf(idx));
    forall k: nat | k <= j && k < 32 ensures In(left, k) <==> k == j {
      LeftOf(m, idx, k);
    }
    LeastBitIs(left, j);
  }

  lemma LeftOf(m: bv32, idx: nat, k: nat)
    requires idx < 32 && k < 32
    ensures In(LeftIn(m, BitOf(idx)), k) <==> idx < k && In(m, k)
  {
    hide BitOf, Bit, LeftIn, Has;
    if k < idx {
      var a, b := Positions(k, idx);
      LeftBitsAreAbove(m, b, a);
    } else if idx < k {
      var a, b := Positions(idx, k);
      LeftBitsAreAbove(m, a, b);
    } else {
      var a := Position(k);
      LeftBitsAreAbove(m, a, a);
    }
  }
}
