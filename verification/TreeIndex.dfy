/**
 * How the allocator files a free chunk by its size: the index of its tree bin,
 * the sizes each bin is meant for, and the bits that steer the search in a bin.
 */
module TreeIndex {

  const MIN_CHUNK_SIZE := 32
  const MIN_LARGE_SIZE := 0x100
  const LAST_BIN := 31
  const TWO_64 := 0x1_0000_0000_0000_0000
  const TWO_63 := 0x8000_0000_0000_0000
  const TWO_40 := 0x100_0000_0000

  /** The least size of the last bin. */
  const LAST_MIN_SIZE := 0xc0_0000

  function Pow2(n: nat): (p: nat)
    ensures p > 0
  {
    if n == 0 then 1 else 2 * Pow2(n - 1)
  }

  lemma {:induction false} Pow2Add(m: nat, n: nat)
    ensures Pow2(m + n) == Pow2(m) * Pow2(n)
  {
    if m == 0 {
    } else {
      Pow2Add(m - 1, n);
      assert Pow2(m + n) == 2 * Pow2(m - 1 + n);
    }
  }

  lemma {:induction false} Pow2Monotone(m: nat, n: nat)
    requires m <= n
    ensures Pow2(m) <= Pow2(n)
    decreases n - m
  {
    if m < n {
      Pow2Monotone(m, n - 1);
    }
  }

  lemma Pow2Values()
    ensures Pow2(7) == 0x80 && Pow2(8) == 0x100 && Pow2(16) == 0x1_0000
    ensures Pow2(22) == 0x40_0000 && Pow2(23) == 0x80_0000 && Pow2(24) == 0x100_0000
    ensures Pow2(64) == TWO_64
  {
    assert Pow2(8) == 0x100;
    Pow2Add(8, 8);
    Pow2Add(16, 8);
    Pow2Add(16, 7);
    assert Pow2(22) == 0x40_0000;
    Pow2Add(16, 16);
    Pow2Add(32, 32);
  }

  lemma Pow2Of40()
    ensures Pow2(40) == TWO_40
  {
    Pow2Values();
    Pow2Add(24, 16);
  }

  lemma Pow2Of64()
    ensures Pow2(64) == TWO_64
  {
    Pow2Values();
  }

  /** The position of the highest bit set. */
  function Log2(x: nat): nat
    requires x > 0
  {
    if x == 1 then 0 else 1 + Log2(x / 2)
  }

  lemma {:induction false} Log2Bounds(x: nat)
    requires x > 0
    ensures Pow2(Log2(x)) <= x < Pow2(Log2(x) + 1)
  {
    if x > 1 {
      Log2Bounds(x / 2);
    }
  }

  /** `size` shifted right by `level` bits. */
  function Prefix(size: nat, level: nat): nat {
    if level == 0 then size else Prefix(size, level - 1) / 2
  }

  /** The lowest of the bits that Prefix(size, level) keeps. */
  function BitAt(size: nat, level: nat): nat {
    Prefix(size, level) % 2
  }

  lemma PrefixStep(size: nat, level: nat)
    ensures Prefix(size, level) == 2 * Prefix(size, level + 1) + BitAt(size, level)
  {
  }

  /** A size of at most `width` bits has a prefix of at most `width - level` bits. */
  lemma {:induction false} PrefixBelow(size: nat, level: nat, width: nat)
    requires level <= width && size < Pow2(width)
    ensures Prefix(size, level) < Pow2(width - level)
  {
    if level > 0 {
      PrefixBelow(size, level - 1, width);
      assert Pow2(width - level + 1) == 2 * Pow2(width - level);
    }
  }

  lemma {:induction false} PrefixAddPower(size: nat, level: nat, bit: nat)
    requires level <= bit
    ensures Prefix(size + Pow2(bit), level) == Prefix(size, level) + Pow2(bit - level)
  {
    if level > 0 {
      PrefixAddPower(size, level - 1, bit);
      assert Pow2(bit - level + 1) == 2 * Pow2(bit - level);
    }
  }

  /** A higher bit does not matter. */
  lemma DropBit(k: nat, level: nat, bit: nat)
    requires level < bit
    ensures BitAt(k + Pow2(bit), level) == BitAt(k, level)
  {
    PrefixAddPower(k, level, bit);
    EvenMore(Prefix(k, level), Pow2(bit - level - 1));
  }

  lemma EvenMore(a: nat, b: nat)
    ensures (a + 2 * b) % 2 == a % 2
  {
  }

  /** The prefixes of the two halves of an octave. */
  lemma PrefixOfHalf(size: nat, level: nat, upper: bool)
    requires 2 * Pow2(level) <= size < 4 * Pow2(level)
    requires upper <==> 3 * Pow2(level) <= size
    ensures Prefix(size, level) == if upper then 3 else 2
  {
    var p := Pow2(level);
    var rest := size - 2 * p - if upper then p else 0;
    PrefixBelow(rest, level, level);
    if upper {
      PrefixAddPower(rest, level, level);
    }
    PrefixAddPower(size - 2 * p, level, level + 1);
    assert Pow2(level + 1) == 2 * p && Pow2(1) == 2;
  }

  lemma {:induction false} PrefixUp(size: nat, low: nat, high: nat)
    requires low <= high
    ensures Prefix(Prefix(size, low), high - low) == Prefix(size, high)
    decreases high
  {
    if low < high {
      PrefixUp(size, low, high - 1);
    }
  }

  lemma {:induction false} PrefixOrder(s: nat, t: nat, level: nat)
    requires Prefix(s, level) < Prefix(t, level)
    ensures s < t
  {
    if level > 0 {
      PrefixOrder(s, t, level - 1);
    }
  }

  /** compute_tree_index; the shifted size is kept in 32 bits. */
  function TreeIndexOf(size: nat): nat {
    var x := size / 0x100 % 0x1_0000_0000;
    if x == 0 then 0
    else if x > 0xffff then LAST_BIN
    else
      var k := Log2(x);
      2 * k + BitAt(size, k + 7)
  }

  function MinSize(i: nat): nat {
    Pow2(i / 2 + 8) + i % 2 * Pow2(i / 2 + 7)
  }

  /** The sizes that bin `i` is meant for. */
  predicate InBin(i: nat, size: nat) {
    i <= LAST_BIN && MinSize(i) <= size && (i < LAST_BIN ==> size < MinSize(i + 1))
  }

  lemma MinSizeParts(i: nat)
    ensures i % 2 == 0 ==> MinSize(i) == 2 * Pow2(i / 2 + 7) && MinSize(i + 1) == 3 * Pow2(i / 2 + 7)
    ensures i % 2 == 1 ==> MinSize(i) == 3 * Pow2(i / 2 + 7) && MinSize(i + 1) == 4 * Pow2(i / 2 + 7)
  {
    var k := i / 2;
    assert Pow2(k + 8) == 2 * Pow2(k + 7);
    if i % 2 == 0 {
      assert (i + 1) / 2 == k && (i + 1) % 2 == 1;
      assert MinSize(i) == Pow2(k + 8) + 0 * Pow2(k + 7);
    } else {
      assert (i + 1) / 2 == k + 1 && (i + 1) % 2 == 0;
      assert MinSize(i + 1) == Pow2(k + 9) + 0 * Pow2(k + 8);
    }
  }

  lemma {:induction false} MinSizeMonotone(i: nat, j: nat)
    requires i <= j
    ensures MinSize(i) <= MinSize(j)
    decreases j - i
  {
    if i < j {
      MinSizeMonotone(i, j - 1);
      MinSizeParts(j - 1);
    }
  }

  lemma Octave(size: nat, x: nat, k: nat)
    requires Pow2(k) <= x < 2 * Pow2(k) && 0x100 * x <= size < 0x100 * x + 0x100
    ensures 2 * Pow2(k + 7) <= size < 4 * Pow2(k + 7)
  {
    assert Pow2(k + 7) == 0x80 * Pow2(k) by {
      assert Pow2(k + 2) == 4 * Pow2(k);
      assert Pow2(k + 4) == 4 * Pow2(k + 2);
      assert Pow2(k + 6) == 4 * Pow2(k + 4);
    }
  }

  lemma HalfOctave(size: nat, k: nat, bit: nat)
    requires 2 * Pow2(k + 7) <= size < 4 * Pow2(k + 7) && k < 16
    requires bit == if size < 3 * Pow2(k + 7) then 0 else 1
    ensures InBin(2 * k + bit, size)
  {
    MinSizeParts(2 * k);
    MinSizeParts(2 * k + 1);
    assert (2 * k) / 2 == k && (2 * k + 1) / 2 == k;
  }

  lemma SmallLog2(x: nat)
    requires 0 < x <= 0xffff
    ensures Log2(x) < 16
  {
    Log2Bounds(x);
    Pow2Values();
    if Log2(x) >= 16 {
      Pow2Monotone(16, Log2(x));
    }
  }

  lemma ShiftedSize(size: nat, x: nat)
    requires MIN_LARGE_SIZE <= size < TWO_40 && x == size / 0x100
    ensures 0 < x == x % 0x1_0000_0000 && 0x100 * x <= size < 0x100 * x + 0x100
  {
  }

  lemma BitOfHalf(size: nat, k: nat, bit: nat)
    requires 2 * Pow2(k + 7) <= size < 4 * Pow2(k + 7)
    requires bit == if size < 3 * Pow2(k + 7) then 0 else 1
    ensures BitAt(size, k + 7) == bit
  {
    PrefixOfHalf(size, k + 7, bit == 1);
  }

  lemma HalvesInBin(size: nat, k: nat)
    requires 2 * Pow2(k + 7) <= size < 4 * Pow2(k + 7) && k < 16
    ensures InBin(2 * k + BitAt(size, k + 7), size)
  {
    var bit := if size < 3 * Pow2(k + 7) then 0 else 1;
    BitOfHalf(size, k, bit);
    HalfOctave(size, k, bit);
  }

  lemma OctaveInBin(size: nat, x: nat, k: nat)
    requires 0 < x <= 0xffff && k == Log2(x) && 0x100 * x <= size < 0x100 * x + 0x100
    ensures InBin(2 * k + BitAt(size, k + 7), size)
  {
    Log2Bounds(x);
    SmallLog2(x);
    Octave(size, x, k);
    HalvesInBin(size, k);
  }

  /** Sizes up to a tebibyte land in their own bin. */
  lemma IndexInBin(size: nat)
    requires MIN_LARGE_SIZE <= size < TWO_40
    ensures InBin(TreeIndexOf(size), size)
  {
    var x := size / 0x100;
    ShiftedSize(size, x);
    if x > 0xffff {
      Pow2Values();
      MinSizeParts(LAST_BIN);
    } else {
      OctaveInBin(size, x, Log2(x));
    }
  }

  /** The 32-bit intermediate sees no more of a size than its remainder by a tebibyte. */
  lemma IndexOfRemainder(size: nat)
    ensures TreeIndexOf(size) == TreeIndexOf(size % TWO_40)
  {
    var r := size % TWO_40;
    ShiftedRemainder(size);
    var x := r / 0x100;
    if 0 < x <= 0xffff {
      SmallLog2(x);
      HigherBits(r, size / TWO_40, Log2(x) + 7);
    }
  }

  lemma ShiftedRemainder(size: nat)
    ensures var r := size % TWO_40;
      size == r + size / TWO_40 * TWO_40 && size / 0x100 % 0x1_0000_0000 == r / 0x100 % 0x1_0000_0000 == r / 0x100
  {
    var q, r := size / TWO_40, size % TWO_40;
    assert size / 0x100 == q * 0x1_0000_0000 + r / 0x100;
  }

  lemma {:induction false} HigherBits(r: nat, q: nat, level: nat)
    requires level < 40
    ensures BitAt(r + q * TWO_40, level) == BitAt(r, level)
  {
    if q > 0 {
      HigherBits(r, q - 1, level);
      Pow2Of40();
      DropBit(r + (q - 1) * TWO_40, level, 40);
    }
  }

  /**
   * Hence the index is right exactly for sizes below a tebibyte, and for those
   * whose remainder by a tebibyte is in the range of the last bin.
   */
  lemma IndexInBinIff(size: nat)
    requires MIN_LARGE_SIZE <= size
    ensures InBin(TreeIndexOf(size), size) <==> size < TWO_40 || LAST_MIN_SIZE <= size % TWO_40
  {
    LastMinSize();
    if size < TWO_40 {
      IndexInBin(size);
    } else {
      IndexOfRemainder(size);
      RemainderInBin(size);
    }
  }

  lemma LastMinSize()
    ensures MinSize(LAST_BIN) == LAST_MIN_SIZE
  {
    Pow2Values();
    MinSizeParts(LAST_BIN);
  }

  lemma RemainderInBin(size: nat)
    requires TWO_40 <= size
    ensures InBin(TreeIndexOf(size % TWO_40), size) <==> LAST_MIN_SIZE <= size % TWO_40
  {
    var r := size % TWO_40;
    LastMinSize();
    if r >= MIN_LARGE_SIZE {
      IndexInBin(r);
    }
    if TreeIndexOf(r) < LAST_BIN {
      MinSizeMonotone(TreeIndexOf(r) + 1, LAST_BIN);
    }
  }

  /**
   * A tebibyte goes to the bin of the smallest sizes, so that a request for half of
   * it, which starts at the last bin, never gets to see it.
   */
  lemma TebibyteMisfiled()
    ensures TreeIndexOf(TWO_40) == 0 && !InBin(0, TWO_40)
    ensures TreeIndexOf(TWO_40 / 2) == LAST_BIN
  {
    assert TWO_40 / 0x100 == 0x1_0000_0000;
    IndexInBinIff(TWO_40);
  }

  // ---------------------------------------------------------------- the descent in a bin

  /** The number of low bits that the sizes in bin `i` may differ in. */
  function StartLevel(i: nat): nat {
    if i == LAST_BIN then 64 else i / 2 + 7
  }

  /** What the sizes in bin `i` have in common. */
  function StartPrefix(i: nat): nat {
    if i == LAST_BIN then 0 else 2 + i % 2
  }

  lemma BinPrefix(i: nat, size: nat)
    requires InBin(i, size) && size < TWO_64
    ensures Prefix(size, StartLevel(i)) == StartPrefix(i)
  {
    if i < LAST_BIN {
      MinSizeParts(i);
      PrefixOfHalf(size, StartLevel(i), i % 2 == 1);
    } else {
      Pow2Values();
      PrefixBelow(size, 64, 64);
    }
  }

  /** leftshift_for_tree_index: brings the first bit to look at to the top. */
  function LeftShift(i: nat): (shift: nat)
    requires i <= LAST_BIN
    ensures shift == 64 - StartLevel(i)
  {
    if i == LAST_BIN then 0 else 63 - (i / 2 + 8 - 2)
  }

  function ShiftLeft(k: nat): (k': nat)
    requires k < TWO_64
    ensures k' < TWO_64
  {
    if 2 * k < TWO_64 then 2 * k else 2 * k - TWO_64
  }

  /** The key of the descent: `size` shifted left in 64 bits. */
  function Key(size: nat, shift: nat): (k: nat)
    requires size < TWO_64
    ensures k < TWO_64
  {
    if shift == 0 then size else ShiftLeft(Key(size, shift - 1))
  }

  lemma DoubleBits(k: nat, level: nat)
    ensures BitAt(2 * k, level + 1) == BitAt(k, level)
  {
    PrefixUp(2 * k, 1, level + 1);
    assert Prefix(2 * k, 0) == 2 * k;
  }

  lemma DropTopBit(k: nat, level: nat)
    requires level < 64
    ensures BitAt(k + TWO_64, level) == BitAt(k, level)
  {
    Pow2Of64();
    DropBit(k, level, 64);
  }

  lemma ShiftLeftBits(k: nat, level: nat)
    requires k < TWO_64 && level < 63
    ensures BitAt(ShiftLeft(k), level + 1) == BitAt(k, level)
  {
    DoubleBits(k, level);
    if 2 * k >= TWO_64 {
      DropTopBit(2 * k - TWO_64, level + 1);
    }
  }

  lemma {:induction false} KeyBits(size: nat, shift: nat, level: nat)
    requires size < TWO_64 && shift <= level < 64
    ensures BitAt(Key(size, shift), level) == BitAt(size, level - shift)
  {
    if shift > 0 {
      KeyBits(size, shift - 1, level - 1);
      ShiftLeftBits(Key(size, shift - 1), level - 1);
    }
  }

  /** The sign bit of the key is the next bit of the size. */
  lemma KeyTopBit(size: nat, shift: nat)
    requires size < TWO_64 && shift < 64
    ensures BitAt(size, 63 - shift) == if Key(size, shift) >= TWO_63 then 1 else 0
  {
    var k := Key(size, shift);
    KeyBits(size, shift, 63);
    Pow2Values();
    assert Pow2(64) == 2 * Pow2(63);
    if k < TWO_63 {
      PrefixBelow(k, 63, 63);
    } else {
      PrefixBelow(k - TWO_63, 63, 63);
      PrefixAddPower(k - TWO_63, 63, 63);
    }
  }
}
