/** The slots of a ring of `n` that the positions 0, 1, 2 and so on fall into. */
module RingSlots {
  function SlotOf(p: nat, n: nat): (i: nat)
    requires n > 0
    ensures i < n
  {
    p % n
  }

  lemma SlotBound(p: nat, n: nat)
    requires n > 0
    ensures p % n < n
  {
  }

  lemma NextSlot(p: nat, n: nat)
    requires n >= 2
    ensures (p + 1) % n != p % n
  {
    if (p + 1) % n == p % n {
      SameSlot(p, p + 1, n);
    }
  }

  /** Positions that share a slot are a multiple of the capacity apart. */
  lemma SameSlot(p: nat, q: nat, n: nat)
    requires n > 0 && p % n == q % n && p <= q < p + n
    ensures p == q
  {
    DivisionStep(p / n, q / n, n, p % n, p, q);
  }

  lemma Distribute(n: nat, a: nat, d: nat)
    ensures n * (a + d) == n * a + n * d
  {
  }

  lemma AtLeastOnce(n: nat, d: nat)
    requires d > 0
    ensures n * d >= n
  {
  }

  lemma DivisionStep(a: nat, b: nat, n: nat, r: nat, p: nat, q: nat)
    requires n > 0 && p == n * a + r && q == n * b + r && p <= q < p + n
    ensures p == q
  {
    if a < b {
      Distribute(n, a, b - a);
      AtLeastOnce(n, b - a);
    } else if b < a {
      Distribute(n, b, a - b);
      AtLeastOnce(n, a - b);
    }
  }

  lemma SlotAgain(p: nat, n: nat)
    requires n > 0
    ensures (p + n) % n == p % n
  {
    RemainderStep(p / n, (p + n) / n, n, p % n, (p + n) % n, p);
  }

  lemma RemainderStep(a: nat, b: nat, n: nat, r: nat, r': nat, p: nat)
    requires n > 0 && p == n * a + r && p + n == n * b + r' && r < n && r' < n
    ensures r == r'
  {
    Distribute(n, a, 1);
    if a + 1 < b {
      Distribute(n, a + 1, b - (a + 1));
      AtLeastOnce(n, b - (a + 1));
    } else if b < a + 1 {
      Distribute(n, b, a + 1 - b);
      AtLeastOnce(n, a + 1 - b);
    }
  }

  lemma Remainder(a: nat, r: nat, n: nat, p: nat)
    requires n > 0 && p == n * a + r && r < n
    ensures p % n == r
  {
    Distribute(n, a, 1);
    SlotBound(p, n);
    RemainderStep(a, p / n + 1, n, r, p % n, p) by { Distribute(n, p / n, 1); }
  }

  /** The slot after that of position `p`. */
  lemma NextTurn(p: nat, n: nat)
    requires n > 0
    ensures (p % n + 1) % n == (p + 1) % n
  {
    var a, r := p / n, p % n;
    if r + 1 < n {
      Remainder(a, r + 1, n, p + 1);
      Remainder(0, r + 1, n, r + 1);
    } else {
      Distribute(n, a, 1);
      Remainder(a + 1, 0, n, p + 1);
      Remainder(1, 0, n, n);
    }
  }
}
