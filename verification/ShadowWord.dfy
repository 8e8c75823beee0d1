/**
 * The packed form of a race record: one 64-bit word with a tag bit, a read
 * thread and clock (8 and 23 bits) and a write thread and clock (8 and 23 bits).
 * A shift right is a division, a mask of low bits a remainder, and the fields
 * do not overlap, so that the word is their weighted sum.
 */
module ShadowWord {
  import opened RaceSpec

  const MAX_THREAD_ID := 0xfe
  const MAX_CLOCK := 0x7f_fffe

  const READ_SHIFT := 0x200
  const WRITE_THREAD_SHIFT := 0x1_0000_0000
  const WRITE_SHIFT := 0x100_0000_0000

  function IsShort(w: nat): bool {
    w % 2 == 1
  }

  function ReadThread(w: nat): nat {
    w / 2 % 0x100
  }

  function ReadClock(w: nat): nat {
    w / READ_SHIFT % 0x80_0000
  }

  function WriteThread(w: nat): nat {
    w / WRITE_THREAD_SHIFT % 0x100
  }

  function WriteClock(w: nat): nat {
    w / WRITE_SHIFT % 0x80_0000
  }

  function Encode(readThread: nat, readClock: nat, writeThread: nat, writeClock: nat): nat {
    1 + 2 * readThread + READ_SHIFT * readClock + WRITE_THREAD_SHIFT * writeThread + WRITE_SHIFT * writeClock
  }

  /** On 64-bit words, or-ing the shifted fields gives the sum that Encode computes. */
  lemma OrIsSum(readThread: bv64, readClock: bv64, writeThread: bv64, writeClock: bv64)
    requires readThread <= 0xff && readClock <= 0x7f_ffff && writeThread <= 0xff && writeClock <= 0x7f_ffff
    ensures 1 | (readThread << 1) | (readClock << 9) | (writeThread << 32) | (writeClock << 40)
         == 1 + 2 * readThread + 0x200 * readClock + 0x1_0000_0000 * writeThread + 0x100_0000_0000 * writeClock
  {
  }

  lemma MultipleGrows(m: int, k: int)
    requires m > 0
    ensures k >= 1 ==> m * k >= m
    ensures k <= -1 ==> m * k <= -m
  {
    if k >= 1 {
      assert m * k == m * (k - 1) + m;
    } else if k <= -1 {
      assert m * k == m * (k + 1) - m;
    }
  }

  lemma DivMod(x: nat, m: nat, q: nat, r: nat)
    requires m > 0 && x == m * q + r && r < m
    ensures x / m == q && x % m == r
  {
    assert x == m * (x / m) + x % m;
    assert m * (q - x / m) == m * q - m * (x / m);
    MultipleGrows(m, q - x / m);
  }

  /** Decoding gives back what was encoded, within the limits of the fields. */
  lemma DecodeEncode(readThread: nat, readClock: nat, writeThread: nat, writeClock: nat)
    requires readThread <= 0xff && readClock <= 0x7f_ffff && writeThread <= 0xff && writeClock <= 0x7f_ffff
    ensures var w := Encode(readThread, readClock, writeThread, writeClock);
            && IsShort(w) && w < 0x1_0000_0000_0000_0000
            && ReadThread(w) == readThread && ReadClock(w) == readClock
            && WriteThread(w) == writeThread && WriteClock(w) == writeClock
  {
    var w := Encode(readThread, readClock, writeThread, writeClock);
    var c := writeThread + 0x100 * writeClock;
    var b := readClock + 0x80_0000 * c;
    var a := readThread + 0x100 * b;
    DivMod(w, 2, a, 1);
    DivMod(a, 0x100, b, readThread);
    DivMod(w, READ_SHIFT, b, 1 + 2 * readThread);
    DivMod(b, 0x80_0000, c, readClock);
    DivMod(w, WRITE_THREAD_SHIFT, c, 1 + 2 * readThread + READ_SHIFT * readClock);
    DivMod(c, 0x100, writeClock, writeThread);
    DivMod(w, WRITE_SHIFT, writeClock, 1 + 2 * readThread + READ_SHIFT * readClock + WRITE_THREAD_SHIFT * writeThread);
  }

  /** The record a word stands for; the word 0 stands for a location not accessed yet. */
  function Unpack(w: nat): Record {
    Record(if ReadClock(w) != 0 then [Read(ReadThread(w), ReadClock(w))] else [], WriteThread(w), WriteClock(w))
  }

  predicate Fits(a: Access) {
    a.tid <= MAX_THREAD_ID && Clock(a) <= MAX_CLOCK
  }

  /** The word a write leaves. */
  lemma PackWrite(w: nat, a: Access)
    requires Fits(a) && a.write
    ensures Unpack(Encode(0, 0, a.tid, Clock(a))) == NextRecord(Unpack(w), a)
    ensures IsShort(Encode(0, 0, a.tid, Clock(a)))
  {
    DecodeEncode(0, 0, a.tid, Clock(a));
  }

  /** The word a read leaves when it subsumes the read before it. */
  lemma PackRead(w: nat, a: Access)
    requires Fits(a) && !a.write && Clock(a) > 0
    requires !ClockMayRace(a.cv, a.tid, ReadClock(w), ReadThread(w))
    ensures Unpack(Encode(a.tid, Clock(a), WriteThread(w), WriteClock(w))) == NextRecord(Unpack(w), a)
    ensures IsShort(Encode(a.tid, Clock(a), WriteThread(w), WriteClock(w)))
  {
    DecodeEncode(a.tid, Clock(a), WriteThread(w), WriteClock(w));
    assert Unordered(Unpack(w).readers, a) == [];
  }
}
