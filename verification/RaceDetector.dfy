/** The race detector's shadow of one location, updated in place. */
module RaceDetector {
  import opened RaceSpec
  import opened ShadowWord

  /** The expanded record. */
  class RaceRecord {
    var thread: seq<nat>
    var readClock: seq<nat>
    var writeThread: nat
    var writeClock: nat

    ghost predicate Valid()
      reads this
    {
      |thread| == |readClock|
    }

    ghost function Abs(): Record
      reads this
      requires Valid()
    {
      Record(Zip(thread, readClock), writeThread, writeClock)
    }

    constructor (tid: nat, clock: nat)
      ensures Valid() && Abs() == Record([], tid, clock)
    {
      thread, readClock, writeThread, writeClock := [], [], tid, clock;
    }

    /** Reports the races of a write with this record, and forgets the reads. */
    method CheckWrite(a: Access) returns (races: seq<Race>)
      requires Valid() && a.write
      modifies this
      ensures Valid() && Abs() == NextRecord(old(Abs()), a)
      ensures races == NewRaces(old(Abs()), a)
    {
      ghost var before := Abs();
      races := [];
      for i := 0 to |thread|
        invariant races == RacesWithReads(before.readers[..i], a)
        modifies {}
      {
        UnorderedStep(before.readers, i, a);
        if ClockMayRace(a.cv, a.tid, readClock[i], thread[i]) {
          races := races + [RaceWith(Read(thread[i], readClock[i]), false, a)];
        }
      }
      assert before.readers[..|thread|] == before.readers;
      if ClockMayRace(a.cv, a.tid, writeClock, writeThread) {
        races := races + [RaceWith(Read(writeThread, writeClock), true, a)];
      }
      thread, readClock := [], [];
      writeThread, writeClock := a.tid, Clock(a);
    }

    /** Reports the race of a read with the last write, and keeps the reads it does not subsume. */
    method CheckRead(a: Access) returns (races: seq<Race>)
      requires Valid() && !a.write
      modifies this
      ensures Valid() && Abs() == NextRecord(old(Abs()), a)
      ensures races == NewRaces(old(Abs()), a)
    {
      ghost var before := Abs();
      races := [];
      if ClockMayRace(a.cv, a.tid, writeClock, writeThread) {
        races := [RaceWith(Read(writeThread, writeClock), true, a)];
      }
      var copytoindex := Compact(a);
      thread := thread[..copytoindex] + [a.tid];
      readClock := readClock[..copytoindex] + [Clock(a)];
      assert Zip(thread, readClock) == Unordered(before.readers, a) + [Read(a.tid, Clock(a))];
    }

    /** Moves the reads that `a` does not subsume to the front. */
    method Compact(a: Access) returns (copytoindex: nat)
      requires Valid()
      modifies this`thread, this`readClock
      ensures Valid() && copytoindex <= |thread|
      ensures Zip(thread, readClock)[..copytoindex] == Unordered(old(Zip(thread, readClock)), a)
    {
      ghost var before := Zip(thread, readClock);
      copytoindex := 0;
      for i := 0 to |thread|
        invariant |thread| == |readClock| == |before| && copytoindex <= i
        invariant Kept(Zip(thread, readClock), before, copytoindex, i, a)
      {
        ghost var zipped := Zip(thread, readClock);
        KeepNext(zipped, before, copytoindex, i, a);
        if ClockMayRace(a.cv, a.tid, readClock[i], thread[i]) {
          if copytoindex != i {
            readClock := readClock[copytoindex := readClock[i]];
            thread := thread[copytoindex := thread[i]];
          }
          assert Zip(thread, readClock) == zipped[copytoindex := zipped[i]];
          copytoindex := copytoindex + 1;
        }
      }
      assert before[..|thread|] == before;
    }
  }

  /** Halfway through the compaction: the front holds the reads kept so far, the rest is untouched. */
  ghost predicate Kept(now: seq<Read>, before: seq<Read>, front: nat, i: nat, a: Access) {
    && front <= i <= |now| == |before|
    && now[..front] == Unordered(before[..i], a)
    && now[i..] == before[i..]
  }

  lemma KeepNext(now: seq<Read>, before: seq<Read>, front: nat, i: nat, a: Access)
    requires Kept(now, before, front, i, a) && i < |now|
    ensures if ReadMayRace(now[i], a) then Kept(now[front := now[i]], before, front + 1, i + 1, a)
            else Kept(now, before, front, i + 1, a)
  {
    UnorderedStep(before, i, a);
    assert now[i..][0] == before[i..][0];
    assert now[i + 1..] == now[i..][1..] == before[i..][1..] == before[i + 1..];
    if ReadMayRace(now[i], a) {
      var next := now[front := now[i]];
      assert next[..front + 1] == now[..front] + [now[i]];
      assert next[i + 1..] == now[i + 1..];
    }
  }

  ghost function Zip(thread: seq<nat>, clock: seq<nat>): (s: seq<Read>)
    requires |thread| == |clock|
    ensures |s| == |thread| && forall i :: 0 <= i < |s| ==> s[i] == Read(thread[i], clock[i])
  {
    seq(|thread|, i requires 0 <= i < |thread| => Read(thread[i], clock[i]))
  }

  lemma UnorderedStep(readers: seq<Read>, i: nat, a: Access)
    requires i < |readers|
    ensures Unordered(readers[..i + 1], a) == Unordered(readers[..i], a) + if ReadMayRace(readers[i], a)
      then [readers[i]] else []
  {
    assert readers[..i + 1][..i] == readers[..i];
  }

  /** One shadow entry: a packed word, or an expanded record once a word is too small. */
  class Shadow {
    var word: nat
    var record: RaceRecord?
    var reported: seq<Race>

    /** The accesses so far. */
    ghost var trace: seq<Access>

    ghost predicate WellFormed()
      reads this, record
    {
      (record == null ==> word == 0 || IsShort(word)) && (record != null ==> record.Valid())
    }

    ghost function Abs(): Record
      reads this, record
      requires WellFormed()
    {
      if record == null then Unpack(word) else record.Abs()
    }

    /** The entry agrees with the plain detector run on the same accesses. */
    ghost predicate Valid()
      reads this, record
    {
      && WellFormed()
      && Abs() == RecordOf(trace)
      && forall r :: r in reported <==> r in RacesOf(trace)
    }

    constructor ()
      ensures Valid() && trace == []
    {
      word, record, reported, trace := 0, null, [], [];
    }

    /** Moves the contents of the word into an expanded record. */
    method ExpandRecord()
      requires WellFormed() && record == null
      modifies this`record
      ensures record != null && fresh(record) && WellFormed() && Abs() == old(Abs())
    {
      var r := new RaceRecord(WriteThread(word), WriteClock(word));
      if ReadClock(word) != 0 {
        r.thread, r.readClock := [ReadThread(word)], [ReadClock(word)];
      }
      record := r;
    }

    /** Checks an access on the expanded record. */
    method CheckRecord(a: Access)
      requires record != null && record.Valid()
      modifies this`reported, record
      ensures record.Valid() && record.Abs() == NextRecord(old(record.Abs()), a)
      ensures reported == old(reported) + NewRaces(old(record.Abs()), a)
    {
      var races;
      if a.write {
        races := record.CheckWrite(a);
      } else {
        races := record.CheckRead(a);
      }
      reported := reported + races;
    }

    /** Reports the race of `a` with the last write on the word. */
    method CheckWordWrite(a: Access)
      modifies this`reported
      ensures reported == old(reported) + RacesWithWrite(Unpack(word), a)
    {
      if ClockMayRace(a.cv, a.tid, WriteClock(word), WriteThread(word)) {
        reported := reported + [RaceWith(Read(WriteThread(word), WriteClock(word)), true, a)];
      }
    }

    /** A write on the word. */
    method WriteWord(a: Access)
      requires record == null && Fits(a) && a.write
      modifies this`reported, this`word
      ensures IsShort(word) && Unpack(word) == NextRecord(Unpack(old(word)), a)
      ensures reported == old(reported) + NewRaces(Unpack(old(word)), a)
    {
      PackWrite(word, a);
      if ClockMayRace(a.cv, a.tid, ReadClock(word), ReadThread(word)) {
        reported := reported + [RaceWith(Read(ReadThread(word), ReadClock(word)), false, a)];
      }
      WordReaders(word, a);
      CheckWordWrite(a);
      word := Encode(0, 0, a.tid, Clock(a));
    }

    /** raceCheckWrite: checks a write, on the word while it is large enough. */
    method RaceCheckWrite(a: Access)
      requires Valid() && a.write && Clock(a) > 0
      modifies this, record
      ensures Valid() && trace == old(trace) + [a]
      ensures reported == old(reported) + NewRaces(old(Abs()), a)
    {
      hide RecordOf, RacesOf, NewRaces, NextRecord, Fits, Unpack, IsShort, ClockMayRace;
      TraceGrows(trace, a);
      if record == null && Fits(a) {
        WriteWord(a);
      } else {
        if record == null {
          ExpandRecord();
        }
        CheckRecord(a);
      }
      trace := trace + [a];
    }

    /** The read that the word cannot hold together with the one it holds already. */
    ghost predicate SecondReader(a: Access)
      reads this
    {
      record == null && Fits(a) && ClockMayRace(a.cv, a.tid, ReadClock(word), ReadThread(word))
    }

    /**
     * A read on the word. When the word has to be expanded for a second
     * reader, the write was checked already and is checked again.
     */
    method ReadWord(a: Access)
      requires WellFormed() && record == null && Fits(a) && !a.write && Clock(a) > 0
      modifies this`reported, this`word, this`record
      ensures WellFormed() && Abs() == NextRecord(old(Abs()), a)
      ensures reported == old(reported) + NewRaces(old(Abs()), a)
                        + if old(SecondReader(a)) then NewRaces(old(Abs()), a) else []
    {
      CheckWordWrite(a);
      if ClockMayRace(a.cv, a.tid, ReadClock(word), ReadThread(word)) {
        ExpandRecord();
        CheckRecord(a);
      } else {
        PackRead(word, a);
        word := Encode(a.tid, Clock(a), WriteThread(word), WriteClock(word));
      }
    }

    /** raceCheckRead: checks a read, on the word while it is large enough. */
    method RaceCheckRead(a: Access)
      requires Valid() && !a.write && Clock(a) > 0
      modifies this, record
      ensures Valid() && trace == old(trace) + [a]
      ensures reported == old(reported) + NewRaces(old(Abs()), a)
                        + if old(SecondReader(a)) then NewRaces(old(Abs()), a) else []
    {
      hide RecordOf, RacesOf, NewRaces, NextRecord, Fits, Unpack, IsShort, ClockMayRace;
      TraceGrows(trace, a);
      if record == null && Fits(a) {
        ReadWord(a);
      } else {
        if record == null {
          ExpandRecord();
        }
        CheckRecord(a);
      }
      trace := trace + [a];
    }

    /** Something was reported exactly when two of the accesses really race. */
    method HaveRaces() returns (races: bool)
      requires Valid() && ClockLaws(trace)
      ensures races <==> exists i, j :: Racy(trace, i, j)
    {
      ReportsIffRace(trace);
      if RacesOf(trace) != [] {
        assert RacesOf(trace)[0] in reported;
      }
      if reported != [] {
        assert reported[0] in RacesOf(trace);
      }
      return reported != [];
    }
  }

  /** The reads of a word that race with `a`: at most the one it holds. */
  lemma WordReaders(word: nat, a: Access)
    ensures RacesWithReads(Unpack(word).readers, a) ==
            if ClockMayRace(a.cv, a.tid, ReadClock(word), ReadThread(word))
            then [RaceWith(Read(ReadThread(word), ReadClock(word)), false, a)] else []
  {
    OneReader(Read(ReadThread(word), ReadClock(word)), a);
  }

  lemma OneReader(r: Read, a: Access)
    ensures Unordered([r], a) == if ReadMayRace(r, a) then [r] else []
  {
    assert [r][..0] == [];
  }

  lemma TraceGrows(trace: seq<Access>, a: Access)
    ensures RecordOf(trace + [a]) == NextRecord(RecordOf(trace), a)
    ensures RacesOf(trace + [a]) == RacesOf(trace) + NewRaces(RecordOf(trace), a)
  {
    assert (trace + [a])[..|trace|] == trace;
  }
}
