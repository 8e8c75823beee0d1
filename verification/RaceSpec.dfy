/**
 * The data-race detector for one memory location, as values: the expanded
 * record it keeps, what it reports, and which pairs of accesses really race.
 */
module RaceSpec {
  import opened ClockVectors

  /** A plain access, with the clock vector of its thread at that moment. */
  datatype Access = Access(tid: nat, cv: ClockVector, write: bool)

  function Clock(a: Access): nat {
    GetClock(a.cv, a.tid)
  }

  /** The event at `clock2` of thread `tid2` is not known to be over. */
  predicate ClockMayRace(cv1: ClockVector, tid1: nat, clock2: nat, tid2: nat) {
    tid1 != tid2 && clock2 != 0 && GetClock(cv1, tid2) <= clock2
  }

  datatype Race = Race(oldThread: nat, oldClock: nat, oldWrite: bool, newThread: nat, newClock: nat, newWrite: bool)

  datatype Read = Read(tid: nat, clock: nat)

  /** The reads since the last write that no later read subsumes, and that write. */
  datatype Record = Record(readers: seq<Read>, writeThread: nat, writeClock: nat)

  const NO_ACCESS := Record([], 0, 0)

  predicate ReadMayRace(r: Read, a: Access) {
    ClockMayRace(a.cv, a.tid, r.clock, r.tid)
  }

  /** The reads that `a` is not ordered after, oldest first. */
  function Unordered(readers: seq<Read>, a: Access): seq<Read> {
    if readers == [] then [] else
    var init, last := readers[..|readers| - 1], readers[|readers| - 1];
    Unordered(init, a) + if ReadMayRace(last, a) then [last] else []
  }

  function RaceWith(r: Read, oldWrite: bool, a: Access): Race {
    Race(r.tid, r.clock, oldWrite, a.tid, Clock(a), a.write)
  }

  function RacesWithReads(readers: seq<Read>, a: Access): seq<Race> {
    var racing := Unordered(readers, a);
    seq(|racing|, i requires 0 <= i < |racing| => RaceWith(racing[i], false, a))
  }

  function RacesWithWrite(rec: Record, a: Access): seq<Race> {
    if ClockMayRace(a.cv, a.tid, rec.writeClock, rec.writeThread)
    then [RaceWith(Read(rec.writeThread, rec.writeClock), true, a)] else []
  }

  function NewRaces(rec: Record, a: Access): seq<Race> {
    if a.write then RacesWithReads(rec.readers, a) + RacesWithWrite(rec, a) else RacesWithWrite(rec, a)
  }

  /** The record after `a`: a write replaces everything, a read drops the reads it subsumes. */
  function NextRecord(rec: Record, a: Access): Record {
    if a.write then Record([], a.tid, Clock(a))
    else rec.(readers := Unordered(rec.readers, a) + [Read(a.tid, Clock(a))])
  }

  function RecordOf(trace: seq<Access>): Record {
    if trace == [] then NO_ACCESS
    else NextRecord(RecordOf(trace[..|trace| - 1]), trace[|trace| - 1])
  }

  function RacesOf(trace: seq<Access>): seq<Race> {
    if trace == [] then [] else
    var before := trace[..|trace| - 1];
    RacesOf(before) + NewRaces(RecordOf(before), trace[|trace| - 1])
  }

  // ---------------------------------------------------------------- what races really

  /** `a`, the earlier of the two, happens before `b`: same thread, or `b` saw a later event of its thread. */
  predicate Ordered(a: Access, b: Access) {
    a.tid == b.tid || Clock(a) < GetClock(b.cv, a.tid)
  }

  /** Clocks of a thread are positive, and who saw a later event of a thread saw all that thread saw. */
  ghost predicate ClockLaws(trace: seq<Access>) {
    && (forall i :: 0 <= i < |trace| ==> Clock(trace[i]) > 0)
    && (forall i, j :: 0 <= i < j < |trace| && Ordered(trace[i], trace[j]) ==> Below(trace[i].cv, trace[j].cv))
  }

  /** Two accesses that conflict and are not ordered. */
  ghost predicate Racy(trace: seq<Access>, i: int, j: int) {
    0 <= i < j < |trace| && (trace[i].write || trace[j].write) && !Ordered(trace[i], trace[j])
  }

  lemma OrderedTransitive(trace: seq<Access>, i: int, j: int, k: int)
    requires ClockLaws(trace) && 0 <= i < j < k < |trace|
    requires Ordered(trace[i], trace[j]) && Ordered(trace[j], trace[k])
    ensures Ordered(trace[i], trace[k])
  {
    assert Below(trace[j].cv, trace[k].cv);
    assert GetClock(trace[j].cv, trace[i].tid) <= GetClock(trace[k].cv, trace[i].tid);
    if trace[i].tid == trace[j].tid {
      assert Below(trace[i].cv, trace[j].cv);
    }
  }

  // ---------------------------------------------------------------- what the record knows

  ghost predicate IsRead(trace: seq<Access>, i: int, r: Read) {
    0 <= i < |trace| && !trace[i].write && trace[i].tid == r.tid && Clock(trace[i]) == r.clock
  }

  ghost predicate IsLastWrite(trace: seq<Access>, w: int, rec: Record) {
    && 0 <= w < |trace| && trace[w].write && trace[w].tid == rec.writeThread && Clock(trace[w]) == rec.writeClock
    && forall i :: w < i < |trace| ==> !trace[i].write
  }

  ghost predicate NoWrite(trace: seq<Access>, rec: Record) {
    rec.writeClock == 0 && forall i :: 0 <= i < |trace| ==> !trace[i].write
  }

  /** Every entry of the record is an access that took place. */
  ghost predicate Truthful(trace: seq<Access>, rec: Record) {
    && (NoWrite(trace, rec) || exists w :: IsLastWrite(trace, w, rec))
    && (forall r :: r in rec.readers ==> exists i :: IsRead(trace, i, r))
  }

  lemma {:induction false} UnorderedIsFilter(readers: seq<Read>, a: Access, r: Read)
    ensures r in Unordered(readers, a) <==> r in readers && ReadMayRace(r, a)
  {
    if readers != [] {
      UnorderedIsFilter(readers[..|readers| - 1], a, r);
      assert readers == readers[..|readers| - 1] + [readers[|readers| - 1]];
    }
  }

  lemma StepTruthful(trace: seq<Access>, rec: Record, a: Access)
    requires Truthful(trace, rec) && Clock(a) > 0
    ensures Truthful(trace + [a], NextRecord(rec, a))
  {
    var longer, next := trace + [a], NextRecord(rec, a);
    if a.write {
      assert IsLastWrite(longer, |trace|, next);
    } else if NoWrite(trace, rec) {
      assert NoWrite(longer, next);
    } else {
      var w :| IsLastWrite(trace, w, rec);
      assert IsLastWrite(longer, w, next);
    }
    forall r | r in next.readers
      ensures exists i :: IsRead(longer, i, r)
    {
      UnorderedIsFilter(rec.readers, a, r);
      if r in rec.readers {
        var i :| IsRead(trace, i, r);
        assert IsRead(longer, i, r);
      } else {
        assert IsRead(longer, |trace|, r);
      }
    }
  }

  /** `trace[i]` is the access at `m`, or comes before it. */
  ghost predicate UpTo(trace: seq<Access>, i: int, m: int) {
    0 <= i <= m < |trace| && (i == m || Ordered(trace[i], trace[m]))
  }

  /** No access is forgotten without an entry that it is ordered before. */
  ghost predicate Covers(trace: seq<Access>, rec: Record) {
    && (forall i, w :: IsLastWrite(trace, w, rec) && 0 <= i < |trace| && trace[i].write ==> UpTo(trace, i, w))
    && (forall i :: 0 <= i < |trace| && !trace[i].write ==>
          || (exists w :: IsLastWrite(trace, w, rec) && UpTo(trace, i, w))
          || (exists m, r :: r in rec.readers && IsRead(trace, m, r) && UpTo(trace, i, m)))
  }

  lemma UpToThenOrdered(trace: seq<Access>, i: int, m: int, k: int)
    requires ClockLaws(trace) && UpTo(trace, i, m) && m < k < |trace| && Ordered(trace[m], trace[k])
    ensures Ordered(trace[i], trace[k])
  {
    if i != m {
      OrderedTransitive(trace, i, m, k);
    }
  }

  lemma NoReportOrders(rec: Record, a: Access, earlier: Access)
    requires Clock(earlier) > 0 && NewRaces(rec, a) == []
    requires (earlier.write && earlier.tid == rec.writeThread && Clock(earlier) == rec.writeClock)
          || (a.write && Read(earlier.tid, Clock(earlier)) in rec.readers)
    ensures Ordered(earlier, a)
  {
    if a.write {
      UnorderedIsFilter(rec.readers, a, Read(earlier.tid, Clock(earlier)));
    }
  }

  /** A silent step: every earlier access that conflicts with the new one is ordered before it. */
  lemma SilentMeansOrdered(trace: seq<Access>, rec: Record, a: Access, i: int)
    requires ClockLaws(trace + [a]) && Truthful(trace, rec) && Covers(trace, rec) && NewRaces(rec, a) == []
    requires 0 <= i < |trace| && (trace[i].write || a.write)
    ensures Ordered(trace[i], a)
  {
    var longer, k := trace + [a], |trace|;
    var m: int;
    if trace[i].write {
      m :| IsLastWrite(trace, m, rec);
    } else if w :| IsLastWrite(trace, w, rec) && UpTo(trace, i, w) {
      m := w;
    } else {
      var r;
      m, r :| r in rec.readers && IsRead(trace, m, r) && UpTo(trace, i, m);
    }
    assert UpTo(trace, i, m);
    assert longer[i] == trace[i] && longer[m] == trace[m] && longer[k] == a;
    NoReportOrders(rec, a, longer[m]);
    assert UpTo(longer, i, m);
    UpToThenOrdered(longer, i, m, k);
  }

  lemma WriteCovers(trace: seq<Access>, rec: Record, a: Access)
    requires ClockLaws(trace + [a]) && Truthful(trace, rec) && Covers(trace, rec) && NewRaces(rec, a) == [] && a.write
    ensures Covers(trace + [a], NextRecord(rec, a))
  {
    var longer, next := trace + [a], NextRecord(rec, a);
    assert IsLastWrite(longer, |trace|, next);
    forall i | 0 <= i < |longer|
      ensures UpTo(longer, i, |trace|)
    {
      if i < |trace| {
        SilentMeansOrdered(trace, rec, a, i);
      }
    }
  }

  lemma ReadCovers(trace: seq<Access>, rec: Record, a: Access)
    requires ClockLaws(trace + [a]) && Truthful(trace, rec) && Covers(trace, rec) && !a.write
    ensures Covers(trace + [a], NextRecord(rec, a))
  {
    var longer, next, k := trace + [a], NextRecord(rec, a), |trace|;
    assert forall i :: 0 <= i < |trace| ==> longer[i] == trace[i];
    forall w | 0 <= w < |trace|
      ensures IsLastWrite(trace, w, rec) <==> IsLastWrite(longer, w, next)
    {
      if IsLastWrite(longer, w, next) {
        assert forall i :: w < i < |trace| ==> trace[i] == longer[i];
      }
    }
    forall i, w | IsLastWrite(longer, w, next) && 0 <= i < |longer| && longer[i].write
      ensures UpTo(longer, i, w)
    {
      assert IsLastWrite(trace, w, rec);
      assert UpTo(trace, i, w);
    }
    forall i | 0 <= i < |longer| && !longer[i].write
      ensures (exists w :: IsLastWrite(longer, w, next) && UpTo(longer, i, w))
           || (exists m, r :: r in next.readers && IsRead(longer, m, r) && UpTo(longer, i, m))
    {
      var own := Read(a.tid, Clock(a));
      if i == k {
        assert own in next.readers && IsRead(longer, k, own) && UpTo(longer, i, k);
      } else if w :| IsLastWrite(trace, w, rec) && UpTo(trace, i, w) {
        assert IsLastWrite(longer, w, next) && UpTo(longer, i, w);
      } else {
        var m, r :| r in rec.readers && IsRead(trace, m, r) && UpTo(trace, i, m);
        UnorderedIsFilter(rec.readers, a, r);
        assert UpTo(longer, i, m) && IsRead(longer, m, r);
        if !ReadMayRace(r, a) {
          assert longer[m] == trace[m] && Clock(longer[m]) > 0;
          UpToThenOrdered(longer, i, m, k);
          assert own in next.readers && IsRead(longer, k, own) && UpTo(longer, i, k);
        }
      }
    }
  }

  lemma {:induction false} RecordTruthful(trace: seq<Access>)
    requires ClockLaws(trace)
    ensures Truthful(trace, RecordOf(trace))
    decreases |trace|
  {
    if trace == [] {
      assert NoWrite(trace, RecordOf(trace));
    } else {
      var before, a := trace[..|trace| - 1], trace[|trace| - 1];
      assert trace == before + [a];
      PrefixLaws(before, a);
      RecordTruthful(before);
      StepTruthful(before, RecordOf(before), a);
    }
  }

  lemma PrefixLaws(before: seq<Access>, a: Access)
    requires ClockLaws(before + [a])
    ensures ClockLaws(before)
  {
    var trace := before + [a];
    assert forall i :: 0 <= i < |before| ==> trace[i] == before[i];
  }

  /** As long as nothing was reported, the record covers the whole trace. */
  lemma {:induction false} SilentRecordCovers(trace: seq<Access>)
    requires ClockLaws(trace) && RacesOf(trace) == []
    ensures Covers(trace, RecordOf(trace))
    decreases |trace|
  {
    if trace != [] {
      var before, a := trace[..|trace| - 1], trace[|trace| - 1];
      assert trace == before + [a];
      PrefixLaws(before, a);
      RecordTruthful(before);
      SilentRecordCovers(before);
      if a.write {
        WriteCovers(before, RecordOf(before), a);
      } else {
        ReadCovers(before, RecordOf(before), a);
      }
    }
  }

  ghost predicate Witnesses(trace: seq<Access>, race: Race, i: int, j: int) {
    && Racy(trace, i, j)
    && race == Race(trace[i].tid, Clock(trace[i]), trace[i].write, trace[j].tid, Clock(trace[j]), trace[j].write)
  }

  /** Every report names two accesses of the trace that conflict and are not ordered. */
  lemma {:induction false} ReportsAreRaces(trace: seq<Access>, race: Race)
    requires ClockLaws(trace) && race in RacesOf(trace)
    ensures exists i, j :: Witnesses(trace, race, i, j)
    decreases |trace|
  {
    var before, a := trace[..|trace| - 1], trace[|trace| - 1];
    assert trace == before + [a];
    PrefixLaws(before, a);
    if race in RacesOf(before) {
      ReportsAreRaces(before, race);
      var i, j :| Witnesses(before, race, i, j);
      assert Witnesses(trace, race, i, j);
    } else {
      RecordTruthful(before);
      NewReportIsRace(before, RecordOf(before), a, race);
    }
  }

  lemma NewReportIsRace(before: seq<Access>, rec: Record, a: Access, race: Race)
    requires Truthful(before, rec) && race in NewRaces(rec, a)
    ensures exists i, j :: Witnesses(before + [a], race, i, j)
  {
    var trace, k := before + [a], |before|;
    if race in RacesWithWrite(rec, a) {
      var w :| IsLastWrite(before, w, rec);
      assert Witnesses(trace, race, w, k);
    } else {
      var racing := Unordered(rec.readers, a);
      var n :| 0 <= n < |racing| && race == RaceWith(racing[n], false, a);
      UnorderedIsFilter(rec.readers, a, racing[n]);
      var i :| IsRead(before, i, racing[n]);
      assert Witnesses(trace, race, i, k);
    }
  }

  lemma {:induction false} SilentIsRaceFree(trace: seq<Access>, i: int, j: int)
    requires ClockLaws(trace) && RacesOf(trace) == []
    ensures !Racy(trace, i, j)
    decreases |trace|
  {
    if Racy(trace, i, j) {
      var before, a := trace[..|trace| - 1], trace[|trace| - 1];
      assert trace == before + [a];
      PrefixLaws(before, a);
      if j < |before| {
        SilentIsRaceFree(before, i, j);
      } else {
        RecordTruthful(before);
        SilentRecordCovers(before);
        SilentMeansOrdered(before, RecordOf(before), a, i);
      }
    }
  }

  /** The detector reports something exactly when two accesses really race. */
  lemma ReportsIffRace(trace: seq<Access>)
    requires ClockLaws(trace)
    ensures RacesOf(trace) != [] <==> exists i, j :: Racy(trace, i, j)
  {
    if RacesOf(trace) != [] {
      ReportsAreRaces(trace, RacesOf(trace)[0]);
      var i, j :| Witnesses(trace, RacesOf(trace)[0], i, j);
      assert Racy(trace, i, j);
    } else if i, j :| Racy(trace, i, j) {
      SilentIsRaceFree(trace, i, j);
    }
  }
}
