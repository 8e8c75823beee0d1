/**
 * Which races the detector reports, said of positions in the trace: of the last
 * write, and of the reads since then that no later read has replaced.
 */
module RaceReports {
  import opened ClockVectors
  import opened RaceSpec

  /** The last write before position `k` is at `i`. */
  ghost predicate LastWrite(trace: seq<Access>, i: int, k: int) {
    0 <= i < k <= |trace| && trace[i].write && forall j :: i < j < k ==> !trace[j].write
  }

  /** A read at `i` after the last write before `k`, ordered before no read between them. */
  ghost predicate LiveRead(trace: seq<Access>, i: int, k: int) {
    && 0 <= i < k <= |trace| && !trace[i].write
    && forall j :: i < j < k ==> !trace[j].write && !Ordered(trace[i], trace[j])
  }

  /** What the access at `k` reports: an unordered access that is the last write or, if `k` writes, a live read. */
  ghost predicate Reported(trace: seq<Access>, i: int, k: int) {
    Racy(trace, i, k) && (LastWrite(trace, i, k) || (trace[k].write && LiveRead(trace, i, k)))
  }

  function RaceAt(trace: seq<Access>, i: int, k: int): Race
    requires 0 <= i < |trace| && 0 <= k < |trace|
  {
    Race(trace[i].tid, Clock(trace[i]), trace[i].write, trace[k].tid, Clock(trace[k]), trace[k].write)
  }

  predicate Ascending(ps: seq<int>) {
    forall a, b :: 0 <= a < b < |ps| ==> ps[a] < ps[b]
  }

  /** The reads at the positions `ps` are the entries of `readers`, one by one. */
  ghost predicate StandFor(trace: seq<Access>, ps: seq<int>, readers: seq<Read>) {
    |ps| == |readers| && forall n :: 0 <= n < |ps| ==> IsRead(trace, ps[n], readers[n])
  }

  /** The record after the first `k` accesses: the live reads in their order, and the last write. */
  ghost predicate Records(trace: seq<Access>, k: int, rec: Record, ps: seq<int>) {
    && 0 <= k <= |trace| && Ascending(ps) && StandFor(trace, ps, rec.readers)
    && (forall i :: i in ps <==> LiveRead(trace, i, k))
    && (forall i :: LastWrite(trace, i, k) ==> rec.writeThread == trace[i].tid && rec.writeClock == Clock(trace[i]))
    && ((forall i :: !LastWrite(trace, i, k)) ==> rec.writeClock == 0)
  }

  lemma MayRaceIsUnordered(b: Access, a: Access)
    requires Clock(b) > 0
    ensures ClockMayRace(a.cv, a.tid, Clock(b), b.tid) <==> !Ordered(b, a)
  {
  }

  /** The positions of the reads that `a` is not ordered after. */
  lemma {:induction false} UnorderedPositions(trace: seq<Access>, ps: seq<int>, readers: seq<Read>, a: Access)
      returns (qs: seq<int>)
    requires StandFor(trace, ps, readers) && Ascending(ps)
    requires forall i :: 0 <= i < |trace| ==> Clock(trace[i]) > 0
    ensures Ascending(qs) && StandFor(trace, qs, Unordered(readers, a))
    ensures forall i :: i in qs <==> i in ps && 0 <= i < |trace| && !Ordered(trace[i], a)
  {
    if readers == [] {
      qs := [];
    } else {
      var n := |ps| - 1;
      var before := UnorderedPositions(trace, ps[..n], readers[..n], a);
      assert ps == ps[..n] + [ps[n]];
      MayRaceIsUnordered(trace[ps[n]], a);
      qs := before + if ReadMayRace(readers[n], a) then [ps[n]] else [];
      forall i ensures i in qs <==> i in ps && 0 <= i < |trace| && !Ordered(trace[i], a) {
        assert i in ps <==> i in ps[..n] || i == ps[n];
      }
      assert forall i :: i in before ==> i < ps[n];
    }
  }

  lemma {:induction false} RecordIs(trace: seq<Access>, k: nat) returns (ps: seq<int>)
    requires k <= |trace| && forall i :: 0 <= i < |trace| ==> Clock(trace[i]) > 0
    ensures Records(trace, k, RecordOf(trace[..k]), ps)
  {
    if k == 0 {
      ps := [];
    } else {
      var before := RecordIs(trace, k - 1);
      var a, rec := trace[k - 1], RecordOf(trace[..k - 1]);
      assert trace[..k][..k - 1] == trace[..k - 1];
      if a.write {
        ps := [];
        assert LastWrite(trace, k - 1, k);
      } else {
        var kept := UnorderedPositions(trace, before, rec.readers, a);
        ps := kept + [k - 1];
        ReadRecorded(trace, k - 1, rec, before, kept);
      }
    }
  }

  lemma ReadRecorded(trace: seq<Access>, k: nat, rec: Record, before: seq<int>, kept: seq<int>)
    requires k < |trace| && !trace[k].write && Records(trace, k, rec, before)
    requires Ascending(kept) && StandFor(trace, kept, Unordered(rec.readers, trace[k]))
    requires forall i :: i in kept <==> i in before && 0 <= i < |trace| && !Ordered(trace[i], trace[k])
    ensures Records(trace, k + 1, NextRecord(rec, trace[k]), kept + [k])
  {
    hide Ordered, Unordered;
    var ps := kept + [k];
    forall i ensures i in ps <==> LiveRead(trace, i, k + 1) {
      LiveOn(trace, i, k);
      assert i in ps <==> i in kept || i == k;
    }
    forall i ensures LastWrite(trace, i, k) <==> LastWrite(trace, i, k + 1) {
      WriteOn(trace, i, k);
    }
    assert forall n :: 0 <= n < |kept| ==> kept[n] in kept;
  }

  lemma LiveOn(trace: seq<Access>, i: int, k: int)
    requires 0 <= k < |trace| && !trace[k].write
    ensures LiveRead(trace, i, k + 1) <==> i == k || (LiveRead(trace, i, k) && !Ordered(trace[i], trace[k]))
  {
    hide Ordered;
  }

  lemma WriteOn(trace: seq<Access>, i: int, k: int)
    requires 0 <= k < |trace| && !trace[k].write
    ensures LastWrite(trace, i, k + 1) <==> LastWrite(trace, i, k)
  {
  }

  // ---------------------------------------------------------------- reports

  /** The reads first, in the order of the trace, then the write. */
  ghost predicate ReadsThenWrite(trace: seq<Access>, ps: seq<int>) {
    && (forall n :: 0 <= n < |ps| ==> 0 <= ps[n] < |trace|)
    && (forall a, b :: 0 <= a < b < |ps| ==> !trace[ps[a]].write && (trace[ps[b]].write || ps[a] < ps[b]))
  }

  /** The reports of the access at `k` are those of the positions `ps`, in this order. */
  ghost predicate ReportsOf(trace: seq<Access>, k: int, ps: seq<int>, races: seq<Race>) {
    && 0 <= k < |trace| && ReadsThenWrite(trace, ps) && |races| == |ps|
    && (forall i :: i in ps <==> Reported(trace, i, k))
    && (forall n :: 0 <= n < |ps| ==> races[n] == RaceAt(trace, ps[n], k))
  }

  /** The position of the last write before `k`, or -1. */
  lemma {:induction false} FindWrite(trace: seq<Access>, k: nat) returns (w: int)
    requires k <= |trace|
    ensures if w >= 0 then LastWrite(trace, w, k) else forall i :: 0 <= i < k ==> !trace[i].write
  {
    if k == 0 {
      w := -1;
    } else if trace[k - 1].write {
      w := k - 1;
    } else {
      w := FindWrite(trace, k - 1);
    }
  }

  lemma WriteReported(trace: seq<Access>, k: nat, rec: Record, live: seq<int>, w: int)
    requires k < |trace| && Records(trace, k, rec, live) && (w >= 0 ==> LastWrite(trace, w, k) && Clock(trace[w]) > 0)
    requires w < 0 ==> forall i :: 0 <= i < k ==> !trace[i].write
    ensures RacesWithWrite(rec, trace[k]) ==
      if w >= 0 && !Ordered(trace[w], trace[k]) then [RaceAt(trace, w, k)] else []
  {
    hide LiveRead;
    if w >= 0 {
      MayRaceIsUnordered(trace[w], trace[k]);
    }
  }

  lemma ReadsReported(trace: seq<Access>, k: nat, readers: seq<Read>, ps: seq<int>)
    requires k < |trace| && StandFor(trace, ps, Unordered(readers, trace[k]))
    ensures var races := RacesWithReads(readers, trace[k]);
      |races| == |ps| && forall n :: 0 <= n < |ps| ==> races[n] == RaceAt(trace, ps[n], k)
  {
  }

  /** The positions that a write at `k` reports, or a read if `ps` is empty. */
  lemma AllReported(trace: seq<Access>, k: nat, ps: seq<int>, w: int)
    requires k < |trace| && Ascending(ps) && (!trace[k].write ==> ps == [])
    requires trace[k].write ==> forall i :: i in ps <==> LiveRead(trace, i, k) && !Ordered(trace[i], trace[k])
    requires if w >= 0 then LastWrite(trace, w, k) else forall i :: 0 <= i < k ==> !trace[i].write
    ensures var all := ps + if w >= 0 && !Ordered(trace[w], trace[k]) then [w] else [];
      ReadsThenWrite(trace, all) && forall i :: i in all <==> Reported(trace, i, k)
  {
    hide Ordered;
    var last := if w >= 0 && !Ordered(trace[w], trace[k]) then [w] else [];
    forall i ensures i in ps + last <==> Reported(trace, i, k) {
      assert i in ps + last <==> i in ps || i in last;
      if LastWrite(trace, i, k) {
        assert i == w;
      }
    }
    assert forall n :: 0 <= n < |ps| ==> ps[n] in ps;
  }

  /** Whatever was reported before: each access reports just the positions that it should, each once and in order. */
  lemma ReportsExactly(trace: seq<Access>, k: nat) returns (ps: seq<int>)
    requires ClockLaws(trace) && k < |trace|
    ensures ReportsOf(trace, k, ps, NewRaces(RecordOf(trace[..k]), trace[k]))
  {
    var live := RecordIs(trace, k);
    var w := FindWrite(trace, k);
    var rec, a := RecordOf(trace[..k]), trace[k];
    WriteReported(trace, k, rec, live, w);
    var racing: seq<int> := [];
    if a.write {
      racing := UnorderedPositions(trace, live, rec.readers, a);
      ReadsReported(trace, k, rec.readers, racing);
    }
    hide LiveRead, LastWrite, Ordered, StandFor, Unordered;
    AllReported(trace, k, racing, w);
    ps := racing + if w >= 0 && !Ordered(trace[w], trace[k]) then [w] else [];
  }

  function PairsAt(ps: seq<int>, k: int): seq<(int, int)> {
    seq(|ps|, n requires 0 <= n < |ps| => (ps[n], k))
  }

  /** The order of the reports: by the later access, then reads first, then by the earlier access. */
  predicate Sooner(trace: seq<Access>, p: (int, int), q: (int, int))
    requires 0 <= p.0 < |trace| && 0 <= q.0 < |trace|
  {
    p.1 < q.1 || (p.1 == q.1 && !trace[p.0].write && (trace[q.0].write || p.0 < q.0))
  }

  /** The reports of the first `k` accesses are those of the given pairs of positions, in this order. */
  ghost predicate AllReports(trace: seq<Access>, k: int, pairs: seq<(int, int)>, races: seq<Race>) {
    && 0 <= k <= |trace| && |races| == |pairs|
    && (forall i, j :: (i, j) in pairs <==> j < k && Reported(trace, i, j))
    && (forall n :: 0 <= n < |pairs| ==> 0 <= pairs[n].0 < pairs[n].1 < |trace|)
    && (forall n :: 0 <= n < |pairs| ==> races[n] == RaceAt(trace, pairs[n].0, pairs[n].1))
    && (forall m, n :: 0 <= m < n < |pairs| ==> Sooner(trace, pairs[m], pairs[n]))
  }

  /** The list of reports of a trace is determined by the positions of its accesses. */
  lemma {:induction false} AllReportsExactly(trace: seq<Access>, k: nat) returns (pairs: seq<(int, int)>)
    requires ClockLaws(trace) && k <= |trace|
    ensures AllReports(trace, k, pairs, RacesOf(trace[..k]))
  {
    hide ClockLaws, Reported, NewRaces, RecordOf;
    if k == 0 {
      pairs := [];
      NoneReported(trace);
    } else {
      var before := AllReportsExactly(trace, k - 1);
      var ps := ReportsExactly(trace, k - 1);
      assert trace[..k][..k - 1] == trace[..k - 1];
      pairs := before + PairsAt(ps, k - 1);
      MoreReports(trace, k - 1, before, RacesOf(trace[..k - 1]), ps, NewRaces(RecordOf(trace[..k - 1]), trace[k - 1]));
    }
  }

  lemma NoneReported(trace: seq<Access>)
    ensures forall i, j :: j < 0 ==> !Reported(trace, i, j)
  {
  }

  lemma MoreReports(trace: seq<Access>, k: nat, before: seq<(int, int)>, races: seq<Race>, ps: seq<int>,
      added: seq<Race>)
    requires AllReports(trace, k, before, races) && ReportsOf(trace, k, ps, added)
    ensures AllReports(trace, k + 1, before + PairsAt(ps, k), races + added)
  {
    hide LastWrite, LiveRead, Racy;
    var pairs := before + PairsAt(ps, k);
    forall i, j ensures (i, j) in pairs <==> j < k + 1 && Reported(trace, i, j) {
      PairIn(before, ps, k, i, j);
    }
    hide Reported;
    forall n | 0 <= n < |pairs| ensures 0 <= pairs[n].0 < pairs[n].1 < |trace| {
      if n >= |before| {
        assert ps[n - |before|] in ps;
        ReportedBounds(trace, ps[n - |before|], k);
      }
    }
    forall m, n | 0 <= m < n < |pairs| ensures Sooner(trace, pairs[m], pairs[n]) {
      if m < |before| <= n {
        EarlierPair(before, pairs[m], k);
      }
    }
  }

  lemma EarlierPair(before: seq<(int, int)>, p: (int, int), k: int)
    requires p in before && forall i, j :: (i, j) in before ==> j < k
    ensures p.1 < k
  {
    var (i, j) := p;
    assert p == (i, j);
  }

  lemma ReportedBounds(trace: seq<Access>, i: int, k: int)
    requires Reported(trace, i, k)
    ensures 0 <= i < k < |trace|
  {
  }

  lemma PairIn(before: seq<(int, int)>, ps: seq<int>, k: int, i: int, j: int)
    ensures (i, j) in before + PairsAt(ps, k) <==> (i, j) in before || (j == k && i in ps)
  {
    var added := PairsAt(ps, k);
    if i in ps {
      var n :| 0 <= n < |ps| && ps[n] == i;
      assert added[n] == (i, k);
    }
  }
}
