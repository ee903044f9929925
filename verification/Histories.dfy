/** Histories of whole cycles: each stores its sample, consolidates and prunes, all in the second it
    wakes up. */
module Histories {
  import opened Rows
  import opened Ladder
  import opened Consolidation
  import opened Conservation
  import opened Runs
  import opened Buckets
  import opened RowBound
  import opened Collector
  import opened Serve
  import opened Answers

  /** A host whose required files can be read. */
  const READY := Readings(Some(Load(0.0, 0.0, 0.0)), Some(MemInfo(0.0, 0.0, 0.0, 0.0)), Some(Capacity(0.0, 0.0)), Some(0.0),
                          None, None, None, None, 0.0)

  /** A cycle in which nothing fails. */
  function WakeAt(at: nat): Wake { Wake(READY, at, false, at, None, at, false, false) }

  function WakesAt(times: seq<nat>): (wakes: seq<Wake>)
    ensures |wakes| == |times|
  {
    seq(|times|, i requires 0 <= i < |times| => WakeAt(times[i]))
  }

  function NoCells(n: nat): (cells: seq<Cells>)
    ensures |cells| == n
  {
    seq(n, _ => map[])
  }

  /** The history of the cycles at these instants, on a fresh database. */
  function CyclesAt(times: seq<nat>, days: nat): seq<Event> {
    Log(WakesAt(times), NoCells(|times|), 0, days)
  }

  function SampleAt(times: seq<nat>, i: nat): Sample
    requires i < |times|
  {
    Sample(i, times[i], map[])
  }

  ghost predicate IsSample(times: seq<nat>, s: Sample) {
    exists i: nat :: i < |times| && s == SampleAt(times, i)
  }

  /** What the loop can have done: the history of some cycles. */
  ghost predicate IsHistory(events: seq<Event>) {
    exists wakes: seq<Wake>, cells, days :: |cells| == |wakes| && events == Log(wakes, cells, 0, days)
  }

  predicate Rising(times: seq<nat>) {
    forall i, j :: 0 <= i < j < |times| ==> times[i] <= times[j]
  }

  lemma CyclesNext(times: seq<nat>, days: nat)
    requires times != []
    ensures var n := |times| - 1;
            CyclesAt(times, days)
            == CyclesAt(times[..n], days) + [Collect(times[n], n, map[]), Consolidate(times[n]), Prune(times[n], days)]
  {
    var n := |times| - 1;
    assert WakesAt(times)[..n] == WakesAt(times[..n]) && NoCells(|times|)[..n] == NoCells(n);
    assert CycleEvents(WakeAt(times[n]), n, map[], days)
           == [Collect(times[n], n, map[]), Consolidate(times[n]), Prune(times[n], days)];
  }

  lemma CyclesAreHistory(times: seq<nat>, days: nat)
    ensures IsHistory(CyclesAt(times, days))
  {}

  lemma {:induction false} CyclesRise(times: seq<nat>, days: nat)
    requires Rising(times)
    ensures ClockRises(CyclesAt(times, days))
    ensures forall i :: 0 <= i < |CyclesAt(times, days)| ==> times != [] && CyclesAt(times, days)[i].at <= times[|times| - 1]
  {
    hide CyclesAt;
    if times == [] {
      NoCycles(days);
    } else {
      var n := |times| - 1;
      CyclesRise(times[..n], days);
      CyclesNext(times, days);
    }
  }

  lemma NoCycles(days: nat)
    ensures CyclesAt([], days) == []
  {}

  lemma {:induction false} CyclesNumbered(times: seq<nat>, days: nat)
    ensures Numbered(CyclesAt(times, days), |times|)
  {
    hide CyclesAt;
    if times == [] {
      NoCycles(days);
    } else {
      var n := |times| - 1;
      CyclesNumbered(times[..n], days);
      CyclesNext(times, days);
    }
  }

  lemma {:induction false} CyclesPrune(times: seq<nat>, days: nat, c: int)
    requires forall i :: 0 <= i < |times| ==> Cutoff(times[i], days) <= c
    ensures PrunesUpTo(CyclesAt(times, days), c)
  {
    hide CyclesAt;
    if times == [] {
      NoCycles(days);
    } else {
      var n := |times| - 1;
      CyclesPrune(times[..n], days, c);
      CyclesNext(times, days);
    }
  }

  /** Every sample is collected, and kept if the run is no longer than what is kept. */
  lemma {:induction false} CyclesCollect(times: seq<nat>, days: nat, ladder: seq<Tier>, interval: pos)
    ensures forall s :: s in After(CyclesAt(times, days), ladder, interval).collected <==> IsSample(times, s)
    ensures (forall i :: 0 <= i < |times| ==> times[i] <= days * 86400) ==> After(CyclesAt(times, days), ladder, interval).pruned == {}
  {
    hide CyclesAt, Apply;
    if times == [] {
      NoCycles(days);
    } else {
      hide After;
      var n := |times| - 1;
      CyclesCollect(times[..n], days, ladder, interval);
      CyclesNext(times, days);
      CycleStore(CyclesAt(times[..n], days), times[n], n, days, ladder, interval);
      var before, after := After(CyclesAt(times[..n], days), ladder, interval).collected,
                           After(CyclesAt(times, days), ladder, interval).collected;
      forall s ensures s in after <==> IsSample(times, s) { OneMoreSample(times, s); }
    }
  }

  lemma OneMoreSample(times: seq<nat>, s: Sample)
    requires times != []
    ensures IsSample(times, s) <==> IsSample(times[..|times| - 1], s) || s == SampleAt(times, |times| - 1)
  {
    var n := |times| - 1;
    forall i: nat | i < n ensures SampleAt(times, i) == SampleAt(times[..n], i) {}
    if i: nat :| i < n && s == SampleAt(times[..n], i) { assert s == SampleAt(times, i); }
    if i: nat :| i < |times| && s == SampleAt(times, i) {
      if i < n { assert s == SampleAt(times[..n], i); }
    }
  }

  lemma CycleStore(before: seq<Event>, at: nat, id: nat, days: nat, ladder: seq<Tier>, interval: pos)
    ensures var s := After(before, ladder, interval);
            var u := After(before + [Collect(at, id, map[]), Consolidate(at), Prune(at, days)], ladder, interval);
            && u.collected == s.collected + {Sample(id, at, map[])}
            && (at <= days * 86400 ==> u.pruned == s.pruned)
  {
    hide Pass;
    var c, f, p := Collect(at, id, map[]), Consolidate(at), Prune(at, days);
    AfterOne(before, c, ladder, interval);
    AfterOne(before + [c], f, ladder, interval);
    AfterOne(before + [c] + [f], p, ladder, interval);
    assert before + [c] + [f] + [p] == before + [c, f, p];
    var t := After(before + [c] + [f], ladder, interval).table;
    if at <= days * 86400 {
      assert Outdated(t, Cutoff(at, days)) == multiset{};
      assert SamplesOf(multiset{}) == {};
    }
  }

  /** What such a history leaves. */
  lemma CyclesLeave(times: seq<nat>, days: nat, ladder: seq<Tier>, interval: pos)
    requires WellFormed(ladder) && Rising(times) && times != []
    ensures var events, last := CyclesAt(times, days), times[|times| - 1];
            && RunUntil(events, ladder, interval, last)
            && Cycled(After(events, ladder, interval).table, ladder, interval, days, last, last)
            && Accounted(After(events, ladder, interval))
  {
    hide CyclesAt, After, WellFormed, Cycled, Numbered, Accounted, SamplesAreNew;
    var events, n := CyclesAt(times, days), |times| - 1;
    CyclesRise(times, days);
    CyclesNumbered(times, days);
    NumberedAreNew(events, |times|, ladder, interval);
    assert RunUntil(events, ladder, interval, times[n]);
    RunUntilFacts(events, ladder, interval, times[n]);
    CyclesNext(times, days);
    var front := CyclesAt(times[..n], days) + [Collect(times[n], n, map[])];
    assert events == front + [Consolidate(times[n]), Prune(times[n], days)];
    CycleIsCycled(front, ladder, interval, times[n], times[n], days);
  }

  // --- One sample left behind ---

  /** The instant the bucket of the tier that holds `at` becomes due. */
  function DueAt(tier: Tier, at: nat): nat { Start(at, tier.size) + tier.size + tier.threshold }

  /** When its bucket of tier `j` is due and that of no coarser tier is, the row that represents a sample is
      of tier `j`, stamped at the start of that bucket. */
  lemma RowOfTier(t: Table, ladder: seq<Tier>, interval: pos, clock: nat, j: nat, r: Row, s: Sample)
    requires WellFormed(ladder) && j < |ladder| && ladder[j].size > interval && r in t && s in r.samples
    requires Placed(t, ladder, interval, clock) && Clean(t, ladder[j], clock)
    requires DueAt(ladder[j], s.at) <= clock
    requires forall i :: j < i < |ladder| ==> clock < DueAt(ladder[i], s.at)
    ensures r.bucketSec == Some(ladder[j].size) && r.ts == Start(s.at, ladder[j].size)
  {
    assert !Due(r, ladder[j], clock);
    if Buckets.IsRaw(r, interval, clock) {
      assert false;
    }
    var i :| 0 <= i < |ladder| && ladder[i].size > interval && InTier(r, ladder[i], clock);
    StartUnique(s.at, ladder[i].size, r.ts);
    if i < j {
      Nesting(s.at, ladder[i].size, ladder[j].size);
      assert false;
    }
  }

  /** A sample younger than every threshold of a tier wider than the interval is still in its raw row. */
  lemma RowOfYoung(t: Table, ladder: seq<Tier>, interval: pos, clock: nat, r: Row, s: Sample)
    requires r in t && s in r.samples && Placed(t, ladder, interval, clock)
    requires forall i :: 0 <= i < |ladder| && ladder[i].size > interval ==> clock <= s.at + ladder[i].threshold
    ensures r == Row(s.at, Some(interval), s.cells, {s})
  {}

  /** Before a bucket is due a coarser one is not. */
  lemma CoarserLater(ladder: seq<Tier>, j: nat, at: nat)
    requires WellFormed(ladder) && j < |ladder|
    ensures forall i :: j < i < |ladder| ==> DueAt(ladder[j], at) < DueAt(ladder[i], at)
  {
    forall i | j < i < |ladder| ensures DueAt(ladder[j], at) < DueAt(ladder[i], at) {
      Nesting(at, ladder[j].size, ladder[i].size);
    }
  }

  // --- How many rows are left ---

  /** The raw rows of the samples from number `m` up to number `n`. */
  ghost function RawRowsAt(times: seq<nat>, interval: pos, m: nat, n: nat): Table
    requires m <= n <= |times|
    decreases n
  {
    if n == m then multiset{}
    else RawRowsAt(times, interval, m, n - 1) + multiset{RawRowAt(times, interval, n - 1)}
  }

  function RawRowAt(times: seq<nat>, interval: pos, i: nat): Row
    requires i < |times|
  {
    Row(times[i], Some(interval), map[], {SampleAt(times, i)})
  }

  lemma {:induction false} RawRowsDistinct(times: seq<nat>, interval: pos, m: nat, n: nat, r: Row)
    requires m <= n <= |times|
    ensures |RawRowsAt(times, interval, m, n)| == n - m
    ensures RawRowsAt(times, interval, m, n)[r] <= 1
    ensures r in RawRowsAt(times, interval, m, n) ==> exists i :: m <= i < n && r == RawRowAt(times, interval, i)
    decreases n
  {
    if n > m { RawRowsDistinct(times, interval, m, n - 1, r); }
  }

  /** The sample taken at `at` is younger than every threshold that could have moved it. */
  predicate Young(ladder: seq<Tier>, interval: pos, clock: nat, at: nat) {
    forall i :: 0 <= i < |ladder| && ladder[i].size > interval ==> clock <= at + ladder[i].threshold
  }

  /** The window holds at least a row for each of its young samples. */
  lemma YoungRows(times: seq<nat>, days: nat, ladder: seq<Tier>, interval: pos, m: nat, cutoff: int)
    requires WellFormed(ladder) && Rising(times) && m < |times|
    requires forall i :: 0 <= i < |times| ==> times[i] <= days * 86400
    requires forall i :: m <= i < |times| ==> times[i] >= cutoff && Young(ladder, interval, times[|times| - 1], times[i])
    ensures |Retained(After(CyclesAt(times, days), ladder, interval).table, cutoff)| >= |times| - m
  {
    hide CyclesAt, After, WellFormed, Young;
    var s := After(CyclesAt(times, days), ladder, interval);
    CyclesLeave(times, days, ladder, interval);
    CyclesCollect(times, days, ladder, interval);
    var rows, window := RawRowsAt(times, interval, m, |times|), Retained(s.table, cutoff);
    forall i | m <= i < |times| ensures RawRowAt(times, interval, i) in s.table {
      assert IsSample(times, SampleAt(times, i));
      YoungRow(s, times, ladder, interval, i);
    }
    forall r ensures rows[r] <= window[r] { RawRowsDistinct(times, interval, m, |times|, r); }
    RawRowsDistinct(times, interval, m, |times|, RawRowAt(times, interval, m));
    SubsetSize(rows, window);
  }

  lemma YoungRow(s: Store, times: seq<nat>, ladder: seq<Tier>, interval: pos, i: nat)
    requires i < |times| && Accounted(s) && s.pruned == {} && SampleAt(times, i) in s.collected
    requires Placed(s.table, ladder, interval, times[|times| - 1]) && Young(ladder, interval, times[|times| - 1], times[i])
    ensures RawRowAt(times, interval, i) in s.table
  {
    hide Placed, Exclusive;
    var r :| r in s.table && SampleAt(times, i) in r.samples;
    RowOfYoung(s.table, ladder, interval, times[|times| - 1], r, SampleAt(times, i));
  }
}
