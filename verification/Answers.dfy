/** What the rows of an answer say about the samples of a run. */
module Answers {
  import opened Rows
  import opened Ladder
  import Consolidation
  import opened Conservation
  import opened Runs
  import opened Buckets
  import opened Columns
  import opened RangeQuery

  // --- Whose samples an answer shows ---

  /** Seen from the window, a row and the samples it represents are in the same query bucket, when the
      row's tier is clear. */
  lemma StampedWithSamples(t: Table, ladder: seq<Tier>, interval: pos, clock: nat, now: nat, range: int, q: pos, k: nat, r: Row, s: Sample)
    requires Placed(t, ladder, interval, clock) && clock <= now && TiersClear(t, ladder, interval, range, q)
    requires r in t && s in r.samples && now - range <= k
    ensures Start(r.ts, q) == k <==> Start(s.at, q) == k
  {
    hide Clear;
    if !Buckets.IsRaw(r, interval, clock) {
      var i :| 0 <= i < |ladder| && ladder[i].size > interval && InTier(r, ladder[i], clock);
      ClearBucket(q, ladder[i], now, range, r.ts, s.at, k);
    }
  }

  /** A query bucket wholly inside the window shows the samples of the table taken inside it. */
  lemma BucketSamples(t: Table, ladder: seq<Tier>, interval: pos, clock: nat, now: nat, range: int, q: pos, k: nat, s: Sample)
    requires Placed(t, ladder, interval, clock) && clock <= now && TiersClear(t, ladder, interval, range, q)
    requires now - range <= k
    ensures s in SamplesOf(QueryGroup(t, now - range, q, k)) <==> s in SamplesOf(t) && Start(s.at, q) == k
  {
    hide Placed, TiersClear;
    var g := QueryGroup(t, now - range, q, k);
    if s in SamplesOf(g) {
      var r :| r in g && s in r.samples;
      assert g[r] > 0;
      StampedWithSamples(t, ladder, interval, clock, now, range, q, k, r, s);
    }
    if s in SamplesOf(t) && Start(s.at, q) == k {
      var r :| r in t && s in r.samples;
      StampedWithSamples(t, ladder, interval, clock, now, range, q, k, r, s);
      assert g[r] > 0;
    }
  }

  /** Pruning removes only samples older than its cutoff and the widest bucket. */
  lemma {:induction false} PrunedAreOld(events: seq<Event>, ladder: seq<Tier>, interval: pos, c: int, widest: pos)
    requires WellFormed(ladder) && ClockRises(events) && PrunesUpTo(events, c)
    requires forall i :: 0 <= i < |ladder| ==> ladder[i].size <= widest
    ensures forall s :: s in After(events, ladder, interval).pruned ==> s.at < c + widest - 1
  {
    hide Placed, Settled, WellFormed, Consolidation.Pass;
    if events != [] {
      var before, e := events[..|events| - 1], events[|events| - 1];
      PrunedAreOld(before, ladder, interval, c, widest);
      RunSettles(before, ladder, interval);
      var s := After(before, ladder, interval);
      if e.Prune? {
        OutdatedAreOld(s.table, ladder, interval, s.clock, Cutoff(e.at, e.days), widest);
      }
    }
  }

  lemma OutdatedAreOld(t: Table, ladder: seq<Tier>, interval: pos, clock: nat, cutoff: int, widest: pos)
    requires Placed(t, ladder, interval, clock)
    requires forall i :: 0 <= i < |ladder| ==> ladder[i].size <= widest
    ensures forall s :: s in SamplesOf(Outdated(t, cutoff)) ==> s.at < cutoff + widest - 1
  {
    var u := Outdated(t, cutoff);
    forall s | s in SamplesOf(u) ensures s.at < cutoff + widest - 1 {
      var r :| r in u && s in r.samples;
      assert u[r] > 0;
    }
  }

  /** The collected samples taken inside a query bucket. */
  ghost function Taken(s: Store, q: pos, k: nat): set<Sample> {
    set x | x in s.collected && Start(x.at, q) == k
  }

  /** A run, and nothing in it later than the query. */
  ghost predicate RunUntil(events: seq<Event>, ladder: seq<Tier>, interval: pos, now: nat) {
    && ClockRises(events) && SamplesAreNew(events, ladder, interval)
    && forall i :: 0 <= i < |events| ==> events[i].at <= now
  }

  lemma RunUntilFacts(events: seq<Event>, ladder: seq<Tier>, interval: pos, now: nat)
    requires WellFormed(ladder) && RunUntil(events, ladder, interval, now)
    ensures var s := After(events, ladder, interval);
            Placed(s.table, ladder, interval, s.clock) && s.clock <= now && Accounted(s)
  {
    hide Placed, Settled, SamplesAreNew, Accounted, WellFormed;
    RunSettles(events, ladder, interval);
    RunConserves(events, ladder, interval);
  }

  /** Over every run, with clear tiers in the table: each row of a bucketed answer that lies inside the
      window represents exactly the samples taken inside its bucket that no pruning removed. */
  lemma RunAnswer(points: seq<Point>, events: seq<Event>, ladder: seq<Tier>, interval: pos, now: nat, range: int, q: pos)
    requires WellFormed(ladder) && RunUntil(events, ladder, interval, now)
    requires TiersClear(After(events, ladder, interval).table, ladder, interval, range, q)
    requires IsBucketed(points, After(events, ladder, interval).table, now - range, q)
    ensures var s := After(events, ladder, interval);
            && (forall i :: 0 <= i < |points| && points[i].time >= now - range ==> points[i].samples == Taken(s, q, points[i].time) - s.pruned)
            && (forall x :: x in s.collected - s.pruned && Start(x.at, q) >= now - range ==> HasTime(points, Start(x.at, q)))
  {
    hide Placed, TiersClear, WellFormed, RunUntil, After, Averages, Exclusive;
    var s := After(events, ladder, interval);
    RunUntilFacts(events, ladder, interval, now);
    forall k: nat, x | now - range <= k
      ensures x in SamplesOf(QueryGroup(s.table, now - range, q, k)) <==> x in Taken(s, q, k) - s.pruned
    {
      BucketSamples(s.table, ladder, interval, s.clock, now, range, q, k, x);
    }
    forall x | x in s.collected - s.pruned && Start(x.at, q) >= now - range ensures HasTime(points, Start(x.at, q)) {
      assert x in Taken(s, q, Start(x.at, q)) - s.pruned;
      assert x in SamplesOf(QueryGroup(s.table, now - range, q, Start(x.at, q)));
    }
  }

  /** And exactly all the samples taken inside its bucket, once the bucket starts the widest tier's size
      or more after every pruning cutoff: whatever passes and prunings ran. */
  lemma RunAnswerComplete(points: seq<Point>, events: seq<Event>, ladder: seq<Tier>, interval: pos, now: nat, range: int, q: pos, c: int, widest: pos)
    requires WellFormed(ladder) && RunUntil(events, ladder, interval, now)
    requires TiersClear(After(events, ladder, interval).table, ladder, interval, range, q)
    requires IsBucketed(points, After(events, ladder, interval).table, now - range, q)
    requires PrunesUpTo(events, c) && forall i :: 0 <= i < |ladder| ==> ladder[i].size <= widest
    ensures var s := After(events, ladder, interval);
            && (forall i :: 0 <= i < |points| && points[i].time >= now - range && points[i].time >= c + widest - 1
                            ==> points[i].samples == Taken(s, q, points[i].time))
            && (forall x :: x in s.collected && Start(x.at, q) >= now - range && Start(x.at, q) >= c + widest - 1
                            ==> HasTime(points, Start(x.at, q)))
  {
    hide TiersClear, WellFormed, After, PrunesUpTo, IsBucketed, SamplesAreNew;
    RunAnswer(points, events, ladder, interval, now, range, q);
    PrunedAreOld(events, ladder, interval, c, widest);
    var s := After(events, ladder, interval);
    forall k: nat | k >= c + widest - 1 ensures Taken(s, q, k) - s.pruned == Taken(s, q, k) {}
  }

  // --- What their values say ---

  /** The row `read_row` reads from a row of an answer. */
  function RowOf(p: Point): Row {
    Row(p.time, None, p.cells, p.samples)
  }

  /** Rows of an answer are as sound as rows of the table: each value lies between two of the samples it
      represents and is NULL exactly when all are, and the column groups are NULL together. */
  lemma BucketedSound(points: seq<Point>, t: Table, cutoff: int, q: pos)
    requires Sound(t) && IsBucketed(points, t, cutoff, q)
    ensures forall i :: 0 <= i < |points| ==> Faithful(RowOf(points[i])) && WellGrouped(points[i].cells)
  {
    hide Faithful, FaithfulIn, WellGrouped, Averages;
    forall i | 0 <= i < |points| ensures Faithful(RowOf(points[i])) && WellGrouped(points[i].cells) {
      var g := QueryGroup(t, cutoff, q, points[i].time);
      forall r | r in g ensures Faithful(r) && WellGrouped(r.cells) { assert g[r] > 0; }
      FoldGrouped(g);
      GroupFaithful(g, RowOf(points[i]));
    }
  }

  lemma GroupFaithful(g: Table, x: Row)
    requires forall r :: r in g ==> Faithful(r)
    requires x.cells == Averages(g) && x.samples == SamplesOf(g)
    ensures Faithful(x)
  {
    hide FaithfulIn, Averages;
    forall c ensures FaithfulIn(x, c) { FoldColumn(g, x, c); }
  }

  lemma RawSoundAsRead(points: seq<Point>, t: Table, cutoff: int)
    requires Sound(t) && RangeQuery.IsRaw(points, t, cutoff)
    ensures forall i :: 0 <= i < |points| ==> Faithful(RowOf(points[i])) && WellGrouped(points[i].cells)
  {
    hide FaithfulIn, WellGrouped;
    var rows :| RawOrder(rows, points, t, cutoff);
    forall i | 0 <= i < |points| ensures Faithful(RowOf(points[i])) && WellGrouped(points[i].cells) {
      assert rows[i] in multiset(rows);
      assert Filter(t, (r: Row) => r.ts >= cutoff)[rows[i]] > 0;
      assert rows[i] in t;
      SameFaithful(rows[i], RowOf(points[i]));
    }
  }

  lemma SameFaithful(r: Row, x: Row)
    requires Faithful(r) && x.cells == r.cells && x.samples == r.samples
    ensures Faithful(x)
  {
    forall c ensures FaithfulIn(x, c) { assert FaithfulIn(r, c); }
  }
}
