/** Which rows a running daemon's table can hold: where they are stamped, what they cover, and that
    a consolidated bucket is one row. */
module Buckets {
  import opened Rows
  import opened Ladder
  import opened Consolidation
  import opened Runs

  /** A row as `db_insert` stored it. */
  ghost predicate IsRaw(r: Row, interval: pos, clock: nat) {
    && r.bucketSec == Some(interval)
    && r.ts <= clock
    && exists s :: r.samples == {s} && s.at == r.ts && s.cells == r.cells
  }

  /** A consolidated row: stamped at the start of a bucket whose end has aged past the threshold, and
      representing only samples taken inside it. */
  ghost predicate InTier(r: Row, tier: Tier, clock: nat) {
    && r.bucketSec == Some(tier.size)
    && r.ts % tier.size == 0
    && DueBucket(r.ts, tier, clock)
    && r.samples != {}
    && forall s :: s in r.samples ==> r.ts <= s.at < r.ts + tier.size
  }

  ghost predicate InSomeTier(r: Row, ladder: seq<Tier>, interval: pos, clock: nat) {
    exists i :: 0 <= i < |ladder| && ladder[i].size > interval && InTier(r, ladder[i], clock)
  }

  ghost predicate Placed(t: Table, ladder: seq<Tier>, interval: pos, clock: nat) {
    forall r :: r in t ==> IsRaw(r, interval, clock) || InSomeTier(r, ladder, interval, clock)
  }

  /** For each tier coarser than the interval: a row of that tier is alone in its bucket, with no
      second row of the tier and no finer row. */
  ghost predicate Settled(t: Table, ladder: seq<Tier>, interval: pos) {
    forall i, x, r ::
      && 0 <= i < |ladder| && ladder[i].size > interval
      && x in t && x.bucketSec == Some(ladder[i].size)
      && r in t && InBucket(r, ladder[i], x.ts)
      ==> r == x && t[x] == 1
  }

  /** A row of the tier or finer, stamped inside the bucket starting at `k`. */
  ghost predicate InBucket(r: Row, tier: Tier, k: nat) {
    (Finer(r, tier) || r.bucketSec == Some(tier.size)) && Start(r.ts, tier.size) == k
  }

  // --- Where rows are ---

  lemma TierOrder(ladder: seq<Tier>, i: nat, j: nat)
    requires WellFormed(ladder) && i < |ladder| && j < |ladder|
    requires ladder[i].size < ladder[j].size
    ensures i < j
  {}

  /** A sample of a folded row was taken inside the bucket it was folded into. */
  lemma FoldedCovers(t: Table, ladder: seq<Tier>, interval: pos, clock: nat, j: nat, k: nat, s: Sample)
    requires WellFormed(ladder) && j < |ladder| && Placed(t, ladder, interval, clock)
    requires s in Fold(t, ladder[j], k).samples
    ensures k <= s.at < k + ladder[j].size
  {
    var tier := ladder[j];
    var r :| r in Group(t, tier, k) && s in r.samples;
    assert r in t && Finer(r, tier) && Start(r.ts, tier.size) == k;
    if !IsRaw(r, interval, clock) {
      var i :| 0 <= i < |ladder| && ladder[i].size > interval && InTier(r, ladder[i], clock);
      TierOrder(ladder, i, j);
      StartUnique(r.ts, ladder[i].size, r.ts);
      Nesting(r.ts, ladder[i].size, tier.size);
    }
  }

  lemma FoldedInTier(t: Table, ladder: seq<Tier>, interval: pos, clock: nat, j: nat, now: nat, x: Row)
    requires WellFormed(ladder) && j < |ladder| && Placed(t, ladder, interval, clock) && clock <= now
    requires x in Folded(t, ladder[j], now)
    ensures ladder[j].size > interval && InTier(x, ladder[j], now)
  {
    var tier := ladder[j];
    var r := FoldedFrom(t, tier, now, x);
    assert r.samples != {} && r.bucketSec.Some? && interval <= r.bucketSec.value;
    assert r in Group(t, tier, x.ts);
    var s :| s in r.samples;
    assert s in x.samples;
    forall s | s in x.samples ensures x.ts <= s.at < x.ts + tier.size {
      FoldedCovers(t, ladder, interval, clock, j, x.ts, s);
    }
  }

  lemma StepPlaces(t: Table, ladder: seq<Tier>, interval: pos, clock: nat, j: nat, now: nat)
    requires WellFormed(ladder) && j < |ladder| && Placed(t, ladder, interval, clock) && clock <= now
    ensures Placed(Step(t, ladder[j], now), ladder, interval, now)
  {
    hide Step, Folded, Fold;
    StepRows(t, ladder[j], now);
    var u := Step(t, ladder[j], now);
    forall x | x in u ensures IsRaw(x, interval, now) || InSomeTier(x, ladder, interval, now) {
      assert u[x] > 0;
      if x in Folded(t, ladder[j], now) {
        FoldedInTier(t, ladder, interval, clock, j, now, x);
      } else {
        LaterClock(x, ladder, interval, clock, now);
      }
    }
  }

  lemma LaterClock(x: Row, ladder: seq<Tier>, interval: pos, clock: nat, now: nat)
    requires IsRaw(x, interval, clock) || InSomeTier(x, ladder, interval, clock)
    requires clock <= now
    ensures IsRaw(x, interval, now) || InSomeTier(x, ladder, interval, now)
  {
    if !IsRaw(x, interval, clock) {
      var i :| 0 <= i < |ladder| && ladder[i].size > interval && InTier(x, ladder[i], clock);
      assert InTier(x, ladder[i], now);
    }
  }

  // --- One row per bucket ---

  /** A row of a tier is in its own bucket. */
  lemma OwnBucket(t: Table, ladder: seq<Tier>, interval: pos, clock: nat, i: nat, x: Row)
    requires WellFormed(ladder) && Placed(t, ladder, interval, clock)
    requires i < |ladder| && ladder[i].size > interval
    requires x in t && x.bucketSec == Some(ladder[i].size)
    ensures x.ts % ladder[i].size == 0 && Start(x.ts, ladder[i].size) == x.ts && InBucket(x, ladder[i], x.ts)
    ensures DueBucket(x.ts, ladder[i], clock)
  {
    var j :| 0 <= j < |ladder| && ladder[j].size > interval && InTier(x, ladder[j], clock);
    StartUnique(x.ts, ladder[i].size, x.ts);
  }

  /** A bucket that still has finer rows has no row of its tier. */
  lemma NotYetFolded(t: Table, ladder: seq<Tier>, interval: pos, clock: nat, j: nat, now: nat, x: Row, r: Row)
    requires WellFormed(ladder) && j < |ladder| && ladder[j].size > interval
    requires Placed(t, ladder, interval, clock) && Settled(t, ladder, interval)
    requires x in Folded(t, ladder[j], now)
    requires r in t && InBucket(r, ladder[j], x.ts)
    ensures Due(r, ladder[j], now)
  {
    var tier := ladder[j];
    var q := FoldedFrom(t, tier, now, x);
    if r.bucketSec == Some(tier.size) {
      OwnBucket(t, ladder, interval, clock, j, r);
      assert InBucket(q, tier, r.ts);
      assert false;
    }
  }

  /** A row folded into tier `j` is not inside a bucket already folded at tier `i`. */
  lemma FoldedOutside(t: Table, ladder: seq<Tier>, interval: pos, clock: nat, i: nat, j: nat, now: nat, x: Row, r: Row)
    requires WellFormed(ladder) && i < |ladder| && j < |ladder| && ladder[i].size > interval
    requires Placed(t, ladder, interval, clock) && Settled(t, ladder, interval)
    requires x in t && x.bucketSec == Some(ladder[i].size) && !Due(x, ladder[j], now)
    requires r in Folded(t, ladder[j], now)
    ensures !InBucket(r, ladder[i], x.ts)
  {
    if InBucket(r, ladder[i], x.ts) {
      var q := FoldedFrom(t, ladder[j], now, r);
      if j != i {
        TierOrder(ladder, j, i);
        Nesting(q.ts, ladder[j].size, ladder[i].size);
      } else {
        StartUnique(r.ts, ladder[i].size, r.ts);
      }
      assert false;
    }
  }

  lemma StepSettles(t: Table, ladder: seq<Tier>, interval: pos, clock: nat, j: nat, now: nat)
    requires WellFormed(ladder) && j < |ladder| && clock <= now
    requires Placed(t, ladder, interval, clock) && Settled(t, ladder, interval)
    ensures Settled(Step(t, ladder[j], now), ladder, interval)
  {
    hide Step, Folded, Fold, Placed, Settled, Due;
    StepRows(t, ladder[j], now);
    var u := Step(t, ladder[j], now);
    forall i, x, r |
      && 0 <= i < |ladder| && ladder[i].size > interval
      && x in u && x.bucketSec == Some(ladder[i].size)
      && r in u && InBucket(r, ladder[i], x.ts)
      ensures r == x && u[x] == 1
    {
      assert u[x] > 0 && u[r] > 0;
      StepSettlesAt(t, ladder, interval, clock, j, now, i, x, r);
    }
    SettledIntro(u, ladder, interval);
  }

  lemma SettledIntro(u: Table, ladder: seq<Tier>, interval: pos)
    requires forall i, x, r ::
      && 0 <= i < |ladder| && ladder[i].size > interval
      && x in u && x.bucketSec == Some(ladder[i].size)
      && r in u && InBucket(r, ladder[i], x.ts)
      ==> r == x && u[x] == 1
    ensures Settled(u, ladder, interval)
  {}

  lemma StepSettlesAt(t: Table, ladder: seq<Tier>, interval: pos, clock: nat, j: nat, now: nat, i: nat, x: Row, r: Row)
    requires WellFormed(ladder) && j < |ladder| && clock <= now
    requires Placed(t, ladder, interval, clock) && Settled(t, ladder, interval)
    requires i < |ladder| && ladder[i].size > interval && x.bucketSec == Some(ladder[i].size)
    requires x in Step(t, ladder[j], now) && r in Step(t, ladder[j], now) && InBucket(r, ladder[i], x.ts)
    ensures r == x && Step(t, ladder[j], now)[x] == 1
  {
    hide Step, Folded, Fold, Placed;
    var tier := ladder[j];
    var u := Step(t, tier, now);
    StepRows(t, tier, now);
    assert u[x] > 0 && u[r] > 0;
    if x in Folded(t, tier, now) {
      var _ := FoldedFrom(t, tier, now, x);
      TierUnique(ladder, i, j);
      if r in Folded(t, tier, now) {
        var _ := FoldedFrom(t, tier, now, r);
        StartUnique(r.ts, tier.size, r.ts);
      } else {
        NotYetFolded(t, ladder, interval, clock, j, now, x, r);
      }
      if x in t {
        StartUnique(x.ts, tier.size, x.ts);
        NotYetFolded(t, ladder, interval, clock, j, now, x, x);
        assert false;
      }
    } else {
      if r in Folded(t, tier, now) {
        FoldedOutside(t, ladder, interval, clock, i, j, now, x, r);
        assert false;
      }
      assert r in t && x in t;
    }
  }

  lemma TierUnique(ladder: seq<Tier>, i: nat, j: nat)
    requires WellFormed(ladder) && i < |ladder| && j < |ladder| && ladder[i].size == ladder[j].size
    ensures i == j
  {}

  // --- Every run ---

  lemma {:induction false} TiersSettle(t: Table, ladder: seq<Tier>, interval: pos, clock: nat, k: nat, now: nat)
    requires WellFormed(ladder) && k <= |ladder| && clock <= now
    requires Placed(t, ladder, interval, clock) && Settled(t, ladder, interval)
    ensures Placed(Tiers(t, ladder, k, now), ladder, interval, now)
    ensures Settled(Tiers(t, ladder, k, now), ladder, interval)
  {
    hide Step, Placed, Settled;
    if k == 0 {
      PlacedLater(t, ladder, interval, clock, now);
    } else {
      TiersSettle(t, ladder, interval, clock, k - 1, now);
      StepPlaces(Tiers(t, ladder, k - 1, now), ladder, interval, now, k - 1, now);
      StepSettles(Tiers(t, ladder, k - 1, now), ladder, interval, now, k - 1, now);
    }
  }

  lemma PlacedLater(t: Table, ladder: seq<Tier>, interval: pos, clock: nat, now: nat)
    requires Placed(t, ladder, interval, clock) && clock <= now
    ensures Placed(t, ladder, interval, now)
  {
    forall r | r in t ensures IsRaw(r, interval, now) || InSomeTier(r, ladder, interval, now) {
      LaterClock(r, ladder, interval, clock, now);
    }
  }

  lemma CollectSettles(t: Table, ladder: seq<Tier>, interval: pos, clock: nat, e: Event)
    requires WellFormed(ladder) && e.Collect? && clock <= e.at
    requires Placed(t, ladder, interval, clock) && Settled(t, ladder, interval)
    ensures Placed(t + multiset{RawRow(e, interval)}, ladder, interval, e.at)
    ensures Settled(t + multiset{RawRow(e, interval)}, ladder, interval)
  {
    var row := RawRow(e, interval);
    var u := t + multiset{row};
    assert row.samples == {Sample(e.id, e.at, e.cells)};
    assert IsRaw(row, interval, e.at);
    PlacedLater(t, ladder, interval, clock, e.at);
    forall i, x, r |
      && 0 <= i < |ladder| && ladder[i].size > interval
      && x in u && x.bucketSec == Some(ladder[i].size)
      && r in u && InBucket(r, ladder[i], x.ts)
      ensures r == x && u[x] == 1
    {
      assert x != row && x in t;
      OwnBucket(t, ladder, interval, clock, i, x);
      if r == row {
        assert false;
      }
    }
    SettledIntro(u, ladder, interval);
  }

  lemma PruneSettles(t: Table, ladder: seq<Tier>, interval: pos, clock: nat, at: nat, cutoff: int)
    requires WellFormed(ladder) && clock <= at
    requires Placed(t, ladder, interval, clock) && Settled(t, ladder, interval)
    ensures Placed(Retained(t, cutoff), ladder, interval, at)
    ensures Settled(Retained(t, cutoff), ladder, interval)
  {
    var u := Retained(t, cutoff);
    PlacedLater(t, ladder, interval, clock, at);
    forall r | r in u ensures r in t && u[r] == t[r] { assert u[r] > 0; }
  }

  /** In every state a fresh database can reach with a fixed interval and a clock that never goes
      back: rows are where their bucket says, and each bucket of each tier coarser than the interval
      holds at most one row of that tier and, if it does, nothing finer. */
  lemma {:induction false} RunSettles(events: seq<Event>, ladder: seq<Tier>, interval: pos)
    requires WellFormed(ladder) && ClockRises(events)
    ensures var s := After(events, ladder, interval);
            && Placed(s.table, ladder, interval, s.clock)
            && Settled(s.table, ladder, interval)
            && (events != [] ==> s.clock == events[|events| - 1].at)
  {
    hide Placed, Settled, Pass;
    if events == [] {
      FreshSettled(ladder, interval);
    } else {
      var before, e := events[..|events| - 1], events[|events| - 1];
      RunSettles(before, ladder, interval);
      var s := After(before, ladder, interval);
      assert s.clock <= e.at;
      match e
      case Collect(_, _, _) => CollectSettles(s.table, ladder, interval, s.clock, e);
      case Consolidate(at) => PassSettles(s.table, ladder, interval, s.clock, at);
      case Prune(at, days) => PruneSettles(s.table, ladder, interval, s.clock, at, Cutoff(at, days));
    }
  }

  lemma FreshSettled(ladder: seq<Tier>, interval: pos)
    ensures Placed(FRESH.table, ladder, interval, 0) && Settled(FRESH.table, ladder, interval)
  {}

  lemma PassSettles(t: Table, ladder: seq<Tier>, interval: pos, clock: nat, now: nat)
    requires WellFormed(ladder) && clock <= now
    requires Placed(t, ladder, interval, clock) && Settled(t, ladder, interval)
    ensures Placed(Pass(t, ladder, now), ladder, interval, now)
    ensures Settled(Pass(t, ladder, now), ladder, interval)
  {
    TiersSettle(t, ladder, interval, clock, |ladder|, now);
  }

  // --- Retention ---

  /** Pruning drops no sample younger than the retention less one widest bucket, and every row it
      keeps represents only samples inside the retention. */
  lemma PruneRespectsAge(t: Table, ladder: seq<Tier>, interval: pos, clock: nat, cutoff: int, widest: pos)
    requires Placed(t, ladder, interval, clock)
    requires forall i :: 0 <= i < |ladder| ==> ladder[i].size <= widest
    ensures forall s :: s in SamplesOf(t) && s.at >= cutoff + widest - 1 ==> s in SamplesOf(Retained(t, cutoff))
    ensures forall s :: s in SamplesOf(Retained(t, cutoff)) ==> s.at >= cutoff
  {
    var u := Retained(t, cutoff);
    forall s | s in SamplesOf(t) && s.at >= cutoff + widest - 1 ensures s in SamplesOf(u) {
      var r :| r in t && s in r.samples;
      assert r.ts >= cutoff;
      assert u[r] > 0;
    }
    forall s | s in SamplesOf(u) ensures s.at >= cutoff {
      var r :| r in u && s in r.samples;
      assert u[r] > 0;
    }
  }
}
