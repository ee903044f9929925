/** How many rows a running daemon can hold, whatever the length of its run. */
module RowBound {
  import opened Rows
  import opened Ladder
  import opened Consolidation
  import opened Runs
  import opened Buckets

  // --- Pigeonhole ---

  /** Rows at least `d` seconds apart, none stored twice. */
  ghost predicate Apart(t: Table, d: pos) {
    && (forall r :: r in t ==> t[r] == 1)
    && (forall r, r' :: r in t && r' in t && r != r' ==> r.ts + d <= r'.ts || r'.ts + d <= r.ts)
  }

  lemma DivMinus(a: nat, d: pos)
    requires a >= d
    ensures (a - d) / d == a / d - 1
  {
    var q, m := a / d, a % d;
    assert a - d == (q - 1) * d + m;
    DivModUnique(a - d, d, q - 1, m);
  }

  lemma SplitSize(t: Table, p: Row -> bool)
    ensures |t| == |Filter(t, p)| + |Filter(t, (r: Row) => !p(r))|
  {
    assert t == Filter(t, p) + Filter(t, (r: Row) => !p(r));
  }

  lemma AtMostOne(t: Table, lo: int, d: pos)
    requires Apart(t, d)
    requires forall r :: r in t ==> lo < r.ts <= lo + d
    ensures |t| <= 1
  {
    if t != multiset{} {
      var p := Pick(t);
      assert t == multiset{p};
    }
  }

  lemma ApartPart(t: Table, p: Row -> bool, d: pos)
    requires Apart(t, d)
    ensures Apart(Filter(t, p), d)
    ensures forall r :: r in Filter(t, p) ==> r in t && p(r)
  {
    var u := Filter(t, p);
    forall r | r in u ensures r in t && p(r) && u[r] == t[r] { assert u[r] > 0; }
  }

  /** Rows `d` apart stamped within `span` seconds are at most span / d + 1. */
  lemma {:induction false} ApartBound(t: Table, lo: int, span: nat, d: pos)
    requires Apart(t, d)
    requires forall r :: r in t ==> lo <= r.ts <= lo + span
    ensures |t| <= span / d + 1
    decreases span
  {
    hide Apart, Filter;
    if span < d {
      AtMostOne(t, lo - 1, d);
    } else {
      var high := (r: Row) => r.ts > lo + span - d;
      var low := (r: Row) => !high(r);
      SplitSize(t, high);
      ApartPart(t, high, d);
      ApartPart(t, low, d);
      AtMostOne(Filter(t, high), lo + span - d, d);
      ApartBound(Filter(t, low), lo, span - d, d);
      DivMinus(span, d);
    }
  }

  // --- The bound ---

  /** The greatest age of the rows finer than tier `k`: until that tier folds them, and never past
      the retention. */
  function MaxAge(ladder: seq<Tier>, k: nat, days: nat): nat {
    var retention := days * 86400;
    if k < |ladder| && ladder[k].threshold + ladder[k].size - 1 < retention
    then ladder[k].threshold + ladder[k].size - 1
    else retention
  }

  /** How many instants `w` apart fit between two ages. */
  function Fits(minAge: nat, maxAge: nat, w: pos): nat {
    if maxAge < minAge then 0 else (maxAge - minAge) / w + 1
  }

  /** Index of the first tier coarser than the interval. */
  function FirstTier(ladder: seq<Tier>, interval: pos): (k: nat)
    requires WellFormed(ladder)
    ensures k <= |ladder|
    ensures forall i :: 0 <= i < |ladder| ==> (ladder[i].size > interval <==> i >= k)
  {
    if |ladder| == 0 || ladder[|ladder| - 1].size <= interval then |ladder|
    else FirstTier(ladder[..|ladder| - 1], interval)
  }

  function RawQuota(ladder: seq<Tier>, interval: pos, gap: pos, days: nat): nat
    requires WellFormed(ladder)
  {
    Fits(0, MaxAge(ladder, FirstTier(ladder, interval), days), gap)
  }

  function TierQuota(ladder: seq<Tier>, i: nat, days: nat): nat
    requires i < |ladder|
  {
    Fits(ladder[i].threshold + ladder[i].size, MaxAge(ladder, i + 1, days), ladder[i].size)
  }

  /** The most rows of the first `k` tiers. */
  function TiersQuota(ladder: seq<Tier>, interval: pos, days: nat, k: nat): nat
    requires k <= |ladder|
  {
    if k == 0 then 0
    else TiersQuota(ladder, interval, days, k - 1)
         + if ladder[k - 1].size > interval then TierQuota(ladder, k - 1, days) else 0
  }

  /** The most rows the table holds after a cycle, from the interval, the least number of seconds between
      two samples, and the retention. On time the two are the same; a late cycle can stamp its sample
      closer to the next. */
  function MaxRows(ladder: seq<Tier>, interval: pos, gap: pos, days: nat): nat
    requires WellFormed(ladder)
  {
    RawQuota(ladder, interval, gap, days) + TiersQuota(ladder, interval, days, |ladder|)
  }

  /** Raw rows are `gap` seconds apart. */
  ghost predicate RawApart(t: Table, interval: pos, gap: pos) {
    && (forall r :: r in t && r.bucketSec == Some(interval) ==> t[r] == 1)
    && (forall r, r' :: r in t && r' in t && r != r' && r.bucketSec == r'.bucketSec == Some(interval)
                        ==> r.ts + gap <= r'.ts || r'.ts + gap <= r.ts)
  }

  /** What holds of the table right after a pass at `now` and a prune at `at`. */
  ghost predicate Cycled(t: Table, ladder: seq<Tier>, interval: pos, days: nat, now: nat, at: nat) {
    && WellFormed(ladder) && now <= at
    && Placed(t, ladder, interval, now) && Settled(t, ladder, interval)
    && (forall i :: 0 <= i < |ladder| ==> Clean(t, ladder[i], now))
    && (forall r :: r in t ==> r.ts >= Cutoff(at, days))
  }

  /** The rows of one width. */
  ghost function OfWidth(t: Table, w: nat): (u: Table)
    ensures forall r {:trigger u[r]} :: u[r] == if r.bucketSec == Some(w) then t[r] else 0
  {
    Filter(t, (r: Row) => r.bucketSec == Some(w))
  }

  lemma RowAge(t: Table, ladder: seq<Tier>, interval: pos, days: nat, now: nat, at: nat, r: Row, k: nat)
    requires Cycled(t, ladder, interval, days, now, at)
    requires r in t && (k < |ladder| ==> Finer(r, ladder[k]))
    ensures now - MaxAge(ladder, k, days) <= r.ts <= now
  {
    if k < |ladder| {
      assert !Due(r, ladder[k], now);
    }
  }

  /** Rows `w` apart with ages between the two bounds fit in the quota. */
  lemma AgeBound(u: Table, now: int, minAge: nat, maxAge: nat, w: pos)
    requires Apart(u, w)
    requires forall r :: r in u ==> now - maxAge <= r.ts <= now - minAge
    ensures |u| <= Fits(minAge, maxAge, w)
  {
    if maxAge < minAge {
      assert u == multiset{};
    } else {
      ApartBound(u, now - maxAge, maxAge - minAge, w);
    }
  }

  lemma RawBound(t: Table, ladder: seq<Tier>, interval: pos, gap: pos, days: nat, now: nat, at: nat)
    requires WellFormed(ladder)
    requires Cycled(t, ladder, interval, days, now, at) && RawApart(t, interval, gap)
    ensures |OfWidth(t, interval)| <= RawQuota(ladder, interval, gap, days)
  {
    hide Cycled, RawApart;
    var k := FirstTier(ladder, interval);
    var u := OfWidth(t, interval);
    forall r | r in u ensures now - MaxAge(ladder, k, days) <= r.ts <= now {
      assert u[r] > 0;
      RowAge(t, ladder, interval, days, now, at, r, k);
    }
    RawPartApart(t, interval, gap);
    AgeBound(u, now, 0, MaxAge(ladder, k, days), gap);
  }

  lemma RawPartApart(t: Table, interval: pos, gap: pos)
    requires RawApart(t, interval, gap)
    ensures Apart(OfWidth(t, interval), gap)
  {
    var u := OfWidth(t, interval);
    forall r | r in u ensures r in t && u[r] == t[r] && r.bucketSec == Some(interval) { assert u[r] > 0; }
  }

  lemma TierBound(t: Table, ladder: seq<Tier>, interval: pos, days: nat, now: nat, at: nat, i: nat)
    requires Cycled(t, ladder, interval, days, now, at)
    requires i < |ladder| && ladder[i].size > interval
    ensures |OfWidth(t, ladder[i].size)| <= TierQuota(ladder, i, days)
  {
    hide Cycled;
    var u := OfWidth(t, ladder[i].size);
    var minAge, maxAge := ladder[i].threshold + ladder[i].size, MaxAge(ladder, i + 1, days);
    forall r | r in u ensures now - maxAge <= r.ts <= now - minAge {
      assert u[r] > 0;
      TierRowFiner(t, ladder, interval, days, now, at, i, r);
      RowAge(t, ladder, interval, days, now, at, r, i + 1);
    }
    TierPartApart(t, ladder, interval, days, now, at, i);
    AgeBound(u, now, minAge, maxAge, ladder[i].size);
  }

  lemma TierRowFiner(t: Table, ladder: seq<Tier>, interval: pos, days: nat, now: nat, at: nat, i: nat, r: Row)
    requires Cycled(t, ladder, interval, days, now, at)
    requires i < |ladder| && ladder[i].size > interval && r in t && r.bucketSec == Some(ladder[i].size)
    ensures i + 1 < |ladder| ==> Finer(r, ladder[i + 1])
    ensures DueBucket(r.ts, ladder[i], now)
  {
    OwnBucket(t, ladder, interval, now, i, r);
  }

  lemma TierPartApart(t: Table, ladder: seq<Tier>, interval: pos, days: nat, now: nat, at: nat, i: nat)
    requires Cycled(t, ladder, interval, days, now, at)
    requires i < |ladder| && ladder[i].size > interval
    ensures Apart(OfWidth(t, ladder[i].size), ladder[i].size)
  {
    hide Placed, RawApart, Settled, Clean, InBucket;
    var size := ladder[i].size;
    var u := OfWidth(t, size);
    forall r | r in u ensures r in t && u[r] == t[r] && r.ts % size == 0 && t[r] == 1 {
      assert u[r] > 0;
      OwnBucket(t, ladder, interval, now, i, r);
      OneInBucket(t, ladder, interval, i, r, r);
    }
    forall r, r' | r in u && r' in u && r != r' ensures r.ts + size <= r'.ts || r'.ts + size <= r.ts {
      if r.ts < r'.ts + size && r'.ts < r.ts + size {
        MultiplesApart(r.ts, r'.ts, size);
        OwnBucket(t, ladder, interval, now, i, r');
        OneInBucket(t, ladder, interval, i, r, r');
        assert false;
      }
    }
  }

  lemma OneInBucket(t: Table, ladder: seq<Tier>, interval: pos, i: nat, x: Row, r: Row)
    requires Settled(t, ladder, interval) && i < |ladder| && ladder[i].size > interval
    requires x in t && x.bucketSec == Some(ladder[i].size) && r in t && InBucket(r, ladder[i], x.ts)
    ensures r == x && t[x] == 1
  {}

  /** The rows that are raw or of one of the first `k` tiers. */
  ghost function UpTo(t: Table, ladder: seq<Tier>, interval: pos, k: nat): (u: Table)
    requires k <= |ladder|
    ensures forall r {:trigger u[r]} :: u[r] == if WidthUpTo(r, ladder, interval, k) then t[r] else 0
  {
    Filter(t, (r: Row) => WidthUpTo(r, ladder, interval, k))
  }

  ghost predicate WidthUpTo(r: Row, ladder: seq<Tier>, interval: pos, k: nat)
    requires k <= |ladder|
  {
    r.bucketSec == Some(interval)
    || exists i :: 0 <= i < k && ladder[i].size > interval && r.bucketSec == Some(ladder[i].size)
  }

  lemma {:induction false} UpToBound(t: Table, ladder: seq<Tier>, interval: pos, days: nat, now: nat, at: nat, k: nat)
    requires WellFormed(ladder)
    requires Cycled(t, ladder, interval, days, now, at) && k <= |ladder|
    ensures |UpTo(t, ladder, interval, k)| <= |OfWidth(t, interval)| + TiersQuota(ladder, interval, days, k)
  {
    hide Cycled, TierQuota;
    if k == 0 {
      assert UpTo(t, ladder, interval, 0) == OfWidth(t, interval);
    } else {
      UpToBound(t, ladder, interval, days, now, at, k - 1);
      UpToNext(t, ladder, interval, k);
      if ladder[k - 1].size > interval {
        TierBound(t, ladder, interval, days, now, at, k - 1);
      }
    }
  }

  lemma UpToNext(t: Table, ladder: seq<Tier>, interval: pos, k: nat)
    requires WellFormed(ladder) && 0 < k <= |ladder|
    ensures UpTo(t, ladder, interval, k)
            == UpTo(t, ladder, interval, k - 1)
               + if ladder[k - 1].size > interval then OfWidth(t, ladder[k - 1].size) else multiset{}
  {
    forall r: Row
      ensures WidthUpTo(r, ladder, interval, k)
              <==> WidthUpTo(r, ladder, interval, k - 1)
                   || (ladder[k - 1].size > interval && r.bucketSec == Some(ladder[k - 1].size))
      ensures !(WidthUpTo(r, ladder, interval, k - 1)
                && ladder[k - 1].size > interval && r.bucketSec == Some(ladder[k - 1].size))
    {}
  }

  /** After a cycle the rows of the tiers are within their quotas, however many raw rows there are. */
  lemma CycleRows(t: Table, ladder: seq<Tier>, interval: pos, days: nat, now: nat, at: nat)
    requires Cycled(t, ladder, interval, days, now, at)
    ensures |t| <= |OfWidth(t, interval)| + TiersQuota(ladder, interval, days, |ladder|)
  {
    forall r | r in t ensures WidthUpTo(r, ladder, interval, |ladder|) {}
    assert t == UpTo(t, ladder, interval, |ladder|);
    UpToBound(t, ladder, interval, days, now, at, |ladder|);
  }

  /** The table after a cycle is no larger than the bound. */
  lemma CycleBound(t: Table, ladder: seq<Tier>, interval: pos, gap: pos, days: nat, now: nat, at: nat)
    requires WellFormed(ladder)
    requires Cycled(t, ladder, interval, days, now, at) && RawApart(t, interval, gap)
    ensures |t| <= MaxRows(ladder, interval, gap, days)
  {
    hide Cycled, RawApart, RawQuota, TiersQuota;
    CycleRows(t, ladder, interval, days, now, at);
    RawBound(t, ladder, interval, gap, days, now, at);
  }

  // --- Every run ---

  /** Samples are stamped at least `gap` seconds apart. */
  ghost predicate CollectsApart(events: seq<Event>, gap: pos) {
    forall i, j :: 0 <= i < j < |events| && events[i].Collect? && events[j].Collect?
                   ==> events[i].at + gap <= events[j].at
  }

  /** Every raw row was stamped by a collection of the run. */
  ghost predicate RawFrom(t: Table, events: seq<Event>, interval: pos) {
    forall r :: r in t && r.bucketSec == Some(interval)
                ==> exists i :: 0 <= i < |events| && events[i].Collect? && events[i].at == r.ts
  }

  /** `u` has no raw row that `t` does not have. */
  ghost predicate NoNewRaw(t: Table, u: Table, interval: pos) {
    forall r :: r in u && r.bucketSec == Some(interval) ==> r in t && u[r] <= t[r]
  }

  lemma StepNoNewRaw(t: Table, ladder: seq<Tier>, interval: pos, clock: nat, j: nat, now: nat)
    requires WellFormed(ladder) && j < |ladder| && Placed(t, ladder, interval, clock) && clock <= now
    ensures NoNewRaw(t, Step(t, ladder[j], now), interval)
  {
    hide Step, Folded;
    StepRows(t, ladder[j], now);
    var u := Step(t, ladder[j], now);
    forall r | r in u && r.bucketSec == Some(interval) ensures r in t && u[r] <= t[r] {
      assert u[r] > 0;
      if r in Folded(t, ladder[j], now) {
        FoldedInTier(t, ladder, interval, clock, j, now, r);
        assert false;
      }
    }
  }

  lemma {:induction false} TiersNoNewRaw(t: Table, ladder: seq<Tier>, interval: pos, clock: nat, k: nat, now: nat)
    requires WellFormed(ladder) && k <= |ladder| && clock <= now
    requires Placed(t, ladder, interval, clock) && Settled(t, ladder, interval)
    ensures NoNewRaw(t, Tiers(t, ladder, k, now), interval)
  {
    hide Step, Placed, Settled;
    if k > 0 {
      TiersNoNewRaw(t, ladder, interval, clock, k - 1, now);
      TiersSettle(t, ladder, interval, clock, k - 1, now);
      StepNoNewRaw(Tiers(t, ladder, k - 1, now), ladder, interval, now, k - 1, now);
    }
  }

  lemma RawApartPart(t: Table, u: Table, events: seq<Event>, interval: pos, gap: pos)
    requires RawApart(t, interval, gap) && RawFrom(t, events, interval) && NoNewRaw(t, u, interval)
    ensures RawApart(u, interval, gap) && RawFrom(u, events, interval)
  {}

  lemma CollectApart(t: Table, before: seq<Event>, e: Event, interval: pos, gap: pos)
    requires e.Collect? && CollectsApart(before + [e], gap)
    requires RawApart(t, interval, gap) && RawFrom(t, before, interval)
    ensures RawApart(t + multiset{RawRow(e, interval)}, interval, gap)
    ensures RawFrom(t + multiset{RawRow(e, interval)}, before + [e], interval)
  {
    var row := RawRow(e, interval);
    var events := before + [e];
    var u := t + multiset{row};
    forall r | r in t && r.bucketSec == Some(interval)
      ensures r.ts + gap <= row.ts
      ensures exists i :: 0 <= i < |events| && events[i].Collect? && events[i].at == r.ts
    {
      var i :| 0 <= i < |before| && before[i].Collect? && before[i].at == r.ts;
      assert events[i] == before[i] && events[|before|] == e;
    }
    assert row !in t;
    assert events[|before|] == e;
    forall r ensures r in u <==> r in t || r == row {}
    RawFromIntro(u, events, interval);
  }

  lemma RawFromIntro(u: Table, events: seq<Event>, interval: pos)
    requires forall r :: r in u && r.bucketSec == Some(interval)
                         ==> exists i :: 0 <= i < |events| && events[i].Collect? && events[i].at == r.ts
    ensures RawFrom(u, events, interval)
  {}

  lemma LongerRun(t: Table, before: seq<Event>, e: Event, interval: pos)
    requires RawFrom(t, before, interval)
    ensures RawFrom(t, before + [e], interval)
  {
    var events := before + [e];
    forall r | r in t && r.bucketSec == Some(interval)
      ensures exists i :: 0 <= i < |events| && events[i].Collect? && events[i].at == r.ts
    {
      var i :| 0 <= i < |before| && before[i].Collect? && before[i].at == r.ts;
      assert events[i] == before[i];
    }
  }

  lemma PruneNoNewRaw(t: Table, cutoff: int, interval: pos)
    ensures NoNewRaw(t, Retained(t, cutoff), interval)
  {
    var u := Retained(t, cutoff);
    forall r | r in u ensures r in t && u[r] <= t[r] { assert u[r] > 0; }
  }

  lemma {:induction false} RunRawApart(events: seq<Event>, ladder: seq<Tier>, interval: pos, gap: pos)
    requires WellFormed(ladder) && ClockRises(events) && CollectsApart(events, gap)
    ensures RawApart(After(events, ladder, interval).table, interval, gap)
    ensures RawFrom(After(events, ladder, interval).table, events, interval)
  {
    hide Placed, Settled, Apply, RawApart, RawFrom, ClockRises, CollectsApart, WellFormed;
    if events == [] {
      FreshRawApart(interval, gap);
    } else {
      var before, e := events[..|events| - 1], events[|events| - 1];
      assert before + [e] == events;
      FrontRun(before, e, gap);
      RunRawApart(before, ladder, interval, gap);
      RunSettles(before, ladder, interval);
      ApplyRawApart(After(before, ladder, interval), before, e, ladder, interval, gap);
    }
  }

  lemma FrontRun(before: seq<Event>, e: Event, gap: pos)
    requires ClockRises(before + [e]) && CollectsApart(before + [e], gap)
    ensures ClockRises(before) && CollectsApart(before, gap)
    ensures before != [] ==> before[|before| - 1].at <= e.at
  {
    var events := before + [e];
    forall i | 0 <= i < |before| ensures events[i] == before[i] {}
    assert events[|before|] == e;
  }

  lemma ApplyRawApart(s: Store, before: seq<Event>, e: Event, ladder: seq<Tier>, interval: pos, gap: pos)
    requires WellFormed(ladder) && s.clock <= e.at && CollectsApart(before + [e], gap)
    requires Placed(s.table, ladder, interval, s.clock) && Settled(s.table, ladder, interval)
    requires RawApart(s.table, interval, gap) && RawFrom(s.table, before, interval)
    ensures RawApart(Apply(s, e, ladder, interval).table, interval, gap)
    ensures RawFrom(Apply(s, e, ladder, interval).table, before + [e], interval)
  {
    hide Placed, Settled, Pass, RawApart, RawFrom, NoNewRaw, CollectsApart, WellFormed;
    if e.Collect? {
      CollectApart(s.table, before, e, interval, gap);
    } else {
      var u := Apply(s, e, ladder, interval).table;
      if e.Consolidate? {
        PassNoNewRaw(s.table, ladder, interval, s.clock, e.at);
      } else {
        PruneNoNewRaw(s.table, Cutoff(e.at, e.days), interval);
      }
      RawApartPart(s.table, u, before, interval, gap);
      LongerRun(u, before, e, interval);
    }
  }

  lemma FreshRawApart(interval: pos, gap: pos)
    ensures RawApart(FRESH.table, interval, gap) && RawFrom(FRESH.table, [], interval)
  {}

  lemma PassNoNewRaw(t: Table, ladder: seq<Tier>, interval: pos, clock: nat, now: nat)
    requires WellFormed(ladder) && clock <= now
    requires Placed(t, ladder, interval, clock) && Settled(t, ladder, interval)
    ensures NoNewRaw(t, Pass(t, ladder, now), interval)
  {
    TiersNoNewRaw(t, ladder, interval, clock, |ladder|, now);
  }

  /** However long the run, once a cycle has consolidated and pruned, the table holds at most
      MaxRows rows: a number that depends on the interval, the gap between samples and the retention
      alone. */
  lemma RunBound(run: seq<Event>, ladder: seq<Tier>, interval: pos, gap: pos, now: nat, at: nat, days: nat)
    requires WellFormed(ladder)
    requires ClockRises(run + [Consolidate(now), Prune(at, days)])
    requires CollectsApart(run, gap)
    ensures |After(run + [Consolidate(now), Prune(at, days)], ladder, interval).table| <= MaxRows(ladder, interval, gap, days)
  {
    hide Placed, Settled, RawApart, RawFrom, Cycled, MaxRows, WellFormed, Pass, After, ClockRises, CollectsApart, NoNewRaw;
    var folded := run + [Consolidate(now)];
    AfterTwo(run, ladder, interval, now, at, days);
    FoldedApart(run, now, gap);
    RunRawApart(folded, ladder, interval, gap);
    var t := After(folded, ladder, interval).table;
    CycleIsCycled(run, ladder, interval, now, at, days);
    PruneNoNewRaw(t, Cutoff(at, days), interval);
    RawApartPart(t, Retained(t, Cutoff(at, days)), folded, interval, gap);
    CycleBound(Retained(t, Cutoff(at, days)), ladder, interval, gap, days, now, at);
  }

  lemma FoldedApart(run: seq<Event>, now: nat, gap: pos)
    requires CollectsApart(run, gap)
    ensures CollectsApart(run + [Consolidate(now)], gap)
  {}

  /** What holds after the last cycle of a run, whenever its samples came. */
  lemma CycleIsCycled(run: seq<Event>, ladder: seq<Tier>, interval: pos, now: nat, at: nat, days: nat)
    requires WellFormed(ladder) && ClockRises(run + [Consolidate(now), Prune(at, days)])
    ensures Cycled(After(run + [Consolidate(now), Prune(at, days)], ladder, interval).table, ladder, interval, days, now, at)
  {
    hide Placed, Settled, Cycled, WellFormed, Pass, After, ClockRises;
    var folded := run + [Consolidate(now)];
    AfterTwo(run, ladder, interval, now, at, days);
    RunSettles(folded, ladder, interval);
    AfterCycle(After(folded, ladder, interval).table, After(run, ladder, interval).table, ladder, interval, now, at, days);
  }

  /** The last two events of the run. */
  lemma AfterTwo(run: seq<Event>, ladder: seq<Tier>, interval: pos, now: nat, at: nat, days: nat)
    requires ClockRises(run + [Consolidate(now), Prune(at, days)])
    ensures now <= at
    ensures var folded := run + [Consolidate(now)];
            && ClockRises(folded)
            && After(folded, ladder, interval).clock == now
            && After(folded, ladder, interval).table == Pass(After(run, ladder, interval).table, ladder, now)
            && After(run + [Consolidate(now), Prune(at, days)], ladder, interval).table
               == Retained(After(folded, ladder, interval).table, Cutoff(at, days))
  {
    hide Pass;
    var all := run + [Consolidate(now), Prune(at, days)];
    var folded := run + [Consolidate(now)];
    assert all[..|all| - 1] == folded && folded[..|folded| - 1] == run;
    assert all[|all| - 1] == Prune(at, days) && all[|all| - 2] == Consolidate(now);
    forall i, j | 0 <= i < j < |folded| ensures folded[i].at <= folded[j].at {
      assert folded[i] == all[i] && folded[j] == all[j];
    }
  }

  lemma AfterCycle(t: Table, before: Table, ladder: seq<Tier>, interval: pos, now: nat, at: nat, days: nat)
    requires WellFormed(ladder) && now <= at
    requires t == Pass(before, ladder, now)
    requires Placed(t, ladder, interval, now) && Settled(t, ladder, interval)
    ensures Cycled(Retained(t, Cutoff(at, days)), ladder, interval, days, now, at)
  {
    hide Placed, Settled;
    var u := Retained(t, Cutoff(at, days));
    PruneSettles(t, ladder, interval, now, now, Cutoff(at, days));
    TiersClean(before, ladder, |ladder|, now);
    forall r | r in u ensures r in t && r.ts >= Cutoff(at, days) { assert u[r] > 0; }
  }

  // --- Runs whose samples come in any number ---

  /** The raw rows of `t` are among those of `raw`. */
  ghost predicate RawWithin(t: Table, raw: Table, interval: pos) {
    forall r :: r in t && r.bucketSec == Some(interval) ==> t[r] <= raw[r]
  }

  lemma {:induction false} RunRawWithin(events: seq<Event>, ladder: seq<Tier>, interval: pos)
    requires WellFormed(ladder) && ClockRises(events)
    ensures RawWithin(After(events, ladder, interval).table, RawRows(events, interval), interval)
  {
    hide Placed, Settled, Pass, RawWithin, WellFormed;
    if events == [] {
      NoneWithin(interval);
    } else {
      var before, e := events[..|events| - 1], events[|events| - 1];
      RunRawWithin(before, ladder, interval);
      RunSettles(before, ladder, interval);
      var s := After(before, ladder, interval);
      match e
      case Collect(_, _, _) => AddedWithin(s.table, RawRows(before, interval), RawRow(e, interval), interval);
      case Consolidate(at) =>
        PassNoNewRaw(s.table, ladder, interval, s.clock, at);
        PartWithin(s.table, Pass(s.table, ladder, at), RawRows(before, interval), interval);
      case Prune(at, days) =>
        PruneNoNewRaw(s.table, Cutoff(at, days), interval);
        PartWithin(s.table, Retained(s.table, Cutoff(at, days)), RawRows(before, interval), interval);
    }
  }

  lemma NoneWithin(interval: pos)
    ensures RawWithin(FRESH.table, RawRows([], interval), interval)
  {}

  lemma AddedWithin(t: Table, raw: Table, row: Row, interval: pos)
    requires RawWithin(t, raw, interval)
    ensures RawWithin(t + multiset{row}, raw + multiset{row}, interval)
  {
    forall r | r in t + multiset{row} && r.bucketSec == Some(interval)
      ensures (t + multiset{row})[r] <= (raw + multiset{row})[r]
    {
      if r in t { assert t[r] <= raw[r]; }
    }
  }

  lemma PartWithin(t: Table, u: Table, raw: Table, interval: pos)
    requires RawWithin(t, raw, interval) && NoNewRaw(t, u, interval)
    ensures RawWithin(u, raw + multiset{}, interval)
  {}

  lemma SubsetSize(a: Table, b: Table)
    requires a <= b
    ensures |a| <= |b|
  {
    assert b == a + (b - a);
  }

  /** After a cycle of any run, samples stamped in the same second included: the table holds at most the
      raw rows collected since the first tier's reach, and the quotas of the tiers. */
  lemma RunRows(run: seq<Event>, ladder: seq<Tier>, interval: pos, now: nat, at: nat, days: nat)
    requires WellFormed(ladder) && ClockRises(run + [Consolidate(now), Prune(at, days)])
    ensures |After(run + [Consolidate(now), Prune(at, days)], ladder, interval).table|
            <= |Retained(RawRows(run, interval), now - MaxAge(ladder, FirstTier(ladder, interval), days))|
               + TiersQuota(ladder, interval, days, |ladder|)
  {
    hide Placed, Settled, Cycled, WellFormed, Pass, After, ClockRises, RawWithin, RawRows, TiersQuota, MaxAge;
    var all := run + [Consolidate(now), Prune(at, days)];
    var t := After(all, ladder, interval).table;
    CycleIsCycled(run, ladder, interval, now, at, days);
    CycleRows(t, ladder, interval, days, now, at);
    RunRawWithin(all, ladder, interval);
    RawRowsThere(run, interval, now, at, days);
    RecentRaw(t, ladder, interval, days, now, at, RawRows(run, interval));
  }

  lemma RawRowsThere(run: seq<Event>, interval: pos, now: nat, at: nat, days: nat)
    ensures RawRows(run + [Consolidate(now), Prune(at, days)], interval) == RawRows(run, interval)
  {
    var all := run + [Consolidate(now), Prune(at, days)];
    var folded := run + [Consolidate(now)];
    assert all[..|all| - 1] == folded && folded[..|folded| - 1] == run;
    assert RawRows(folded, interval) == RawRows(run, interval);
  }

  lemma RecentRaw(t: Table, ladder: seq<Tier>, interval: pos, days: nat, now: nat, at: nat, raw: Table)
    requires WellFormed(ladder) && Cycled(t, ladder, interval, days, now, at) && RawWithin(t, raw, interval)
    ensures |OfWidth(t, interval)| <= |Retained(raw, now - MaxAge(ladder, FirstTier(ladder, interval), days))|
  {
    hide Cycled, WellFormed, MaxAge;
    var k := FirstTier(ladder, interval);
    var u, recent := OfWidth(t, interval), Retained(raw, now - MaxAge(ladder, k, days));
    forall r ensures u[r] <= recent[r] {
      if u[r] > 0 { RowAge(t, ladder, interval, days, now, at, r, k); }
    }
    SubsetSize(u, recent);
  }

  /** The default configuration: a sample a minute kept for 90 days. */
  lemma DefaultBound()
    ensures WellFormed(LADDER) && MaxRows(LADDER, 60, 60, 90) == 23776
  {
    hide RawQuota, TierQuota;
    LadderIsWellFormed();
    QuotasAdd(60, 60, 90);
    assert RawQuota(LADDER, 60, 60, 90) == 7205 by { FirstTierIs(60, 2); RawQuotaIs(60, 60, 90, 2); }
    TierQuotasAre(90);
  }

  /** The largest configuration: a sample a second kept for ten years. */
  lemma LargestBound()
    ensures WellFormed(LADDER) && MaxRows(LADDER, 1, 1, 3653) == 63707
  {
    hide RawQuota, TierQuota;
    LadderIsWellFormed();
    QuotasAdd(1, 1, 3653);
    assert RawQuota(LADDER, 1, 1, 3653) == 7205 by { FirstTierIs(1, 0); RawQuotaIs(1, 1, 3653, 0); }
    TierQuotasAre(3653);
  }

  lemma FirstTierIs(interval: pos, k: nat)
    requires WellFormed(LADDER)
    requires k < |LADDER| && interval < LADDER[k].size && (k > 0 ==> LADDER[k - 1].size <= interval)
    ensures FirstTier(LADDER, interval) == k
  {}

  lemma RawQuotaIs(interval: pos, gap: pos, days: nat, k: nat)
    requires WellFormed(LADDER) && k == FirstTier(LADDER, interval)
    ensures RawQuota(LADDER, interval, gap, days) == Fits(0, MaxAge(LADDER, k, days), gap)
  {}

  lemma TierQuotasAre(days: nat)
    ensures days == 90 ==> TierQuota(LADDER, 2, days) == 15851
                           && TierQuota(LADDER, 3, days) == 720 && TierQuota(LADDER, 4, days) == 0
    ensures days == 3653 ==> TierQuota(LADDER, 0, days) == 7205 && TierQuota(LADDER, 1, days) == 12969
                             && TierQuota(LADDER, 2, days) == 15851
                             && TierQuota(LADDER, 3, days) == 7325 && TierQuota(LADDER, 4, days) == 13152
  {}

  lemma QuotasAdd(interval: pos, gap: pos, days: nat)
    requires WellFormed(LADDER)
    ensures MaxRows(LADDER, interval, gap, days)
            == RawQuota(LADDER, interval, gap, days)
               + (if interval < 5 then TierQuota(LADDER, 0, days) else 0)
               + (if interval < 30 then TierQuota(LADDER, 1, days) else 0)
               + (if interval < 300 then TierQuota(LADDER, 2, days) else 0)
               + (if interval < 3600 then TierQuota(LADDER, 3, days) else 0)
               + (if interval < 21600 then TierQuota(LADDER, 4, days) else 0)
  {
    hide RawQuota, TierQuota;
    assert TiersQuota(LADDER, interval, days, 2) == TiersQuota(LADDER, interval, days, 1)
                                               + if LADDER[1].size > interval then TierQuota(LADDER, 1, days) else 0;
    assert TiersQuota(LADDER, interval, days, 4) == TiersQuota(LADDER, interval, days, 3)
                                               + if LADDER[3].size > interval then TierQuota(LADDER, 3, days) else 0;
  }
}
