/** Which requests are answered exactly: when every bucket of an answer shows the samples taken in it. */
module Requests {
  import opened Rows
  import opened Ladder
  import opened Consolidation
  import opened Conservation
  import opened Runs
  import opened Buckets
  import opened RangeQuery
  import opened Answers
  import opened Downsample
  import opened Histories
  import RowBound
  import MetricsDb
  import Columns

  // --- For any ladder and any query bucket ---

  /** Every tier the daemon fills is clear: a test on the request alone. */
  ghost predicate AllClear(ladder: seq<Tier>, interval: pos, range: int, q: pos) {
    forall j :: 0 <= j < |ladder| && ladder[j].size > interval ==> Clear(q, ladder[j], range)
  }

  /** Inside the window the answer shows each collected sample in its bucket, and nothing else. */
  ghost predicate ShowsExactly(points: seq<Point>, s: Store, cutoff: int, q: pos) {
    && (forall i :: 0 <= i < |points| && points[i].time >= cutoff ==> points[i].samples == Taken(s, q, points[i].time))
    && (forall x :: x in s.collected && Start(x.at, q) >= cutoff ==> HasTime(points, Start(x.at, q)))
  }

  /** If that is the answer over the last `range` seconds after that run, which pruned nothing the window
      sees, it is exact. */
  ghost predicate Exact(events: seq<Event>, ladder: seq<Tier>, interval: pos, now: nat, range: int, q: pos, points: seq<Point>) {
    && RunUntil(events, ladder, interval, now) && PrunesUpTo(events, now - range)
    && IsBucketed(points, After(events, ladder, interval).table, now - range, q)
    ==> ShowsExactly(points, After(events, ladder, interval), now - range, q)
  }

  /** What pruning removed lies in no bucket the window sees, so long as it reached no further. */
  lemma {:induction false} PrunedUnseen(events: seq<Event>, ladder: seq<Tier>, interval: pos, now: nat, range: int, q: pos, c: int)
    requires WellFormed(ladder) && ClockRises(events) && PrunesUpTo(events, c)
    requires forall i :: 0 <= i < |events| ==> events[i].at <= now
    requires AllClear(ladder, interval, range, q)
    ensures forall s :: s in After(events, ladder, interval).pruned && Start(s.at, q) >= now - range ==> Start(s.at, q) < c
  {
    hide Placed, Settled, WellFormed, Pass, AllClear;
    if events != [] {
      var before, e := events[..|events| - 1], events[|events| - 1];
      PrunedUnseen(before, ladder, interval, now, range, q, c);
      RunSettles(before, ladder, interval);
      var s := After(before, ladder, interval);
      if e.Prune? {
        OutdatedUnseen(s.table, ladder, interval, s.clock, now, range, q, Cutoff(e.at, e.days));
      }
    }
  }

  lemma OutdatedUnseen(t: Table, ladder: seq<Tier>, interval: pos, clock: nat, now: nat, range: int, q: pos, cutoff: int)
    requires Placed(t, ladder, interval, clock) && clock <= now && AllClear(ladder, interval, range, q)
    ensures forall s :: s in SamplesOf(Outdated(t, cutoff)) && Start(s.at, q) >= now - range ==> Start(s.at, q) < cutoff
  {
    hide Placed, Clear;
    var u := Outdated(t, cutoff);
    forall s | s in SamplesOf(u) && Start(s.at, q) >= now - range ensures Start(s.at, q) < cutoff {
      var r :| r in u && s in r.samples;
      assert u[r] > 0;
      StampedWithSamples(t, ladder, interval, clock, now, range, q, Start(s.at, q), r, s);
    }
  }

  lemma ClearIsExact(events: seq<Event>, ladder: seq<Tier>, interval: pos, now: nat, range: int, q: pos, points: seq<Point>)
    requires WellFormed(ladder) && AllClear(ladder, interval, range, q)
    ensures Exact(events, ladder, interval, now, range, q, points)
  {
    hide After, WellFormed, PrunesUpTo, IsBucketed, SamplesAreNew, Clear;
    if RunUntil(events, ladder, interval, now) && PrunesUpTo(events, now - range)
       && IsBucketed(points, After(events, ladder, interval).table, now - range, q)
    {
      RunAnswer(points, events, ladder, interval, now, range, q);
      PrunedUnseen(events, ladder, interval, now, range, q, now - range);
      var s := After(events, ladder, interval);
      forall k: nat | k >= now - range ensures Taken(s, q, k) - s.pruned == Taken(s, q, k) {}
    }
  }

  // --- The other direction ---

  /** Any table has an answer. */
  lemma {:induction false} AnswerUpTo(t: Table, cutoff: int, q: pos, bound: nat) returns (points: seq<Point>)
    ensures forall i, j :: 0 <= i < j < |points| ==> points[i].time < points[j].time
    ensures forall i :: 0 <= i < |points| ==>
              var g := QueryGroup(t, cutoff, q, points[i].time);
              points[i].time < bound && g != multiset{} && points[i] == Point(points[i].time, Averages(g), SamplesOf(g))
    ensures forall k: nat :: k < bound && QueryGroup(t, cutoff, q, k) != multiset{} ==> HasTime(points, k)
  {
    hide Averages, QueryGroup;
    points := [];
    if bound > 0 {
      points := AnswerUpTo(t, cutoff, q, bound - 1);
      var g := QueryGroup(t, cutoff, q, bound - 1);
      if g != multiset{} {
        var front := points;
        points := front + [Point(bound - 1, Averages(g), SamplesOf(g))];
        assert points[|front|].time == bound - 1;
        forall k: nat | HasTime(front, k) ensures HasTime(points, k) {
          var i :| 0 <= i < |front| && front[i].time == k;
          assert points[i].time == k;
        }
      }
    }
  }

  lemma AnswerExists(t: Table, now: nat, range: int, q: pos) returns (points: seq<Point>)
    requires forall r :: r in t ==> r.ts <= now
    ensures IsBucketed(points, t, now - range, q)
  {
    hide Averages;
    var cutoff := now - range;
    points := AnswerUpTo(t, cutoff, q, now + 1);
    forall k: nat | QueryGroup(t, cutoff, q, k) != multiset{} ensures k < now + 1 {
      var r := Pick(QueryGroup(t, cutoff, q, k));
      assert QueryGroup(t, cutoff, q, k)[r] > 0;
    }
  }

  /** A history whose first sample opens a query bucket in the window and lies in a bucket of tier `j` that
      starts before it: once that bucket, and none wider, is due, no answer shows the sample where it was
      taken. */
  lemma FirstSampleMissed(ladder: seq<Tier>, interval: pos, range: int, q: pos, j: nat, times: seq<nat>, days: nat, points: seq<Point>)
    requires WellFormed(ladder) && j < |ladder| && ladder[j].size > interval && Rising(times) && times != []
    requires times[0] % q == 0 && Start(times[0], ladder[j].size) < times[0] && times[|times| - 1] - range <= times[0]
    requires DueAt(ladder[j], times[0]) <= times[|times| - 1]
    requires forall i :: j < i < |ladder| ==> times[|times| - 1] < DueAt(ladder[i], times[0])
    requires IsBucketed(points, After(CyclesAt(times, days), ladder, interval).table, times[|times| - 1] - range, q)
    ensures !ShowsExactly(points, After(CyclesAt(times, days), ladder, interval), times[|times| - 1] - range, q)
  {
    hide CyclesAt, After, WellFormed, Placed, Clean, QueryGroup, IsBucketed, ShowsExactly;
    var now, s, first := times[|times| - 1], After(CyclesAt(times, days), ladder, interval), SampleAt(times, 0);
    CyclesLeave(times, days, ladder, interval);
    CyclesCollect(times, days, ladder, interval);
    assert IsSample(times, first);
    StartUnique(times[0], q, times[0]);
    var g := QueryGroup(s.table, now - range, q, times[0]);
    forall r | r in g ensures first !in r.samples {
      assert g[r] > 0;
      if first in r.samples { RowOfTier(s.table, ladder, interval, now, j, r, first); }
    }
    NotShown(points, s, now - range, q, times[0], first);
  }

  /** A sample in no row of its query bucket is not shown. */
  lemma NotShown(points: seq<Point>, s: Store, cutoff: int, q: pos, k: nat, x: Sample)
    requires IsBucketed(points, s.table, cutoff, q) && cutoff <= k == Start(x.at, q) && x in s.collected
    requires forall r :: r in QueryGroup(s.table, cutoff, q, k) ==> x !in r.samples
    ensures !ShowsExactly(points, s, cutoff, q)
  {
    hide Averages, QueryGroup;
    if HasTime(points, k) {
      var i :| 0 <= i < |points| && points[i].time == k;
      assert x in Taken(s, q, k) && x !in points[i].samples;
    }
  }

  /** The prunings of a history reach no further than a cutoff when enough days are kept. */
  lemma HistoryPrunes(times: seq<nat>, days: nat, c: int)
    requires forall i :: 0 <= i < |times| ==> times[i] - days * 86400 <= c
    ensures PrunesUpTo(CyclesAt(times, days), c)
  {
    hide CyclesAt;
    CyclesPrune(times, days, c);
  }

  /** A tier that is not clear: a history of two cycles whose answer misses the first sample. */
  lemma NotClearMisses(ladder: seq<Tier>, interval: pos, range: int, q: pos, j: nat)
    requires WellFormed(ladder) && j < |ladder| && ladder[j].size > interval && !Clear(q, ladder[j], range)
    ensures exists events, now, points :: IsHistory(events) && !Exact(events, ladder, interval, now, range, q, points)
  {
    hide Clear, After, WellFormed, CyclesAt, IsHistory, RunUntil, PrunesUpTo, IsBucketed, ShowsExactly;
    var k := NotClear(q, ladder[j], range);
    var now := DueAt(ladder[j], k);
    var times, days := [k, now], now + if range > 0 then range else 0;
    CoarserLater(ladder, j, k);
    HistoryIs(times, days, ladder, interval);
    HistoryPrunes(times, days, now - range);
    CyclesAreHistory(times, days);
    var events := CyclesAt(times, days);
    var points := AnswerExists(After(events, ladder, interval).table, now, range, q);
    FirstSampleMissed(ladder, interval, range, q, j, times, days, points);
    assert !Exact(events, ladder, interval, now, range, q, points);
  }

  lemma HistoryIs(times: seq<nat>, days: nat, ladder: seq<Tier>, interval: pos)
    requires WellFormed(ladder) && Rising(times) && times != []
    ensures RunUntil(CyclesAt(times, days), ladder, interval, times[|times| - 1])
    ensures forall r :: r in After(CyclesAt(times, days), ladder, interval).table ==> r.ts <= times[|times| - 1]
  {
    hide CyclesAt, After, WellFormed, RunUntil, Accounted, Placed;
    CyclesLeave(times, days, ladder, interval);
    RowsByNow(After(CyclesAt(times, days), ladder, interval).table, ladder, interval, times[|times| - 1], times[|times| - 1]);
  }

  lemma RowsByNow(t: Table, ladder: seq<Tier>, interval: pos, clock: nat, now: nat)
    requires Placed(t, ladder, interval, clock) && clock <= now
    ensures forall r :: r in t ==> r.ts <= now
  {}

  /** For every query of a range and a bucket: over every run, at every instant, the answer is exact if and
      only if every tier wider than the interval divides the query bucket or begins too far back. Histories
      of whole cycles are enough to tell. */
  lemma AnswersExactIff(ladder: seq<Tier>, interval: pos, range: int, q: pos)
    requires WellFormed(ladder)
    ensures (forall events, now, points :: Exact(events, ladder, interval, now, range, q, points))
            <==> AllClear(ladder, interval, range, q)
    ensures (forall events, now, points :: IsHistory(events) ==> Exact(events, ladder, interval, now, range, q, points))
            <==> AllClear(ladder, interval, range, q)
  {
    hide Exact, Clear, WellFormed, IsHistory;
    if AllClear(ladder, interval, range, q) {
      forall events, now, points ensures Exact(events, ladder, interval, now, range, q, points) {
        ClearIsExact(events, ladder, interval, now, range, q, points);
      }
    } else {
      var j :| 0 <= j < |ladder| && ladder[j].size > interval && !Clear(q, ladder[j], range);
      NotClearMisses(ladder, interval, range, q, j);
    }
  }

  // --- For the bucket the server picks ---

  /** Some bucket is a multiple of the interval. */
  predicate Eligible(interval: pos) { exists c :: c in BUCKETS && c % interval == 0 }

  /** `q` is what `pick_bucket` returns when it does not serve raw rows. */
  ghost predicate Picked(q: pos, range: nat, interval: pos, points: int) {
    if Eligible(interval) then Nearest(q, range, interval, Target(points)) else q == interval
  }

  /** The buckets are the divisors of a day the server knows; an interval fits one of them exactly when it
      divides the day. */
  lemma EligibleIff(interval: pos)
    ensures Eligible(interval) <==> 86400 % interval == 0
  {
    var day: nat := 86400;
    assert BUCKETS[11] == day && day in BUCKETS;
    if Eligible(interval) {
      var c :| c in BUCKETS && c % interval == 0;
      var i :| 0 <= i < |BUCKETS| && BUCKETS[i] == c;
      MultipleOfMultiple(86400, interval, BUCKETS[i]);
    }
  }

  /** The nearest bucket is a multiple of the tier, once the tier can be in the window. */
  lemma NearestDivides(b: pos, range: nat, interval: pos, target: pos, j: nat)
    requires Nearest(b, range, interval, target) && target <= 1440
    requires j < |LADDER| && LADDER[j].threshold < range
    ensures b % LADDER[j].size == 0
  {
    var i :| 0 <= i < |BUCKETS| && BUCKETS[i] == b;
    BucketFacts(i);
    hide Nearest;
    TierFacts(j);
    if j == 2 && i < 2 { NotNearest(b, 120, 600, 720, range, interval, target); }
    if j == 3 && i < 6 { NotNearest(b, 1800, 3600, 1440, range, interval, target); }
    if j == 4 && i < 9 { NotNearest(b, 10800, 21600, 1460, range, interval, target); }
  }

  lemma BucketFacts(i: nat)
    requires i < |BUCKETS|
    ensures 0 < BUCKETS[i] && BUCKETS[i] % 60 == 0 && BUCKETS[i] % 30 == 0 && BUCKETS[i] % 5 == 0
    ensures if i < 2 then 600 % BUCKETS[i] == 0 && BUCKETS[i] <= 120 else BUCKETS[i] % 300 == 0
    ensures if i < 6 then 3600 % BUCKETS[i] == 0 && BUCKETS[i] <= 1800 else BUCKETS[i] % 3600 == 0
    ensures if i < 9 then 21600 % BUCKETS[i] == 0 && BUCKETS[i] <= 10800 else BUCKETS[i] % 21600 == 0
    ensures 600 in BUCKETS && 3600 in BUCKETS && 21600 in BUCKETS
  {
    assert BUCKETS[3] == 600 && BUCKETS[6] == 3600 && BUCKETS[9] == 21600;
  }

  lemma TierFacts(j: nat)
    requires j < |LADDER|
    ensures LADDER[j].size == [5, 30, 300, 3600, 21600][j]
    ensures LADDER[j].threshold == [7200, 43200, 432000, 5184000, 31536000][j]
  {}

  /** A bucket of at most `most` is not the nearest when `c`, a multiple of it at least twice as wide, still
      fits the range `n` times and more: it lies further above the target than `c` lies from it. */
  lemma NotNearest(b: pos, most: pos, c: pos, n: nat, range: nat, interval: pos, target: pos)
    requires c in BUCKETS && c % b == 0 && b <= most && b % interval == 0 && target <= 1440 && 0 < n
    requires n * c <= range && 2 * most <= c
    requires n >= 1440 || (n >= 720 && 5 * most <= c)
    ensures !Nearest(b, range, interval, target)
  {
    MultipleOfMultiple(c, interval, b);
    GoesAtLeast(range, c, n);
    var r := range / c;
    Quotient(range, c);
    Twice(r, b, c, 2);
    GoesAtLeast(range, b, 2 * r);
    if 5 * most <= c {
      Twice(r, b, c, 5);
      GoesAtLeast(range, b, 5 * r);
    }
  }

  lemma Twice(r: nat, b: pos, c: pos, k: nat)
    requires k * b <= c
    ensures k * r * b <= r * c
  {
    assert k * r * b == r * (k * b);
    MulBothLeft(r, c, k * b);
  }

  lemma GoesAtLeast(range: nat, b: pos, m: nat)
    requires m * b <= range
    ensures range / b >= m
  {
    Quotient(range, b);
    if range / b < m { MulBoth(m, range / b + 1, b); }
  }

  lemma NearestIsClear(b: pos, range: nat, interval: pos, target: pos)
    requires Nearest(b, range, interval, target) && target <= 1440
    ensures AllClear(LADDER, interval, range, b)
  {
    forall j | 0 <= j < |LADDER| && LADDER[j].size > interval ensures Clear(b, LADDER[j], range) {
      if LADDER[j].threshold < range { NearestDivides(b, range, interval, target, j); }
    }
  }

  /** How far back a query with the interval as its bucket is exact: to where the first tier wider than the
      interval begins, and the least a bucket of it can be split by. */
  ghost predicate ShortOfTiers(interval: pos, range: int) {
    var k := (LadderIsWellFormed(); RowBound.FirstTier(LADDER, interval));
    k < |LADDER| ==> range < LADDER[k].threshold + Gcd(interval, LADDER[k].size)
  }

  lemma IntervalClearIff(interval: pos, range: int)
    ensures AllClear(LADDER, interval, range, interval) <==> ShortOfTiers(interval, range)
  {
    LadderIsWellFormed();
    var k := RowBound.FirstTier(LADDER, interval);
    forall j | k <= j < |LADDER| ensures interval % LADDER[j].size != 0 { SmallMod(interval, LADDER[j].size); }
    if k < |LADDER| {
      GcdBelow(interval, LADDER[k].size);
      forall j | k < j < |LADDER| ensures LADDER[k].threshold + LADDER[k].size <= LADDER[j].threshold {}
    }
  }

  lemma SmallMod(a: pos, size: pos)
    requires a < size
    ensures a % size != 0
  {}

  /** What the server does with a request after that run: raw rows, or an exact answer from the bucket. */
  ghost predicate ServedExact(events: seq<Event>, interval: pos, now: nat, range: nat, points: int, q: pos, answer: seq<Point>) {
    || ServesRaw(range, interval, points, |Retained(After(events, LADDER, interval).table, now - range)|)
    || Exact(events, LADDER, interval, now, range, q, answer)
  }

  /** Every answer to a request, over every history of whole cycles and at every instant, is of raw rows or
      exact if and only if the interval divides a day, or the range ends before the first tier that is
      wider than the interval. 1440 is the most points a request gets. */
  lemma RequestsExactIff(q: pos, range: nat, interval: pos, points: int)
    requires Picked(q, range, interval, points) && points <= 1440
    ensures (forall events, now: nat, answer :: IsHistory(events) ==> ServedExact(events, interval, now, range, points, q, answer))
            <==> 86400 % interval == 0 || ShortOfTiers(interval, range)
  {
    hide Exact, AllClear, ShortOfTiers, Nearest, IsHistory, After, ServesRaw;
    LadderIsWellFormed();
    EligibleIff(interval);
    if 86400 % interval == 0 || ShortOfTiers(interval, range) {
      PickedIsExact(q, range, interval, points);
    } else {
      RequestMissed(range, interval, points);
    }
  }

  lemma PickedIsExact(q: pos, range: nat, interval: pos, points: int)
    requires Picked(q, range, interval, points) && points <= 1440
    requires 86400 % interval == 0 || ShortOfTiers(interval, range)
    ensures forall events, now, answer :: Exact(events, LADDER, interval, now, range, q, answer)
  {
    hide Exact, AllClear, ShortOfTiers, Nearest;
    LadderIsWellFormed();
    AnswersExactIff(LADDER, interval, range, q);
    EligibleIff(interval);
    if Eligible(interval) {
      NearestIsClear(q, range, interval, Target(points));
    } else {
      IntervalClearIff(interval, range);
    }
  }

  /** The tiers by number: where each begins is 1440 of its buckets back, and more. */
  lemma DesignPoint(j: nat)
    requires j < |LADDER|
    ensures 1440 * LADDER[j].size <= LADDER[j].threshold
    ensures forall i :: j <= i < |LADDER| ==> LADDER[j].threshold <= LADDER[i].threshold
  {
    TierFacts(j);
    forall i | j <= i < |LADDER| ensures LADDER[j].threshold <= LADDER[i].threshold { TierFacts(i); }
  }

  /** The instants of one old sample and, up to `last`, `n` more a second apart. */
  function OldAndYoung(early: nat, last: nat, n: nat): seq<nat>
    requires 0 < n <= last
  {
    [early] + seq(n, m requires 0 <= m < n => last + 1 + m - n)
  }

  /** Otherwise: an old sample and, when its bucket is due, more samples than the points asked for. The
      server picks the interval as the bucket, and the answer misses the old sample. */
  lemma RequestMissed(range: nat, interval: pos, points: int)
    requires points <= 1440 && !(86400 % interval == 0 || ShortOfTiers(interval, range))
    ensures exists events, now: nat, answer :: IsHistory(events) && !ServedExact(events, interval, now, range, points, interval, answer)
  {
    hide IsHistory, After, CyclesAt, RunUntil, PrunesUpTo, IsBucketed, ShowsExactly, Clear, OldAndYoung, Young, WellFormed,
         RowBound.Cycled, Accounted, ShortOfTiers;
    LadderIsWellFormed();
    var j := RowBound.FirstTier(LADDER, interval);
    NotShort(interval, range);
    DesignPoint(j);
    SmallMod(interval, LADDER[j].size);
    var k := NotClear(interval, LADDER[j], range);
    var now, n := DueAt(LADDER[j], k), Target(points) + 1;
    var times, days := OldAndYoung(k, now, n), now + range;
    CoarserLater(LADDER, j, k);
    OldAndYoungIs(k, now, n);
    forall i | 1 <= i < |times| ensures Young(LADDER, interval, now, times[i]) { YoungSince(interval, now, times[i]); }
    HistoryPrunes(times, days, now - range);
    CyclesAreHistory(times, days);
    var events := CyclesAt(times, days);
    HistoryIs(times, days, LADDER, interval);
    var answer := AnswerExists(After(events, LADDER, interval).table, now, range, interval);
    FirstSampleMissed(LADDER, interval, range, interval, j, times, days, answer);
    YoungRows(times, days, LADDER, interval, 1, now - range);
    WideRange(range, Target(points), LADDER[j].size, interval);
    assert !Exact(events, LADDER, interval, now, range, interval, answer);
    assert !ServedExact(events, interval, now, range, points, interval, answer);
  }

  lemma OldAndYoungIs(early: nat, last: nat, n: nat)
    requires 0 < n <= last && early + n <= last
    ensures var times := OldAndYoung(early, last, n);
            && |times| == n + 1 && times[0] == early && times[n] == last && Rising(times)
            && forall i :: 1 <= i <= n ==> last + 1 - n <= times[i] <= last
  {}

  /** As young as the first tier wider than the interval. */
  lemma YoungSince(interval: pos, last: nat, at: nat)
    requires WellFormed(LADDER)
    requires var j := RowBound.FirstTier(LADDER, interval); j < |LADDER| && last <= at + LADDER[j].threshold
    ensures Young(LADDER, interval, last, at)
  {
    DesignPoint(RowBound.FirstTier(LADDER, interval));
  }

  lemma NotShort(interval: pos, range: int)
    requires !ShortOfTiers(interval, range)
    ensures WellFormed(LADDER)
    ensures var k := RowBound.FirstTier(LADDER, interval);
            k < |LADDER| && (interval % LADDER[k].size != 0 ==> !Clear(interval, LADDER[k], range))
            && LADDER[k].threshold < range
  {
    LadderIsWellFormed();
  }

  /** A range longer than 1440 buckets has an ideal bucket at least as wide. */
  lemma WideRange(range: nat, target: pos, size: pos, interval: pos)
    requires target <= 1440 && 1440 * size <= range && interval < size
    ensures range / target > interval
  {
    MulBoth(1440, target, size);
    GoesAtLeast(range, target, size);
  }

  /** What the query can answer after that run. */
  ghost predicate IsAnswer(answer: seq<Point>, events: seq<Event>, interval: pos, now: nat, range: nat, q: pos) {
    IsBucketed(answer, After(events, LADDER, interval).table, now - range, q)
  }

  /** A sample every seven seconds for twelve hours, the last day asked for in 240 points. The window holds
      thousands of rows, so the bucket is seven seconds wide; and no answer shows the first sample. */
  lemma SevenSecondsMiss()
    ensures var times := seq(6173, m requires 0 <= m < 6173 => 119 + 7 * m);
            var events, now := CyclesAt(times, 90), 43323;
            && IsHistory(events) && RunUntil(events, LADDER, 7, now) && PrunesUpTo(events, now - 86400)
            && Picked(7, 86400, 7, 240)
            && !ServesRaw(86400, 7, 240, |Retained(After(events, LADDER, 7).table, now - 86400)|)
            && (exists answer :: IsAnswer(answer, events, 7, now, 86400, 7))
            && (forall answer :: IsAnswer(answer, events, 7, now, 86400, 7)
                                 ==> !ShowsExactly(answer, After(events, LADDER, 7), now - 86400, 7))
  {
    hide IsHistory, After, CyclesAt, RunUntil, PrunesUpTo, IsBucketed, ShowsExactly, Young;
    var times := seq(6173, m requires 0 <= m < 6173 => 119 + 7 * m);
    EligibleIff(7);
    LadderIsWellFormed();
    assert times[0] == 119 && times[6172] == 43323 && LADDER[1] == Tier(30, 43200);
    StartUnique(119, 30, 90);
    assert DueAt(LADDER[1], 119) == 43320;
    SevenSecondTiers();
    HistoryIs(times, 90, LADDER, 7);
    HistoryPrunes(times, 90, 43323 - 86400);
    CyclesAreHistory(times, 90);
    var events := CyclesAt(times, 90);
    var some := AnswerExists(After(events, LADDER, 7).table, 43323, 86400, 7);
    assert IsAnswer(some, events, 7, 43323, 86400, 7);
    forall answer | IsAnswer(answer, events, 7, 43323, 86400, 7)
      ensures !ShowsExactly(answer, After(events, LADDER, 7), 43323 - 86400, 7)
    {
      FirstSampleMissed(LADDER, 7, 86400, 7, 1, times, 90, answer);
    }
    forall i | 1 <= i < 6173 ensures Young(LADDER, 7, 43323, times[i]) { SevenSecondsYoung(times[i]); }
    YoungRows(times, 90, LADDER, 7, 1, 43323 - 86400);
  }

  lemma SevenSecondsYoung(at: nat)
    requires 123 <= at
    ensures Young(LADDER, 7, 43323, at)
  {
    SevenSecondTiers();
  }

  lemma SevenSecondTiers()
    ensures forall i :: 1 < i < |LADDER| ==> 43323 < DueAt(LADDER[i], 119)
    ensures forall i :: 0 <= i < |LADDER| && LADDER[i].size > 7 ==> 43200 <= LADDER[i].threshold
  {
    forall i | 0 <= i < |LADDER| ensures LADDER[i].threshold >= [7200, 43200, 432000, 432000, 432000][i] && (LADDER[i].size > 7 ==> i > 0) {
      TierFacts(i);
    }
  }

  // --- The request ---

  /** The points a client asks for, as the server reads them. */
  function Points(asked: int): (points: int)
    ensures asked <= 0 ==> points == 0
    ensures 0 < asked <= 1440 ==> points == asked
    ensures asked > 1440 ==> points == 1440
  {
    if asked > 1440 then 1440 else if asked > 0 then asked else 0
  }

  /** A raw answer has as many rows as the window. */
  lemma RawAnswerLength(points: seq<Point>, t: Table, cutoff: int)
    requires RangeQuery.IsRaw(points, t, cutoff)
    ensures |points| == |Retained(t, cutoff)|
  {
    var rows :| RawOrder(rows, points, t, cutoff);
    assert multiset(rows) == Retained(t, cutoff);
    assert |multiset(rows)| == |rows|;
  }

  /** Raw rows are served when the ideal bucket is no wider than the interval. No wider tier reaches such a
      window, so an answer has no more rows than samples stamped `gap` seconds apart fit into it. */
  lemma RawAnswerShort(answer: seq<Point>, events: seq<Event>, interval: pos, now: nat, range: nat, points: int, gap: pos)
    requires RunUntil(events, LADDER, interval, now) && RowBound.CollectsApart(events, gap)
    requires points <= 1440 && range / Target(points) <= interval
    requires RangeQuery.IsRaw(answer, After(events, LADDER, interval).table, now - range)
    ensures |answer| <= range / gap + 1
  {
    hide After, Placed, RangeQuery.IsRaw, RowBound.RawApart, RowBound.Apart, SamplesAreNew, RowBound.CollectsApart;
    LadderIsWellFormed();
    var s := After(events, LADDER, interval);
    RunUntilFacts(events, LADDER, interval, now);
    RowBound.RunRawApart(events, LADDER, interval, gap);
    RawAnswerLength(answer, s.table, now - range);
    ShortRange(range, Target(points), interval);
    RawWindow(s.table, interval, s.clock, now, range, gap);
    RowBound.ApartBound(Retained(s.table, now - range), now - range, range, gap);
  }

  lemma ShortRange(range: nat, target: pos, interval: pos)
    requires target <= 1440 && range / target <= interval
    ensures range < 1440 * (interval + 1)
  {
    Quotient(range, target);
    MulBoth(interval, range / target, target);
    MulBoth(1440, target, interval + 1);
  }

  lemma RawWindow(t: Table, interval: pos, clock: nat, now: nat, range: nat, gap: pos)
    requires Placed(t, LADDER, interval, clock) && clock <= now && RowBound.RawApart(t, interval, gap)
    requires range < 1440 * (interval + 1)
    ensures RowBound.Apart(Retained(t, now - range), gap)
    ensures forall r :: r in Retained(t, now - range) ==> now - range <= r.ts <= now
  {
    var u := Retained(t, now - range);
    forall r | r in u ensures r in t && u[r] == t[r] && now - range <= r.ts <= now && r.bucketSec == Some(interval) {
      assert u[r] > 0;
      if !Buckets.IsRaw(r, interval, clock) {
        var i :| 0 <= i < |LADDER| && LADDER[i].size > interval && InTier(r, LADDER[i], clock);
        DesignPoint(i);
        assert false;
      }
    }
  }

  /** Every whole bucket of the window had a sample taken in it. */
  ghost predicate EverySampled(s: Store, cutoff: int, now: nat, q: pos) {
    forall k: nat :: k % q == 0 && cutoff <= k <= now - q ==> Taken(s, q, k) != {}
  }

  /** Then an exact answer has a row for each whole bucket of the window, and that many fit into it but one. */
  lemma AnswerAtLeast(answer: seq<Point>, s: Store, now: nat, range: nat, q: pos)
    requires forall i, j :: 0 <= i < j < |answer| ==> answer[i].time < answer[j].time
    requires ShowsExactly(answer, s, now - range, q) && EverySampled(s, now - range, now, q)
    ensures |answer| + 1 >= (if range < now then range else now) / q
  {
    hide ShowsExactly, EverySampled, HasTime;
    var span := if range < now then range else now;
    var n := span / q;
    Quotient(span, q);
    if n >= 2 {
      var first := FirstMultiple(now - span, q);
      forall i | 0 <= i <= n - 2 ensures HasTime(answer, first + i * q) {
        MultipleAfter(first, i, q);
        InsideSpan(now - span, span, first, q, n, i);
        SampledShown(answer, s, now, range, q, first + i * q);
      }
      var _ := IndexOf(answer, first, q, n - 2);
    }
  }

  lemma InsideSpan(at: nat, span: nat, first: nat, q: pos, n: nat, i: nat)
    requires n * q <= span && first < at + q && i + 2 <= n
    ensures first + i * q + q <= at + span
  {
    MulBoth(n, i + 2, q);
    assert (i + 2) * q == i * q + 2 * q;
  }

  lemma SampledShown(answer: seq<Point>, s: Store, now: nat, range: nat, q: pos, k: nat)
    requires ShowsExactly(answer, s, now - range, q) && EverySampled(s, now - range, now, q)
    requires k % q == 0 && now - range <= k <= now - q
    ensures HasTime(answer, k)
  {
    hide HasTime, Taken;
    assert Taken(s, q, k) != {};
    var x :| x in Taken(s, q, k);
    StartOfTaken(s, q, k, x);
  }

  lemma StartOfTaken(s: Store, q: pos, k: nat, x: Sample)
    requires x in Taken(s, q, k)
    ensures x in s.collected && Start(x.at, q) == k
  {}

  /** The first multiple of `q` from `at` on. */
  function FirstMultiple(at: nat, q: pos): (k: nat)
    ensures k % q == 0 && at <= k < at + q
  {
    if at % q == 0 then at else (NextMultiple(Start(at, q), q); Start(at, q) + q)
  }

  lemma {:induction false} MultipleAfter(first: nat, i: nat, q: pos)
    requires first % q == 0
    ensures (first + i * q) % q == 0
  {
    if i > 0 {
      MultipleAfter(first, i - 1, q);
      NextMultiple(first + (i - 1) * q, q);
      assert first + i * q == first + (i - 1) * q + q;
    }
  }

  /** `handler_metrics`, on the table a run left: count, pick the bucket, query. Raw rows are served exactly
      when there are no more of them than points, or when the ideal bucket is no wider than the interval, and
      then no more of them than samples fit into the range. Else the bucket is the eligible one that gives the
      number of points nearest the target, or the interval when none is eligible. A bucketed answer is exact
      when the interval divides a day or the range ends before the tiers, and then it has a row for each
      bucket of the window samples were taken in; it is near the target when the interval divides a minute. */
  method HandleMetrics(db: MetricsDb.Db, now: nat, range: nat, asked: int, ghost events: seq<Event>)
    returns (answer: seq<Point>, q: nat)
    requires RunUntil(events, LADDER, db.interval, now) && PrunesUpTo(events, now - range)
    requires db.Table() == After(events, LADDER, db.interval).table
    ensures var target := if asked <= 0 then 240 else if asked > 1440 then 1440 else asked;
            && (q == 0 <==> |Retained(db.Table(), now - range)| <= target || range / target <= db.interval)
            && (q != 0 ==> if 86400 % db.interval == 0 then Nearest(q, range, db.interval, target) else q == db.interval)
            && (q != 0 ==> Picked(q, range, db.interval, Points(asked)))
            && if q == 0 then RangeQuery.IsRaw(answer, db.Table(), now - range)
                              && (|answer| <= target
                                  || forall gap: pos :: RowBound.CollectsApart(events, gap) ==> |answer| <= range / gap + 1)
               else && IsBucketed(answer, db.Table(), now - range, q)
                    && |answer| <= range / q + 2
                    && (86400 % db.interval == 0 || ShortOfTiers(db.interval, range)
                        ==> ShowsExactly(answer, After(events, LADDER, db.interval), now - range, q)
                            && (EverySampled(After(events, LADDER, db.interval), now - range, now, q)
                                ==> |answer| + 1 >= (if range < now then range else now) / q))
                    && (60 % db.interval == 0 && range / 86400 <= target ==> 7 * |answer| <= 10 * target + 18)
  {
    hide RunUntil, PrunesUpTo, After, ShortOfTiers, ShowsExactly, IsBucketed, RangeQuery.IsRaw, Nearest, Placed,
         Columns.Sound, EverySampled, Retained;
    EligibleIff(db.interval);
    var points := Points(asked);
    var count := db.CountRange(now, range);
    q := PickBucket(range, db.interval, points, count);
    answer := db.QueryRange(now, range, q);
    if q == 0 {
      RawAnswerLength(answer, db.Table(), now - range);
      if |answer| > Target(points) {
        forall gap: pos | RowBound.CollectsApart(events, gap) ensures |answer| <= range / gap + 1 {
          RawAnswerShort(answer, events, db.interval, now, range, points, gap);
        }
      }
    } else {
      LadderIsWellFormed();
      assert Picked(q, range, db.interval, points);
      PickedAnswer(answer, events, db.interval, now, range, points, q);
    }
  }

  lemma AnswerBounds(answer: seq<Point>, events: seq<Event>, interval: pos, now: nat, range: nat, q: pos)
    requires RunUntil(events, LADDER, interval, now) && IsBucketed(answer, After(events, LADDER, interval).table, now - range, q)
    ensures |answer| <= range / q + 2
    ensures ShowsExactly(answer, After(events, LADDER, interval), now - range, q)
            && EverySampled(After(events, LADDER, interval), now - range, now, q)
            ==> |answer| + 1 >= (if range < now then range else now) / q
  {
    hide RunUntil, After, ShowsExactly, EverySampled, Placed, QueryGroup, HasTime, Averages;
    LadderIsWellFormed();
    var s := After(events, LADDER, interval);
    RunUntilFacts(events, LADDER, interval, now);
    RowsByNow(s.table, LADDER, interval, s.clock, now);
    AnswerLength(answer, s.table, now, range, q);
    if ShowsExactly(answer, s, now - range, q) && EverySampled(s, now - range, now, q) {
      AnswerAtLeast(answer, s, now, range, q);
    }
  }

  lemma PickedAnswer(answer: seq<Point>, events: seq<Event>, interval: pos, now: nat, range: nat, points: int, q: pos)
    requires RunUntil(events, LADDER, interval, now) && PrunesUpTo(events, now - range)
    requires IsBucketed(answer, After(events, LADDER, interval).table, now - range, q)
    requires Picked(q, range, interval, points) && points <= 1440
    ensures 86400 % interval == 0 || ShortOfTiers(interval, range)
            ==> ShowsExactly(answer, After(events, LADDER, interval), now - range, q)
    ensures EverySampled(After(events, LADDER, interval), now - range, now, q)
            && (86400 % interval == 0 || ShortOfTiers(interval, range))
            ==> |answer| + 1 >= (if range < now then range else now) / q
    ensures |answer| <= range / q + 2
    ensures 60 % interval == 0 && range / 86400 <= Target(points) ==> 7 * |answer| <= 10 * Target(points) + 18
  {
    hide EverySampled, Accounted, SamplesAreNew, ClockRises;
    hide RunUntil, PrunesUpTo, After, ShortOfTiers, ShowsExactly, IsBucketed, Nearest, Placed;
    LadderIsWellFormed();
    AnswerBounds(answer, events, interval, now, range, q);
    if 86400 % interval == 0 || ShortOfTiers(interval, range) {
      PickedIsExact(q, range, interval, points);
      assert Exact(events, LADDER, interval, now, range, q, answer);
    }
    if 60 % interval == 0 && range / 86400 <= Target(points) {
      MultipleOfMultiple(86400, interval, 60);
      EligibleIff(interval);
      RunUntilFacts(events, LADDER, interval, now);
      var s := After(events, LADDER, interval);
      RowsByNow(s.table, LADDER, interval, s.clock, now);
      AnswerNearTarget(answer, s.table, now, range, interval, Target(points), q);
    }
  }

  // --- More rows than points ---

  /** A sample a minute for six days, all of them asked for in 1440 points: the bucket is five minutes, and
      every answer has 1728 rows. */
  lemma SixDaysExceed(answer: seq<Point>)
    requires IsAnswer(answer, CyclesAt(EveryMinute(8640), 90), 60, 518340, 6 * 86400, 300)
    ensures var events := CyclesAt(EveryMinute(8640), 90);
            && IsHistory(events) && RunUntil(events, LADDER, 60, 518340)
            && Picked(300, 6 * 86400, 60, 1440)
            && !ServesRaw(6 * 86400, 60, 1440, |Retained(After(events, LADDER, 60).table, 518340 - 6 * 86400)|)
    ensures |answer| == 1728
  {
    hide IsHistory, After, CyclesAt, RunUntil, PrunesUpTo, IsBucketed, ShowsExactly, Young, EveryMinute, Nearest, Exact;
    var times, now, range := EveryMinute(8640), 518340, 6 * 86400;
    EveryMinuteIs(8640);
    LadderIsWellFormed();
    EligibleIff(60);
    AnswerExceedsPoints();
    HistoryIs(times, 90, LADDER, 60);
    HistoryPrunes(times, 90, now - range);
    CyclesAreHistory(times, 90);
    var events := CyclesAt(times, 90);
    forall i | 1439 <= i < 8640 ensures Young(LADDER, 60, now, times[i]) { SixDaysYoung(times[i]); }
    YoungMinutes(times);
    PickedIsExact(300, range, 60, 1440);
    assert Exact(events, LADDER, 60, now, range, 300, answer);
    ExactShows(events, 60, now, range, 300, answer);
    SixDaysShown(answer, events);
    SixDaysRows(answer, After(events, LADDER, 60).table);
  }

  function EveryMinute(n: nat): seq<nat> { seq(n, m requires 0 <= m < n => 60 * m) }

  lemma EveryMinuteIs(n: nat)
    ensures var times := EveryMinute(n);
            |times| == n && Rising(times) && forall m :: 0 <= m < n ==> times[m] == 60 * m
  {}

  lemma SixDaysYoung(at: nat)
    requires 86340 <= at
    ensures Young(LADDER, 60, 518340, at)
  {
    forall i | 0 <= i < |LADDER| && LADDER[i].size > 60 ensures 432000 <= LADDER[i].threshold { TierFacts(i); }
  }

  lemma YoungMinutes(times: seq<nat>)
    requires |times| == 8640 && Rising(times) && forall m :: 0 <= m < 8640 ==> times[m] == 60 * m
    requires forall i :: 1439 <= i < 8640 ==> Young(LADDER, 60, 518340, times[i])
    ensures |Retained(After(CyclesAt(times, 90), LADDER, 60).table, 518340 - 6 * 86400)| >= 7201
  {
    hide After, CyclesAt, Young;
    LadderIsWellFormed();
    YoungRows(times, 90, LADDER, 60, 1439, 518340 - 6 * 86400);
  }

  lemma ExactShows(events: seq<Event>, interval: pos, now: nat, range: nat, q: pos, answer: seq<Point>)
    requires Exact(events, LADDER, interval, now, range, q, answer) && IsAnswer(answer, events, interval, now, range, q)
    requires RunUntil(events, LADDER, interval, now) && PrunesUpTo(events, now - range)
    ensures ShowsExactly(answer, After(events, LADDER, interval), now - range, q)
  {}

  /** Every five minutes have a row. */
  lemma SixDaysShown(answer: seq<Point>, events: seq<Event>)
    requires events == CyclesAt(EveryMinute(8640), 90)
    requires ShowsExactly(answer, After(events, LADDER, 60), 518340 - 6 * 86400, 300)
    ensures forall i :: 0 <= i < 1728 ==> HasTime(answer, 300 * i)
  {
    hide CyclesAt, After, EveryMinute, HasTime;
    EveryMinuteIs(8640);
    CyclesCollect(EveryMinute(8640), 90, LADDER, 60);
    forall i | 0 <= i < 1728 ensures HasTime(answer, 300 * i) {
      var x := SampleAt(EveryMinute(8640), 5 * i);
      assert IsSample(EveryMinute(8640), x);
      StartUnique(300 * i, 300, 300 * i);
    }
  }

  lemma SixDaysRows(answer: seq<Point>, t: Table)
    requires IsBucketed(answer, t, 518340 - 6 * 86400, 300) && forall r :: r in t ==> r.ts <= 518340
    requires forall i :: 0 <= i < 1728 ==> HasTime(answer, 300 * i)
    ensures |answer| == 1728
  {
    hide Averages;
    forall i | 0 <= i < |answer| ensures answer[i].time % 300 == 0 && answer[i].time <= 518340 {
      var g := QueryGroup(t, 518340 - 6 * 86400, 300, answer[i].time);
      var r := Pick(g);
      assert g[r] > 0;
    }
    forall i | 0 <= i <= 1727 ensures HasTime(answer, 0 + i * 300) { assert HasTime(answer, 300 * i); }
    var i := IndexOf(answer, 0, 300, 1727);
    AscendingMultiples(answer, 300, |answer| - 1);
  }

  /** The row of the bucket `n` buckets after the first has at least `n` rows before it. */
  lemma {:induction false} IndexOf(answer: seq<Point>, first: nat, q: pos, n: nat) returns (i: nat)
    requires forall i, j :: 0 <= i < j < |answer| ==> answer[i].time < answer[j].time
    requires forall i :: 0 <= i <= n ==> HasTime(answer, first + i * q)
    ensures n <= i < |answer| && answer[i].time == first + n * q
  {
    assert HasTime(answer, first + n * q);
    i :| 0 <= i < |answer| && answer[i].time == first + n * q;
    if n > 0 {
      var j := IndexOf(answer, first, q, n - 1);
      assert (n - 1) * q < n * q;
      assert answer[j].time < answer[i].time;
    }
  }
}
