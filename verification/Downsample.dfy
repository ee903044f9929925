/** Choosing the query bucket of /api/metrics. */
module Downsample {
  import opened Ladder
  import opened Rows
  import RangeQuery

  const BUCKETS: seq<nat> := [60, 120, 300, 600, 900, 1800, 3600, 7200, 10800, 21600, 43200, 86400]

  function Abs(x: int): nat { if x < 0 then -x else x }

  /** How far the number of buckets is from the target. */
  function Diff(range: nat, b: pos, points: pos): nat { Abs(range / b - points) }

  /** The target: 240 for a client that names none. */
  function Target(points: int): pos { if points <= 0 then 240 else points }

  /** Raw rows are served when there are no more of them than the target, or when the ideal bucket is
      at most the interval. */
  predicate ServesRaw(range: nat, interval: pos, points: int, actual: int) {
    0 <= actual <= Target(points) || range / Target(points) <= interval
  }

  /** `b` is an eligible bucket nearest the target, the smallest of those. */
  ghost predicate Nearest(b: nat, range: nat, interval: pos, target: pos) {
    && b > 0 && b in BUCKETS && b % interval == 0
    && forall c: pos :: c in BUCKETS && c % interval == 0 ==>
         && Diff(range, b, target) <= Diff(range, c, target)
         && (c < b ==> Diff(range, b, target) < Diff(range, c, target))
  }

  method PickBucket(range: nat, interval: pos, points: int, actual: int) returns (b: nat)
    ensures b == 0 <==> ServesRaw(range, interval, points, actual)
    ensures b != 0 && (exists c :: c in BUCKETS && c % interval == 0) ==> Nearest(b, range, interval, Target(points))
    ensures b != 0 && !(exists c :: c in BUCKETS && c % interval == 0) ==> b == interval
  {
    hide BestOf, Nearest;
    var target := if points <= 0 then 240 else points;
    if actual >= 0 && actual <= target { return 0; }
    var ideal := range / target;
    if ideal <= interval { return 0; }

    var best := -1;
    var bestDiff: nat := 0;
    NoneBest(range, interval, target);
    for i := 0 to |BUCKETS|
      invariant -1 <= best < i
      invariant BestOf(best, bestDiff, i, range, interval, target)
    {
      var bucket := BUCKETS[i];
      ghost var before, beforeDiff := best, bestDiff;
      if bucket % interval == 0 {
        var n := range / bucket;
        var diff := if n < target then target - n else n - target;
        if best == -1 || diff < bestDiff {
          best, bestDiff := i, diff;
        }
      }
      BestMore(before, beforeDiff, i, range, interval, target, best, bestDiff);
    }
    b := if best >= 0 then BUCKETS[best] else interval;
    BestIsNearest(best, bestDiff, range, interval, target);
  }

  /** The best of the first `i` buckets, -1 while none is eligible. */
  ghost predicate BestOf(best: int, bestDiff: nat, i: nat, range: nat, interval: pos, target: pos) {
    && i <= |BUCKETS| && -1 <= best < i
    && (best == -1 ==> forall j :: 0 <= j < i ==> BUCKETS[j] % interval != 0)
    && (best >= 0 ==>
          && BUCKETS[best] % interval == 0 && bestDiff == Diff(range, BUCKETS[best], target)
          && forall j :: 0 <= j < i && BUCKETS[j] % interval == 0 ==>
               && bestDiff <= Diff(range, BUCKETS[j], target)
               && (j < best ==> bestDiff < Diff(range, BUCKETS[j], target)))
  }

  lemma NoneBest(range: nat, interval: pos, target: pos)
    ensures BestOf(-1, 0, 0, range, interval, target)
  {}

  lemma BestMore(best: int, bestDiff: nat, i: nat, range: nat, interval: pos, target: pos, best': int, bestDiff': nat)
    requires i < |BUCKETS| && BestOf(best, bestDiff, i, range, interval, target)
    requires BUCKETS[i] % interval != 0 ==> best' == best && bestDiff' == bestDiff
    requires BUCKETS[i] % interval == 0 ==>
               var n := range / BUCKETS[i];
               var diff := if n < target then target - n else n - target;
               if best == -1 || diff < bestDiff then best' == i && bestDiff' == diff else best' == best && bestDiff' == bestDiff
    ensures BestOf(best', bestDiff', i + 1, range, interval, target)
  {}

  lemma BestIsNearest(best: int, bestDiff: nat, range: nat, interval: pos, target: pos)
    requires BestOf(best, bestDiff, |BUCKETS|, range, interval, target)
    ensures best >= 0 ==> Nearest(BUCKETS[best], range, interval, target) && BUCKETS[best] > 0
    ensures best < 0 ==> !exists c :: c in BUCKETS && c % interval == 0
  {
    BucketsRise();
  }

  lemma BucketsRise()
    ensures forall i, j :: 0 <= i < j < |BUCKETS| ==> 0 < BUCKETS[i] < BUCKETS[j]
  {}

  /** An interval that divides a minute divides every bucket. */
  lemma MinuteDivides(interval: pos)
    requires 60 % interval == 0
    ensures forall b :: b in BUCKETS ==> b % interval == 0
  {
    forall i | 0 <= i < |BUCKETS| ensures BUCKETS[i] % interval == 0 {
      assert BUCKETS[i] % 60 == 0;
      MultipleOfMultiple(BUCKETS[i], interval, 60);
    }
  }

  /** The next bucket is at most two and a half times as wide. When the nearest bucket still gives
      more than the target, the next one gives no fewer below it than this one gives above. */
  lemma StepUp(b: pos, next: pos, range: nat, target: pos)
    requires b < next && 2 * next <= 5 * b && 3 * b <= 2 * next
    requires range / b > target
    requires Diff(range, b, target) <= Diff(range, next, target)
    ensures 7 * (range / b) <= 10 * target + 4
  {
    var p, p' := range / b, range / next;
    Quotient(range, b);
    Quotient(range, next);
    StepUpFrom(b, next, p, p', range, target);
  }

  lemma Quotient(range: nat, b: pos)
    ensures range / b * b <= range < range / b * b + b
  {
    StartInBucket(range, b);
  }

  lemma StepUpFrom(b: pos, next: pos, p: nat, p': nat, range: nat, target: pos)
    requires 2 * next <= 5 * b && 3 * b <= 2 * next && p > target
    requires p * b <= range < p * b + b && p' * next <= range < p' * next + next
    requires p - target <= if p' >= target then p' - target else target - p'
    ensures 7 * p <= 10 * target + 4
  {
    if p' >= target {
      NotBothAbove(b, next, p, p', range);
      assert false;
    }
    QuotientDrop(b, next, p, p', range);
  }

  lemma NotBothAbove(b: pos, next: pos, p: nat, p': nat, range: nat)
    requires 3 * b <= 2 * next && p >= 2
    requires p * b <= range < p * b + b && p' * next <= range < p' * next + next
    ensures p' < p
  {
    MulBoth(p, 2, b);
    MulBothLeft(p, 2 * next, 3 * b);
    assert 2 * (p * next) == p * (2 * next);
    assert p * (3 * b) == 3 * (p * b);
    if p' >= p {
      MulBoth(p', p, next);
      assert false;
    }
  }

  lemma MulBoth(x: nat, y: nat, k: nat)
    requires x >= y
    ensures x * k >= y * k
  {}

  lemma MulBothLeft(k: nat, x: nat, y: nat)
    requires x >= y
    ensures k * x >= k * y
  {}

  lemma QuotientDrop(b: pos, next: pos, p: nat, p': nat, range: nat)
    requires 2 * next <= 5 * b
    requires p * b <= range < p' * next + next
    ensures 5 * p' >= 2 * p - 4
  {
    assert range < (p' + 1) * next;
    assert 2 * ((p' + 1) * next) == (p' + 1) * (2 * next);
    MulBothLeft(p' + 1, 5 * b, 2 * next);
    assert (p' + 1) * (5 * b) == (5 * p' + 5) * b;
    assert 2 * (p * b) == (2 * p) * b;
    if 5 * p' + 5 <= 2 * p {
      MulBoth(2 * p, 5 * p' + 5, b);
      assert false;
    }
  }

  /** A bucketed answer has at most about 10/7 of the target buckets, whenever a day is a wide enough
      bucket for the range. */
  lemma BucketsNearTarget(b: nat, range: nat, interval: pos, target: pos)
    requires Nearest(b, range, interval, target)
    requires 60 % interval == 0 && range / 86400 <= target
    ensures 7 * (range / b) <= 10 * target + 4
  {
    MinuteDivides(interval);
    if range / b > target {
      var i :| 0 <= i < |BUCKETS| && BUCKETS[i] == b;
      assert i < 11;
      var next := BUCKETS[i + 1];
      assert next in BUCKETS;
      StepUp(b, next, range, target);
    }
  }

  /** The bound is met. */
  lemma BucketsNearTargetIsTight()
    ensures Nearest(120, 240, 60, 1) && !ServesRaw(240, 60, 1, -1)
    ensures 7 * (240 / 120) == 10 * 1 + 4
  {
    assert BUCKETS[1] == 120;
    forall c: pos | c in BUCKETS && c % 60 == 0
      ensures Diff(240, 120, 1) <= Diff(240, c, 1) && (c < 120 ==> Diff(240, 120, 1) < Diff(240, c, 1))
    {
      var i :| 0 <= i < |BUCKETS| && BUCKETS[i] == c;
      if i == 0 { assert c == 60; } else if i >= 2 { assert c >= 300; SmallQuotient(240, c); }
    }
  }

  /** Six days at a sample a minute, 1440 points asked for: five minutes is the nearest bucket, and there are
      1728 of them. So the cap on points is no cap on the rows of an answer. */
  lemma AnswerExceedsPoints()
    ensures Nearest(300, 6 * 86400, 60, 1440) && !ServesRaw(6 * 86400, 60, 1440, 8640)
    ensures 6 * 86400 / 300 == 1728
  {
    assert BUCKETS[2] == 300;
    forall c: pos | c in BUCKETS && c % 60 == 0
      ensures Diff(518400, 300, 1440) <= Diff(518400, c, 1440)
      ensures c < 300 ==> Diff(518400, 300, 1440) < Diff(518400, c, 1440)
    {
      var i :| 0 <= i < |BUCKETS| && BUCKETS[i] == c;
      if i >= 3 { FewBuckets(c); }
    }
  }

  lemma FewBuckets(c: pos)
    requires c >= 600
    ensures 518400 / c <= 864
  {
    Quotient(518400, c);
    if 518400 / c >= 865 { MulBoth(518400 / c, 865, c); }
  }

  lemma SmallQuotient(a: nat, b: pos)
    requires a < b
    ensures a / b == 0
  {}

  /** What reaches the client: rows in a bucketed answer to a request for `target` points. */
  lemma AnswerNearTarget(points: seq<RangeQuery.Point>, t: Table, now: nat, range: nat, interval: pos, target: pos, b: nat)
    requires Nearest(b, range, interval, target)
    requires 60 % interval == 0 && range / 86400 <= target
    requires RangeQuery.IsBucketed(points, t, now - range, b)
    requires forall r :: r in t ==> r.ts <= now
    ensures 7 * |points| <= 10 * target + 18
  {
    BucketsNearTarget(b, range, interval, target);
    RangeQuery.AnswerLength(points, t, now, range, b);
  }
}
