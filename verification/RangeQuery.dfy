/** Range queries: what a bucketed answer is, how long it can be, and that passes do not move samples
    between its buckets. */
module RangeQuery {
  import opened Rows
  import opened Ladder
  import opened Consolidation
  import opened Conservation

  /** One row of an answer. */
  datatype Point = Point(time: nat, cells: Cells, samples: set<Sample>)

  /** The rows of the window that fall in the query bucket starting at `k`. */
  ghost function QueryGroup(t: Table, cutoff: int, q: pos, k: nat): (g: Table)
    ensures forall r {:trigger g[r]} :: g[r] == if r.ts >= cutoff && Start(r.ts, q) == k then t[r] else 0
  {
    Filter(t, (r: Row) => r.ts >= cutoff && Start(r.ts, q) == k)
  }

  /** What a bucketed query answers: one averaged row per nonempty bucket, strictly ascending. */
  ghost predicate IsBucketed(points: seq<Point>, t: Table, cutoff: int, q: pos) {
    && (forall i, j :: 0 <= i < j < |points| ==> points[i].time < points[j].time)
    && (forall i :: 0 <= i < |points| ==>
          var g := QueryGroup(t, cutoff, q, points[i].time);
          g != multiset{} && points[i] == Point(points[i].time, Averages(g), SamplesOf(g)))
    && (forall k :: QueryGroup(t, cutoff, q, k) != multiset{} ==> HasTime(points, k))
  }

  ghost predicate HasTime(points: seq<Point>, k: nat) {
    exists i :: 0 <= i < |points| && points[i].time == k
  }

  function PointOf(r: Row): Point {
    Point(r.ts, r.cells, r.samples)
  }

  /** What a raw query answers: every row of the window once, in time order. */
  ghost predicate IsRaw(points: seq<Point>, t: Table, cutoff: int) {
    exists rows: seq<Row> :: RawOrder(rows, points, t, cutoff)
  }

  ghost predicate RawOrder(rows: seq<Row>, points: seq<Point>, t: Table, cutoff: int) {
    && multiset(rows) == Filter(t, (r: Row) => r.ts >= cutoff)
    && InTimeOrder(rows)
    && |points| == |rows|
    && forall i :: 0 <= i < |rows| ==> points[i] == PointOf(rows[i])
  }

  ghost predicate InTimeOrder(rows: seq<Row>) {
    forall i, j :: 0 <= i < j < |rows| ==> rows[i].ts <= rows[j].ts
  }

  /** `r` put after the rows no later than it. */
  function InsertInOrder(rows: seq<Row>, r: Row): (out: seq<Row>)
    requires InTimeOrder(rows)
    ensures InTimeOrder(out)
    ensures multiset(out) == multiset(rows) + multiset{r}
    ensures out != []
    ensures out[|out| - 1].ts == if rows == [] || rows[|rows| - 1].ts <= r.ts then r.ts else rows[|rows| - 1].ts
  {
    if rows == [] || rows[|rows| - 1].ts <= r.ts then rows + [r]
    else
      var last := rows[|rows| - 1];
      assert rows == rows[..|rows| - 1] + [last];
      InsertInOrder(rows[..|rows| - 1], r) + [last]
  }

  predicate Ascending(ks: seq<nat>) {
    forall i, j :: 0 <= i < j < |ks| ==> ks[i] < ks[j]
  }

  /** `k` added to an ascending sequence, once. */
  function InsertKey(ks: seq<nat>, k: nat): (out: seq<nat>)
    requires Ascending(ks)
    ensures Ascending(out)
    ensures forall x :: x in out <==> x in ks || x == k
  {
    if ks == [] || ks[|ks| - 1] < k then ks + [k]
    else if ks[|ks| - 1] == k then ks
    else
      var last := ks[|ks| - 1];
      var rest := InsertKey(ks[..|ks| - 1], k);
      assert ks == ks[..|ks| - 1] + [last];
      forall i | 0 <= i < |rest| ensures rest[i] < last {
        assert rest[i] in rest;
      }
      rest + [last]
  }

  // --- Length ---

  lemma {:induction false} AscendingMultiples(points: seq<Point>, q: pos, n: nat)
    requires n < |points|
    requires forall i, j :: 0 <= i < j < |points| ==> points[i].time < points[j].time
    requires forall i :: 0 <= i < |points| ==> points[i].time % q == 0
    ensures points[n].time >= points[0].time + n * q
  {
    if n > 0 {
      AscendingMultiples(points, q, n - 1);
      if points[n].time < points[n - 1].time + q {
        MultiplesApart(points[n - 1].time, points[n].time, q);
        assert false;
      }
      assert n * q == (n - 1) * q + q;
    }
  }

  /** A bucketed answer over the last `range` seconds has at most range / q + 2 rows. */
  lemma AnswerLength(points: seq<Point>, t: Table, now: nat, range: nat, q: pos)
    requires IsBucketed(points, t, now - range, q)
    requires forall r :: r in t ==> r.ts <= now
    ensures |points| <= range / q + 2
  {
    forall i | 0 <= i < |points| ensures points[i].time % q == 0 && now - range - q < points[i].time <= now {
      var g := QueryGroup(t, now - range, q, points[i].time);
      var r := Pick(g);
      assert g[r] > 0;
    }
    if |points| > 0 {
      var n := |points| - 1;
      AscendingMultiples(points, q, n);
      assert n * q < range + q;
      LengthFrom(n, range, q);
    }
  }

  lemma LengthFrom(n: nat, range: nat, q: pos)
    requires n * q < range + q
    ensures n <= range / q + 1
  {
    var d, m := range / q, range % q;
    assert range == d * q + m;
    assert (n - d) * q == n * q - d * q;
    if n - d >= 2 {
      MulAtLeast(n - d, 2, q);
      assert false;
    }
  }

  // --- Query buckets and tier buckets ---

  /** No bucket of the tier that a query over the last `range` seconds can reach is split between two query
      buckets: the tier divides the query bucket, or its threshold lies too far back. */
  predicate Clear(q: pos, tier: Tier, range: int) {
    q % tier.size == 0 || range < tier.threshold + Gcd(q, tier.size)
  }

  /** The window then sees a bucket of the tier, due by now, on one side of the query bucket at `k`. */
  lemma ClearBucket(q: pos, tier: Tier, now: int, range: int, ts: nat, at: nat, k: nat)
    requires Clear(q, tier, range) && now - range <= k
    requires ts % tier.size == 0 && ts <= at < ts + tier.size && DueBucket(ts, tier, now)
    ensures Start(ts, q) == k <==> Start(at, q) == k
  {
    var a, b := Start(ts, q), Start(at, q);
    if b <= ts {
      StartUnique(ts, q, b);
    } else {
      if q % tier.size == 0 {
        Nesting(at, tier.size, q);
        StartUnique(at, tier.size, ts);
        assert false;
      }
      NextMultiple(ts, tier.size);
      AtLeastGcd(q, tier.size, b, ts + tier.size);
      assert b < now - range;
      assert a < b;
    }
  }

  /** A tier that is not clear has a bucket that is split, and a window that sees it. */
  lemma NotClear(q: pos, tier: Tier, range: int) returns (k: nat)
    requires !Clear(q, tier, range)
    ensures k % q == 0 && Start(k, tier.size) < k
    ensures Start(k, tier.size) + tier.size + tier.threshold - range <= k
  {
    var d := Gcd(q, tier.size);
    GcdBelow(q, tier.size);
    k := JustGcd(q, tier.size);
    var end := k + d;
    var size: pos := tier.size;
    if end < size { MultiplesApart(0, end, size); }
    PreviousMultipleOf(end, size);
    StartUnique(k, size, end - size);
  }

  lemma PreviousMultipleOf(a: nat, size: pos)
    requires a % size == 0 && a >= size
    ensures (a - size) % size == 0
  {
    MultipleMod(1, size);
    DifferenceMultiple(a, size, size);
  }

  /** Every tier wider than the interval that has a row in the table is clear. */
  ghost predicate TiersClear(t: Table, ladder: seq<Tier>, interval: nat, range: int, q: pos) {
    forall x, j :: x in t && 0 <= j < |ladder| && ladder[j].size > interval && x.bucketSec == Some(ladder[j].size)
                   ==> Clear(q, ladder[j], range)
  }

  // --- Passes ---

  /** `x` is the row `r`, or was folded from it into the due bucket of a tier that holds it. */
  ghost predicate Continues(r: Row, x: Row, ladder: seq<Tier>, k: nat, now: int)
    requires k <= |ladder|
  {
    x == r || exists j :: 0 <= j < k && FoldsInto(r, x, ladder[j], now)
  }

  ghost predicate FoldsInto(r: Row, x: Row, tier: Tier, now: int) {
    x.bucketSec == Some(tier.size) && x.ts == Start(r.ts, tier.size) && DueBucket(x.ts, tier, now)
  }

  /** Each sample of a row left by a pass was in a row of the table before, which that row continues. */
  ghost predicate Traced(t: Table, u: Table, ladder: seq<Tier>, k: nat, now: int)
    requires k <= |ladder|
  {
    forall x, s :: x in u && s in x.samples ==> exists r :: r in t && s in r.samples && Continues(r, x, ladder, k, now)
  }

  lemma {:induction false} TiersTraced(t: Table, ladder: seq<Tier>, k: nat, now: int)
    requires WellFormed(ladder) && k <= |ladder|
    ensures Traced(t, Tiers(t, ladder, k, now), ladder, k, now)
  {
    hide Step, Folded, Fold, Continues;
    if k == 0 {
      forall r: Row ensures Continues(r, r, ladder, 0, now) { SelfContinues(r, ladder, 0, now); }
    } else {
      var tier := ladder[k - 1];
      var u := Tiers(t, ladder, k - 1, now);
      TiersTraced(t, ladder, k - 1, now);
      StepRows(u, tier, now);
      var w := Step(u, tier, now);
      forall x, s | x in w && s in x.samples
        ensures exists r :: r in t && s in r.samples && Continues(r, x, ladder, k, now)
      {
        assert w[x] > 0;
        if x in Folded(u, tier, now) {
          var _ := FoldedFrom(u, tier, now, x);
          var y := FoldedSample(u, tier, x.ts, s);
          var r :| r in t && s in r.samples && Continues(r, y, ladder, k - 1, now);
          FoldContinues(r, y, x, ladder, k, now);
        } else {
          var r :| r in t && s in r.samples && Continues(r, x, ladder, k - 1, now);
          LongerContinues(r, x, ladder, k, now);
        }
      }
    }
  }

  lemma SelfContinues(r: Row, ladder: seq<Tier>, k: nat, now: int)
    requires k <= |ladder|
    ensures Continues(r, r, ladder, k, now)
  {}

  lemma LongerContinues(r: Row, x: Row, ladder: seq<Tier>, k: nat, now: int)
    requires 0 < k <= |ladder| && Continues(r, x, ladder, k - 1, now)
    ensures Continues(r, x, ladder, k, now)
  {}

  lemma FoldContinues(r: Row, y: Row, x: Row, ladder: seq<Tier>, k: nat, now: int)
    requires WellFormed(ladder) && 0 < k <= |ladder| && Continues(r, y, ladder, k - 1, now)
    requires FoldsInto(y, x, ladder[k - 1], now)
    ensures Continues(r, x, ladder, k, now)
  {
    if y != r {
      var j :| 0 <= j < k - 1 && FoldsInto(r, y, ladder[j], now);
      Nesting(r.ts, ladder[j].size, ladder[k - 1].size);
    }
    assert FoldsInto(r, x, ladder[k - 1], now);
  }

  /** A query bucket wholly inside the window represents the same samples before and after a pass, when
      every tier present after it is clear. */
  lemma PassKeepsQueryBucket(t: Table, ladder: seq<Tier>, at: int, now: int, range: int, q: pos, k: nat)
    requires WellFormed(ladder) && Exclusive(t) && at <= now
    requires TiersClear(Pass(t, ladder, at), ladder, 0, range, q)
    requires now - range <= k
    ensures SamplesOf(QueryGroup(Pass(t, ladder, at), now - range, q, k)) == SamplesOf(QueryGroup(t, now - range, q, k))
  {
    hide *;
    var u := Pass(t, ladder, at);
    PassConserves(t, ladder, at);
    PassTraced(t, ladder, at);
    var before, after := SamplesOf(QueryGroup(t, now - range, q, k)), SamplesOf(QueryGroup(u, now - range, q, k));
    forall s ensures s in after <==> s in before {
      if s in SamplesOf(t) {
        SampleStays(t, u, ladder, at, now, range, q, k, s);
      } else {
        GroupSamples(t, now - range, q, k);
        GroupSamples(u, now - range, q, k);
      }
    }
  }

  lemma GroupSamples(t: Table, cutoff: int, q: pos, k: nat)
    ensures SamplesOf(QueryGroup(t, cutoff, q, k)) <= SamplesOf(t)
  {
    var g := QueryGroup(t, cutoff, q, k);
    forall s | s in SamplesOf(g) ensures s in SamplesOf(t) {
      var x :| x in g && s in x.samples;
      assert g[x] > 0;
    }
  }

  lemma SampleStays(t: Table, u: Table, ladder: seq<Tier>, at: int, now: int, range: int, q: pos, k: nat, s: Sample)
    requires Exclusive(t) && Exclusive(u) && Traced(t, u, ladder, |ladder|, at) && SamplesOf(u) == SamplesOf(t)
    requires TiersClear(u, ladder, 0, range, q) && at <= now && now - range <= k && s in SamplesOf(t)
    ensures s in SamplesOf(QueryGroup(u, now - range, q, k)) <==> s in SamplesOf(QueryGroup(t, now - range, q, k))
  {
    hide Continues, Exclusive, QueryGroup, Start, Clear;
    var x :| x in u && s in x.samples;
    var r :| r in t && s in r.samples && Continues(r, x, ladder, |ladder|, at);
    if x != r {
      var j := ContinuesIn(r, x, ladder, at);
      ClearBucket(q, ladder[j], now, range, x.ts, r.ts, k);
    }
    OnlyRow(t, now - range, q, k, r, s);
    OnlyRow(u, now - range, q, k, x, s);
  }

  lemma PassTraced(t: Table, ladder: seq<Tier>, now: int)
    requires WellFormed(ladder)
    ensures Traced(t, Pass(t, ladder, now), ladder, |ladder|, now)
  {
    TiersTraced(t, ladder, |ladder|, now);
  }

  lemma ContinuesIn(r: Row, x: Row, ladder: seq<Tier>, now: int) returns (j: nat)
    requires Continues(r, x, ladder, |ladder|, now) && x != r
    ensures j < |ladder| && x.bucketSec == Some(ladder[j].size) && DueBucket(x.ts, ladder[j], now)
    ensures x.ts == Start(r.ts, ladder[j].size)
  {
    j :| 0 <= j < |ladder| && FoldsInto(r, x, ladder[j], now);
  }

  /** With every sample in one row, a sample is in a query bucket exactly when its row is stamped there. */
  lemma OnlyRow(t: Table, cutoff: int, q: pos, k: nat, r: Row, s: Sample)
    requires Exclusive(t) && r in t && s in r.samples && cutoff <= k
    ensures s in SamplesOf(QueryGroup(t, cutoff, q, k)) <==> Start(r.ts, q) == k
  {
    var g := QueryGroup(t, cutoff, q, k);
    if Start(r.ts, q) == k {
      assert g[r] > 0;
    }
    if s in SamplesOf(g) {
      var r' :| r' in g && s in r'.samples;
      assert g[r'] > 0;
      assert r' == r;
    }
  }
}
