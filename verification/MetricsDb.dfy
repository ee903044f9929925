/** The database handle: the statements of a collect cycle, each against the tables it changes. */
module MetricsDb {
  import opened Rows
  import opened Ladder
  import opened Consolidation
  import opened TableRows
  import opened Runs
  import opened Collector
  import RangeQuery
  import Columns
  import Answers

  /** One row of alert_log. */
  datatype Firing = Firing(name: string, at: nat)

  class Db {
    const interval: pos
    var metrics: seq<Row>
    var alertLog: seq<Firing>

    /** A missing file is created with empty tables. */
    constructor (interval: pos)
      ensures this.interval == interval && metrics == [] && alertLog == []
    {
      this.interval := interval;
      metrics, alertLog := [], [];
    }

    /** The rows of the metrics table, in no order. */
    ghost function Table(): Table
      reads this`metrics
    {
      multiset(metrics)
    }

    /** `db_insert`: one row stamped now, or nothing and -1. */
    method Insert(now: nat, id: nat, m: Metrics, fails: bool) returns (rc: int)
      modifies this`metrics
      ensures rc == if fails then -1 else 0
      ensures metrics == if fails then old(metrics) else old(metrics) + [RawRow(Collect(now, id, BindCells(m)), interval)]
      ensures !fails ==> var row := metrics[|old(metrics)|];
                         && row.ts == now && row.bucketSec == Some(interval)
                         && StoresAlways(row.cells, m) && StoresIfValid(row.cells, m)
    {
      hide BindCells, StoresAlways, StoresIfValid;
      BoundIsStored(m);
      if fails { return -1; }
      metrics := metrics + [Row(now, Some(interval), BindCells(m), {Sample(id, now, BindCells(m))})];
      return 0;
    }

    /** INSERT .. SELECT .. GROUP BY of one tier. The SELECT works on the rows as they were. */
    method InsertFoldedRows(tier: Tier, now: int)
      modifies this`metrics
      ensures Table() == InsertFolded(old(Table()), tier, now)
    {
      hide AddEach, Fold, FoldOf, Due;
      var rows := metrics;
      var starts := DueStarts(rows, tier, now);
      ghost var t := multiset(rows);
      AddNone(t);
      for i := 0 to |starts|
        invariant Table() == AddEach(t, FoldsAt(t, tier, starts[..i]))
      {
        assert starts[..i + 1] == starts[..i] + [starts[i]];
        FoldOfIsFold(rows, tier, starts[i]);
        metrics := metrics + [FoldOf(rows, tier, starts[i])];
        AddNextFold(t, tier, starts, i);
      }
      assert starts[..|starts|] == starts;
      assert FoldsAt(t, tier, starts) == Folded(t, tier, now);
    }

    /** DELETE of one tier, with the WHERE clause of its INSERT. */
    method DeleteDueRows(tier: Tier, now: int)
      modifies this`metrics
      ensures Table() == DeleteDue(old(Table()), tier, now)
    {
      hide Filter;
      var kept: seq<Row> := [];
      for i := 0 to |metrics|
        invariant multiset(kept) == DeleteDue(multiset(metrics[..i]), tier, now)
      {
        assert metrics[..i + 1] == metrics[..i] + [metrics[i]];
        if !Due(metrics[i], tier, now) {
          kept := kept + [metrics[i]];
        }
      }
      assert metrics[..|metrics|] == metrics;
      metrics := kept;
    }

    /** `db_consolidate`: BEGIN IMMEDIATE, the two statements of each tier against one instant, COMMIT.
        `failing` is the statement that reports an error, if any: 0 is BEGIN, 2 * i + 1 and 2 * i + 2
        those of tier i, the last one COMMIT. On an error everything is rolled back. */
    method Consolidate(now: nat, failing: Option<nat>) returns (rc: int)
      modifies this`metrics
      ensures rc == if failing.Some? && failing.value <= 2 * |LADDER| + 1 then -1 else 0
      ensures rc == 0 ==> Table() == Pass(old(Table()), LADDER, now)
      ensures rc == -1 ==> metrics == old(metrics)
    {
      hide Step, InsertFolded, DeleteDue;
      var before := metrics;
      if failing == Some(0) { return -1; }
      for i := 0 to |LADDER|
        invariant Table() == Tiers(old(Table()), LADDER, i, now)
        invariant !(failing.Some? && failing.value <= 2 * i)
      {
        if failing == Some(2 * i + 1) { metrics := before; return -1; }
        InsertFoldedRows(LADDER[i], now);
        if failing == Some(2 * i + 2) { metrics := before; return -1; }
        DeleteDueRows(LADDER[i], now);
        StepIs(Tiers(old(Table()), LADDER, i, now), LADDER[i], now);
      }
      if failing == Some(2 * |LADDER| + 1) { metrics := before; return -1; }
      return 0;
    }

    /** `db_prune`: the same cutoff for both tables, in two statements; a failure of the second leaves
        the first done. */
    method Prune(now: nat, days: nat, metricsFails: bool, alertsFails: bool) returns (rc: int)
      modifies this`metrics, this`alertLog
      ensures rc == if metricsFails || alertsFails then -1 else 0
      ensures metricsFails ==> metrics == old(metrics) && alertLog == old(alertLog)
      ensures !metricsFails ==> Table() == Retained(old(Table()), Cutoff(now, days))
      ensures !metricsFails ==> alertLog == if alertsFails then old(alertLog) else LogSince(old(alertLog), Cutoff(now, days))
    {
      hide Filter;
      var cutoff := Cutoff(now, days);
      if metricsFails { return -1; }
      var kept: seq<Row> := [];
      for i := 0 to |metrics|
        invariant multiset(kept) == Retained(multiset(metrics[..i]), cutoff)
      {
        assert metrics[..i + 1] == metrics[..i] + [metrics[i]];
        if metrics[i].ts >= cutoff {
          kept := kept + [metrics[i]];
        }
      }
      assert metrics[..|metrics|] == metrics;
      metrics := kept;
      if alertsFails { return -1; }
      alertLog := LogSince(alertLog, cutoff);
      return 0;
    }

    /** `db_count_range`. */
    method CountRange(now: nat, range: nat) returns (count: nat)
      ensures count == |Retained(Table(), now - range)|
    {
      var window := Where(metrics, (r: Row) => r.ts >= now - range);
      WhereIsFilter(metrics, (r: Row) => r.ts >= now - range);
      assert multiset(window) == Retained(Table(), now - range);
      assert |multiset(window)| == |window|;
      count := |window|;
    }

    /** `db_query_range`: raw rows in time order for `q` <= 0, else one averaged row per bucket. */
    method QueryRange(now: nat, range: nat, q: int) returns (points: seq<RangeQuery.Point>)
      ensures q <= 0 ==> RangeQuery.IsRaw(points, Table(), now - range)
      ensures q > 0 ==> RangeQuery.IsBucketed(points, Table(), now - range, q)
      ensures Columns.Sound(Table()) ==>
                forall i :: 0 <= i < |points| ==> Columns.Faithful(Answers.RowOf(points[i])) && Columns.WellGrouped(points[i].cells)
    {
      hide RangeQuery.IsRaw, RangeQuery.IsBucketed, IsOrderOf, StampedIn, RangeQuery.HasTime, BucketPoint, Columns.Sound,
           Columns.Faithful, Columns.WellGrouped;
      var window := Where(metrics, (r: Row) => r.ts >= now - range);
      WhereIsFilter(metrics, (r: Row) => r.ts >= now - range);
      if q <= 0 {
        points := QueryRaw(window);
        RawOrderOf(points, Table(), window, now - range);
        if Columns.Sound(Table()) { Answers.RawSoundAsRead(points, Table(), now - range); }
      } else {
        points := QueryBuckets(window, q);
        WindowBuckets(points, metrics, window, now - range, q);
        if Columns.Sound(Table()) { Answers.BucketedSound(points, Table(), now - range, q); }
      }
    }
  }

  function LogSince(log: seq<Firing>, cutoff: int): (kept: seq<Firing>)
    ensures forall f :: f in kept <==> f in log && f.at >= cutoff
  {
    if log == [] then []
    else LogSince(log[..|log| - 1], cutoff) + if log[|log| - 1].at >= cutoff then [log[|log| - 1]] else []
  }

  /** A pruning keeps each firing recorded from the cutoff on as often as it was recorded. */
  lemma {:induction false} LogSinceKeeps(log: seq<Firing>, cutoff: int, f: Firing)
    ensures multiset(LogSince(log, cutoff))[f] == if f.at >= cutoff then multiset(log)[f] else 0
  {
    if log != [] {
      var n := |log| - 1;
      assert log == log[..n] + [log[n]];
      LogSinceKeeps(log[..n], cutoff, f);
    }
  }

  /** ORDER BY ts. */
  method OrderByTime(window: seq<Row>) returns (rows: seq<Row>)
    ensures multiset(rows) == multiset(window) && RangeQuery.InTimeOrder(rows)
  {
    rows := [];
    for i := 0 to |window|
      invariant multiset(rows) == multiset(window[..i])
      invariant RangeQuery.InTimeOrder(rows)
    {
      assert window[..i + 1] == window[..i] + [window[i]];
      rows := RangeQuery.InsertInOrder(rows, window[i]);
    }
    assert window[..|window|] == window;
  }

  method QueryRaw(window: seq<Row>) returns (points: seq<RangeQuery.Point>)
    ensures IsOrderOf(points, window)
  {
    var rows := OrderByTime(window);
    points := [];
    for i := 0 to |rows|
      invariant |points| == i
      invariant forall j :: 0 <= j < i ==> points[j] == RangeQuery.PointOf(rows[j])
    {
      points := points + [RangeQuery.PointOf(rows[i])];
    }
    assert PointsInOrder(rows, points, window);
  }

  ghost predicate IsOrderOf(points: seq<RangeQuery.Point>, window: seq<Row>) {
    exists rows: seq<Row> :: PointsInOrder(rows, points, window)
  }

  ghost predicate PointsInOrder(rows: seq<Row>, points: seq<RangeQuery.Point>, window: seq<Row>) {
    && multiset(rows) == multiset(window) && RangeQuery.InTimeOrder(rows) && |points| == |rows|
    && forall i :: 0 <= i < |rows| ==> points[i] == RangeQuery.PointOf(rows[i])
  }

  lemma RawOrderOf(points: seq<RangeQuery.Point>, t: Table, window: seq<Row>, cutoff: int)
    requires IsOrderOf(points, window)
    requires multiset(window) == Filter(t, (r: Row) => r.ts >= cutoff)
    ensures RangeQuery.IsRaw(points, t, cutoff)
  {
    var rows :| PointsInOrder(rows, points, window);
    assert RangeQuery.RawOrder(rows, points, t, cutoff);
  }

  /** GROUP BY bkt ORDER BY bkt. */
  method QueryBuckets(window: seq<Row>, q: pos) returns (points: seq<RangeQuery.Point>)
    ensures forall i, j :: 0 <= i < j < |points| ==> points[i].time < points[j].time
    ensures forall k :: RangeQuery.HasTime(points, k) <==> StampedIn(window, q, k)
    ensures forall i :: 0 <= i < |points| ==> points[i] == BucketPoint(window, q, points[i].time)
  {
    hide BucketPoint;
    var starts: seq<nat> := [];
    for i := 0 to |window|
      invariant RangeQuery.Ascending(starts)
      invariant forall k :: k in starts <==> StampedIn(window[..i], q, k)
    {
      assert window[..i + 1] == window[..i] + [window[i]];
      starts := RangeQuery.InsertKey(starts, Start(window[i].ts, q));
    }
    assert window[..|window|] == window;
    points := [];
    for i := 0 to |starts|
      invariant |points| == i
      invariant forall j :: 0 <= j < i ==> points[j].time == starts[j] && points[j] == BucketPoint(window, q, starts[j])
    {
      BucketTime(window, q, starts[i]);
      points := points + [BucketPoint(window, q, starts[i])];
    }
    forall k ensures RangeQuery.HasTime(points, k) <==> k in starts {
      if k in starts {
        var i :| 0 <= i < |starts| && starts[i] == k;
        assert points[i].time == k;
      }
    }
  }

  /** Some row is stamped in the query bucket starting at `k`. */
  ghost predicate StampedIn(rows: seq<Row>, q: pos, k: nat) {
    exists r :: r in rows && Start(r.ts, q) == k
  }

  function BucketPoint(window: seq<Row>, q: pos, k: nat): RangeQuery.Point {
    var g := Where(window, (r: Row) => Start(r.ts, q) == k);
    RangeQuery.Point(k, AveragesOf(g), SamplesIn(g))
  }

  lemma BucketTime(window: seq<Row>, q: pos, k: nat)
    ensures BucketPoint(window, q, k).time == k
  {}

  lemma BucketPointIs(rows: seq<Row>, window: seq<Row>, cutoff: int, q: pos, k: nat)
    requires multiset(window) == Filter(multiset(rows), (r: Row) => r.ts >= cutoff)
    ensures var g := RangeQuery.QueryGroup(multiset(rows), cutoff, q, k);
            && BucketPoint(window, q, k) == RangeQuery.Point(k, Averages(g), SamplesOf(g))
            && (g != multiset{} <==> StampedIn(window, q, k))
  {
    hide Averages, AveragesOf;
    var p := (r: Row) => Start(r.ts, q) == k;
    var sel := Where(window, p);
    WhereIsFilter(window, p);
    var g := RangeQuery.QueryGroup(multiset(rows), cutoff, q, k);
    forall r ensures multiset(sel)[r] == g[r] {}
    assert multiset(sel) == g;
    AveragesOfIsAverages(sel);
    assert SamplesIn(sel) == SamplesOf(multiset(sel));
    if r :| r in window && Start(r.ts, q) == k {
      assert g[r] > 0;
    }
    if g != multiset{} {
      var r := Pick(g);
      assert g[r] > 0;
      assert multiset(window)[r] > 0;
    }
  }

  lemma WindowBuckets(points: seq<RangeQuery.Point>, rows: seq<Row>, window: seq<Row>, cutoff: int, q: pos)
    requires multiset(window) == Filter(multiset(rows), (r: Row) => r.ts >= cutoff)
    requires forall i, j :: 0 <= i < j < |points| ==> points[i].time < points[j].time
    requires forall k :: RangeQuery.HasTime(points, k) <==> StampedIn(window, q, k)
    requires forall i :: 0 <= i < |points| ==> points[i] == BucketPoint(window, q, points[i].time)
    ensures RangeQuery.IsBucketed(points, multiset(rows), cutoff, q)
  {
    hide BucketPoint, Averages;
    forall k ensures var g := RangeQuery.QueryGroup(multiset(rows), cutoff, q, k);
                     && BucketPoint(window, q, k) == RangeQuery.Point(k, Averages(g), SamplesOf(g))
                     && (g != multiset{} <==> StampedIn(window, q, k))
    {
      BucketPointIs(rows, window, cutoff, q, k);
    }
  }

  lemma StepIs(t: Table, tier: Tier, now: int)
    ensures Step(t, tier, now) == DeleteDue(InsertFolded(t, tier, now), tier, now)
  {}

  /** The distinct starts of the due buckets: the GROUP BY keys. */
  method DueStarts(rows: seq<Row>, tier: Tier, now: int) returns (starts: seq<nat>)
    ensures forall k :: k in starts <==> exists r :: r in rows && Due(r, tier, now) && Start(r.ts, tier.size) == k
    ensures forall a, b :: 0 <= a < b < |starts| ==> starts[a] != starts[b]
  {
    starts := [];
    for i := 0 to |rows|
      invariant forall k :: k in starts <==> exists r :: r in rows[..i] && Due(r, tier, now) && Start(r.ts, tier.size) == k
      invariant forall a, b :: 0 <= a < b < |starts| ==> starts[a] != starts[b]
    {
      var r := rows[i];
      assert rows[..i + 1] == rows[..i] + [r];
      if Due(r, tier, now) && Start(r.ts, tier.size) !in starts {
        starts := starts + [Start(r.ts, tier.size)];
      }
    }
    assert rows[..|rows|] == rows;
  }

  ghost function FoldsAt(t: Table, tier: Tier, starts: seq<nat>): set<Row> {
    set k | k in starts :: Fold(t, tier, k)
  }

  lemma AddNone(t: Table)
    ensures AddEach(t, {}) == t
  {}

  lemma AddNextFold(t: Table, tier: Tier, starts: seq<nat>, i: nat)
    requires i < |starts| && forall a, b :: 0 <= a < b < |starts| ==> starts[a] != starts[b]
    ensures AddEach(t, FoldsAt(t, tier, starts[..i + 1]))
            == AddEach(t, FoldsAt(t, tier, starts[..i])) + multiset{Fold(t, tier, starts[i])}
  {
    hide AddEach;
    var x := Fold(t, tier, starts[i]);
    assert x !in FoldsAt(t, tier, starts[..i]);
    assert starts[..i + 1] == starts[..i] + [starts[i]];
    assert FoldsAt(t, tier, starts[..i + 1]) == FoldsAt(t, tier, starts[..i]) + {x};
    forall r ensures AddEach(t, FoldsAt(t, tier, starts[..i + 1]))[r]
                     == (AddEach(t, FoldsAt(t, tier, starts[..i])) + multiset{x})[r] {}
  }
}
