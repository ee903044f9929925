/** What the values of a row say about the samples behind it, over every run. */
module Columns {
  import opened Rows
  import opened Ladder
  import opened Consolidation
  import opened Runs

  /** Each value lies between two of the samples the row represents, and is NULL exactly when it is
      NULL in all of them. */
  ghost predicate Faithful(r: Row) {
    forall c :: FaithfulIn(r, c)
  }

  ghost predicate FaithfulIn(r: Row, c: Column) {
    && (c in r.cells <==> exists s :: s in r.samples && c in s.cells)
    && (c in r.cells ==> exists s, s' :: s in r.samples && s' in r.samples && Between(s, r, s', c))
  }

  ghost predicate Between(s: Sample, r: Row, s': Sample, c: Column) {
    c in s.cells && c in r.cells && c in s'.cells && s.cells[c] <= r.cells[c] <= s'.cells[c]
  }

  /** The groups `db_insert` writes or leaves NULL as a whole, and the CPU shares, which add up. */
  predicate WellGrouped(cells: Cells) {
    && {Load1m, Load5m, Load15m, MemTotal, MemAvailable, DiskTotal, DiskAvailable, Uptime} <= cells.Keys
    && (CpuUser in cells <==> CpuSystem in cells)
    && (CpuUser in cells <==> CpuIdle in cells)
    && (CpuUser in cells ==> cells[CpuUser] + cells[CpuSystem] + cells[CpuIdle] == 100.0)
    && (NetRx in cells <==> NetTx in cells)
    && (SwapTotal in cells <==> SwapFree in cells)
    && (SwapIn in cells <==> SwapOut in cells)
    && (SwapIn in cells ==> SwapTotal in cells)
  }

  ghost predicate Sound(t: Table) {
    forall r :: r in t ==> Faithful(r) && WellGrouped(r.cells)
  }

  // --- One group ---

  lemma FoldFaithful(t: Table, tier: Tier, k: nat)
    requires Sound(t)
    ensures Faithful(Fold(t, tier, k))
  {
    hide FaithfulIn, Averages;
    var g, x := Group(t, tier, k), Fold(t, tier, k);
    forall r | r in g ensures Faithful(r) { assert r in t; }
    forall c ensures FaithfulIn(x, c) {
      FoldColumn(g, x, c);
    }
  }

  lemma FoldColumn(g: Table, x: Row, c: Column)
    requires forall r :: r in g ==> Faithful(r)
    requires x.cells == Averages(g) && x.samples == SamplesOf(g)
    ensures FaithfulIn(x, c)
  {
    hide FaithfulIn, Sum, Count;
    CountPositive(g, c);
    if c in x.cells {
      FoldHull(g, x, c);
    } else {
      forall s | s in x.samples ensures c !in s.cells {
        var r :| r in g && s in r.samples;
        assert c !in r.cells;
        NullInRow(r, c, s);
      }
      NullFaithful(x, c);
    }
  }

  lemma NullInRow(r: Row, c: Column, s: Sample)
    requires Faithful(r) && c !in r.cells && s in r.samples
    ensures c !in s.cells
  {
    assert FaithfulIn(r, c);
  }

  lemma NullFaithful(x: Row, c: Column)
    requires c !in x.cells && forall s :: s in x.samples ==> c !in s.cells
    ensures FaithfulIn(x, c)
  {}

  lemma HullFaithful(x: Row, c: Column, s: Sample, s': Sample)
    requires s in x.samples && s' in x.samples && Between(s, x, s', c)
    ensures FaithfulIn(x, c)
  {}

  lemma RowHull(r: Row, c: Column) returns (s: Sample, s': Sample)
    requires Faithful(r) && c in r.cells
    ensures s in r.samples && s' in r.samples && Between(s, r, s', c)
  {
    assert FaithfulIn(r, c);
    s, s' :| s in r.samples && s' in r.samples && Between(s, r, s', c);
  }

  lemma FoldHull(g: Table, x: Row, c: Column)
    requires forall r :: r in g ==> Faithful(r)
    requires x.cells == Averages(g) && x.samples == SamplesOf(g) && c in x.cells
    ensures FaithfulIn(x, c)
  {
    hide FaithfulIn, Faithful, Sum, Count, Averages;
    AverageInHull(g, c);
    var r, r' :| r in g && r' in g && c in r.cells && c in r'.cells
                 && r.cells[c] <= Averages(g)[c] <= r'.cells[c];
    var s, _ := RowHull(r, c);
    var _, s' := RowHull(r', c);
    HullFaithful(x, c, s, s');
  }

  /** Columns that are NULL in the same rows of a group have the same COUNT. */
  lemma {:induction false} SameCount(g: Table, c: Column, d: Column)
    requires forall r :: r in g ==> (c in r.cells <==> d in r.cells)
    ensures Count(g, c) == Count(g, d)
    decreases |g|
  {
    if g != multiset{} { SameCount(g - multiset{Pick(g)}, c, d); }
  }

  /** The CPU shares add up to 100 in the sums, hence in the averages. */
  lemma {:induction false} CpuSums(g: Table)
    requires forall r :: r in g ==> WellGrouped(r.cells)
    ensures Sum(g, CpuUser) + Sum(g, CpuSystem) + Sum(g, CpuIdle) == Times(Count(g, CpuUser), 100.0)
    decreases |g|
  {
    if g != multiset{} { CpuSums(g - multiset{Pick(g)}); }
  }

  lemma SharesAddUp(u: real, s: real, i: real, n: real)
    requires n != 0.0 && u + s + i == n * 100.0
    ensures u / n + s / n + i / n == 100.0
  {
    assert (u + s + i) / n == u / n + s / n + i / n;
  }

  lemma FoldGrouped(g: Table)
    requires g != multiset{}
    requires forall r :: r in g ==> WellGrouped(r.cells)
    ensures WellGrouped(Averages(g))
  {
    hide Sum, Count;
    forall c ensures c in Averages(g) <==> exists r :: r in g && c in r.cells {
      CountPositive(g, c);
    }
    var p := Pick(g);
    assert p in g && WellGrouped(p.cells);
    SameCount(g, CpuUser, CpuSystem);
    SameCount(g, CpuUser, CpuIdle);
    SameCount(g, NetRx, NetTx);
    SameCount(g, SwapTotal, SwapFree);
    SameCount(g, SwapIn, SwapOut);
    if CpuUser in Averages(g) {
      CpuSums(g);
      TimesIsProduct(Count(g, CpuUser), 100.0);
      SharesAddUp(Sum(g, CpuUser), Sum(g, CpuSystem), Sum(g, CpuIdle), Count(g, CpuUser) as real);
    }
  }

  // --- Every run ---

  lemma StepSound(t: Table, tier: Tier, now: int)
    requires Sound(t)
    ensures Sound(Step(t, tier, now))
  {
    hide Step, Folded, Faithful, WellGrouped;
    StepRows(t, tier, now);
    var u := Step(t, tier, now);
    forall x | x in u ensures Faithful(x) && WellGrouped(x.cells) {
      assert u[x] > 0;
      if x in Folded(t, tier, now) {
        var r := FoldedFrom(t, tier, now, x);
        assert r in Group(t, tier, x.ts);
        FoldFaithful(t, tier, x.ts);
        FoldGrouped(Group(t, tier, x.ts));
      }
    }
  }

  lemma {:induction false} TiersSound(t: Table, ladder: seq<Tier>, k: nat, now: int)
    requires k <= |ladder| && Sound(t)
    ensures Sound(Tiers(t, ladder, k, now))
  {
    hide Step, Sound;
    if k > 0 {
      TiersSound(t, ladder, k - 1, now);
      StepSound(Tiers(t, ladder, k - 1, now), ladder[k - 1], now);
    }
  }

  lemma RawSound(e: Event, interval: pos)
    requires e.Collect? && WellGrouped(e.cells)
    ensures Faithful(RawRow(e, interval))
  {
    var r := RawRow(e, interval);
    var s := Sample(e.id, e.at, e.cells);
    assert s in r.samples;
    forall c ensures FaithfulIn(r, c) {
      if c in r.cells { HullFaithful(r, c, s, s); }
    }
  }

  lemma PassSound(t: Table, ladder: seq<Tier>, now: int)
    requires Sound(t)
    ensures Sound(Pass(t, ladder, now))
  {
    TiersSound(t, ladder, |ladder|, now);
  }

  /** Over every run of a fresh database, whatever the clock does. */
  lemma {:induction false} RunSound(events: seq<Event>, ladder: seq<Tier>, interval: pos)
    requires forall i :: 0 <= i < |events| && events[i].Collect? ==> WellGrouped(events[i].cells)
    ensures Sound(After(events, ladder, interval).table)
  {
    hide Pass, Faithful, WellGrouped;
    if events != [] {
      var before, e := events[..|events| - 1], events[|events| - 1];
      RunSound(before, ladder, interval);
      var t := After(before, ladder, interval).table;
      match e
      case Collect(_, _, _) => RawSound(e, interval);
      case Consolidate(at) => PassSound(t, ladder, at);
      case Prune(at, days) =>
        var u := Retained(t, Cutoff(at, days));
        forall r | r in u ensures r in t { assert u[r] > 0; }
    }
  }
}
