/** The collect loop as a run of events on the store, and what every run keeps. */
module Runs {
  import opened Rows
  import opened Ladder
  import opened Consolidation
  import opened Conservation

  /** The store, with the samples ever collected and those removed by pruning. */
  datatype Store = Store(table: Table, clock: nat, collected: set<Sample>, pruned: set<Sample>)

  const FRESH := Store(multiset{}, 0, {}, {})

  /** One step of the loop, at the wall-clock second `at`. A statement that fails changes nothing and
      is no event. */
  datatype Event =
    | Collect(at: nat, id: nat, cells: Cells)
    | Consolidate(at: nat)
    | Prune(at: nat, days: nat)

  /** The row `db_insert` adds: stamped now, carrying the collect interval as its bucket. */
  function RawRow(e: Event, interval: pos): Row
    requires e.Collect?
  {
    Row(e.at, Some(interval), e.cells, {Sample(e.id, e.at, e.cells)})
  }

  /** `DELETE FROM metrics WHERE timestamp < cutoff`. */
  ghost function Retained(t: Table, cutoff: int): (u: Table)
    ensures forall r {:trigger u[r]} :: u[r] == if r.ts < cutoff then 0 else t[r]
  {
    Filter(t, (r: Row) => r.ts >= cutoff)
  }

  ghost function Outdated(t: Table, cutoff: int): (u: Table)
    ensures forall r {:trigger u[r]} :: u[r] == if r.ts < cutoff then t[r] else 0
  {
    Filter(t, (r: Row) => r.ts < cutoff)
  }

  function Cutoff(at: nat, days: nat): int {
    at - days * 86400
  }

  ghost function Apply(s: Store, e: Event, ladder: seq<Tier>, interval: pos): Store {
    match e
    case Collect(at, id, cells) =>
      s.(table := s.table + multiset{RawRow(e, interval)}, clock := at,
         collected := s.collected + {Sample(id, at, cells)})
    case Consolidate(at) =>
      s.(table := Pass(s.table, ladder, at), clock := at)
    case Prune(at, days) =>
      s.(table := Retained(s.table, Cutoff(at, days)), clock := at,
         pruned := s.pruned + SamplesOf(Outdated(s.table, Cutoff(at, days))))
  }

  /** An event the loop can perform next: a sample id is used once. */
  ghost predicate NewSample(s: Store, e: Event) {
    e.Collect? ==> Sample(e.id, e.at, e.cells) !in s.collected
  }

  /** The store after a run from a fresh database. */
  ghost function After(events: seq<Event>, ladder: seq<Tier>, interval: pos): Store {
    if events == [] then FRESH
    else Apply(After(events[..|events| - 1], ladder, interval), events[|events| - 1], ladder, interval)
  }

  ghost predicate SamplesAreNew(events: seq<Event>, ladder: seq<Tier>, interval: pos) {
    forall i :: 0 <= i < |events| ==> NewSample(After(events[..i], ladder, interval), events[i])
  }

  /** The wall clock never goes back. */
  predicate ClockRises(events: seq<Event>) {
    forall i, j :: 0 <= i < j < |events| ==> events[i].at <= events[j].at
  }

  // --- Conservation over every run, whatever the clock does ---

  ghost predicate Accounted(s: Store) {
    && Exclusive(s.table)
    && SamplesOf(s.table) + s.pruned == s.collected
    && SamplesOf(s.table) !! s.pruned
  }

  lemma FreshAccounted()
    ensures Accounted(FRESH)
  {}

  lemma ApplyAccounts(s: Store, e: Event, ladder: seq<Tier>, interval: pos)
    requires Accounted(s) && NewSample(s, e)
    ensures Accounted(Apply(s, e, ladder, interval))
  {
    match e
    case Collect(at, id, cells) => CollectAccounts(s, e, ladder, interval);
    case Consolidate(at) => PassConserves(s.table, ladder, at);
    case Prune(at, days) => PruneAccounts(s, at, days, ladder, interval);
  }

  lemma CollectAccounts(s: Store, e: Event, ladder: seq<Tier>, interval: pos)
    requires Accounted(s) && NewSample(s, e) && e.Collect?
    ensures Accounted(Apply(s, e, ladder, interval))
  {
    var row := RawRow(e, interval);
    var u := s.table + multiset{row};
    var sample := Sample(e.id, e.at, e.cells);
    assert sample !in SamplesOf(s.table);
    assert row !in s.table;
    assert forall r :: r in u <==> r in s.table || r == row;
    assert SamplesOf(u) == SamplesOf(s.table) + {sample};
  }

  lemma PruneAccounts(s: Store, at: nat, days: nat, ladder: seq<Tier>, interval: pos)
    requires Accounted(s)
    ensures Accounted(Apply(s, Prune(at, days), ladder, interval))
  {
    PruneSplits(s.table, Cutoff(at, days));
  }

  /** Pruning splits the samples in two: no sample is both kept and removed. */
  lemma PruneSplits(t: Table, cut: int)
    requires Exclusive(t)
    ensures Exclusive(Retained(t, cut))
    ensures SamplesOf(Retained(t, cut)) + SamplesOf(Outdated(t, cut)) == SamplesOf(t)
    ensures SamplesOf(Retained(t, cut)) !! SamplesOf(Outdated(t, cut))
  {
    var kept, gone := Retained(t, cut), Outdated(t, cut);
    forall r ensures r in kept <==> r in t && r.ts >= cut { assert kept[r] == kept[r]; }
    forall r ensures r in gone <==> r in t && r.ts < cut { assert gone[r] == gone[r]; }
  }

  /** Over every run: each collected sample is represented exactly once until pruning removes it,
      and only pruning removes one. */
  lemma {:induction false} RunConserves(events: seq<Event>, ladder: seq<Tier>, interval: pos)
    requires SamplesAreNew(events, ladder, interval)
    ensures Accounted(After(events, ladder, interval))
  {
    hide Accounted, Apply;
    if events == [] {
      FreshAccounted();
    } else {
      var n := |events| - 1;
      forall i | 0 <= i < n ensures NewSample(After(events[..n][..i], ladder, interval), events[..n][i]) {
        assert events[..n][..i] == events[..i];
      }
      RunConserves(events[..n], ladder, interval);
      ApplyAccounts(After(events[..n], ladder, interval), events[n], ladder, interval);
    }
  }

  // --- The schedule of passes over a whole run ---

  /** The raw rows a run inserted. */
  function RawRows(events: seq<Event>, interval: pos): Table {
    if events == [] then multiset{}
    else
      var e := events[|events| - 1];
      RawRows(events[..|events| - 1], interval) + if e.Collect? then multiset{RawRow(e, interval)} else multiset{}
  }

  /** The cutoff lies inside a bucket of the tier that is due: pruning before the tier runs would take
      part of the bucket, pruning after it all of it. */
  predicate Straddles(cutoff: int, tier: Tier, now: int) {
    cutoff > 0 && cutoff % tier.size != 0 && DueBucket(Start(cutoff, tier.size), tier, now)
  }

  /** The cutoff lies inside no due bucket of any tier. */
  ghost predicate CutsBetween(cutoff: int, ladder: seq<Tier>, now: int) {
    forall i :: 0 <= i < |ladder| ==> !Straddles(cutoff, ladder[i], now)
  }

  /** A multiple of the widest tier is such a cutoff at any instant. */
  lemma WidestCuts(cutoff: nat, ladder: seq<Tier>, now: int)
    requires WellFormed(ladder) && ladder != [] && cutoff % ladder[|ladder| - 1].size == 0
    ensures CutsBetween(cutoff, ladder, now)
  {
    forall i | 0 <= i < |ladder| ensures cutoff % ladder[i].size == 0 {
      if i < |ladder| - 1 { MultipleOfMultiple(cutoff, ladder[i].size, ladder[|ladder| - 1].size); }
    }
  }

  /** A due bucket lies wholly on one side of such a cutoff. */
  lemma OneSide(cutoff: int, tier: Tier, now: int, k: nat)
    requires !Straddles(cutoff, tier, now) && k % tier.size == 0 && DueBucket(k, tier, now)
    ensures k >= cutoff || k + tier.size <= cutoff
  {
    if k < cutoff < k + tier.size {
      StartUnique(cutoff, tier.size, k);
      if cutoff % tier.size == 0 { MultiplesApart(k, cutoff, tier.size); }
    }
  }

  /** Then pruning and the tier can be exchanged. */
  lemma PruneStep(t: Table, tier: Tier, now: int, cutoff: int)
    requires !Straddles(cutoff, tier, now)
    ensures Retained(Step(t, tier, now), cutoff) == Step(Retained(t, cutoff), tier, now)
  {
    hide Step, Folded, Straddles;
    var u := Retained(t, cutoff);
    StepRows(t, tier, now);
    StepRows(u, tier, now);
    forall x ensures Retained(Step(t, tier, now), cutoff)[x] == Step(u, tier, now)[x] {
      PruneFolded(t, tier, now, cutoff, x);
    }
  }

  /** The folded rows the cutoff leaves are those folded from the rows it leaves. */
  lemma PruneFolded(t: Table, tier: Tier, now: int, cutoff: int, x: Row)
    requires !Straddles(cutoff, tier, now)
    ensures x in Folded(Retained(t, cutoff), tier, now) <==> x in Folded(t, tier, now) && x.ts >= cutoff
  {
    hide Straddles;
    var u := Retained(t, cutoff);
    if x in Folded(u, tier, now) {
      var r := FoldedFrom(u, tier, now, x);
      assert u[r] > 0;
      OneSide(cutoff, tier, now, x.ts);
      PruneGroup(t, tier, cutoff, x.ts);
    }
    if x in Folded(t, tier, now) && x.ts >= cutoff {
      var r := FoldedFrom(t, tier, now, x);
      assert u[r] > 0;
      PruneGroup(t, tier, cutoff, x.ts);
    }
  }

  lemma PruneGroup(t: Table, tier: Tier, cutoff: int, k: nat)
    requires k >= cutoff
    ensures Fold(Retained(t, cutoff), tier, k) == Fold(t, tier, k)
  {
    assert Group(Retained(t, cutoff), tier, k) == Group(t, tier, k);
    SameGroups(Retained(t, cutoff), t, tier, k);
  }

  lemma {:induction false} PruneTiers(t: Table, ladder: seq<Tier>, k: nat, now: int, cutoff: int)
    requires k <= |ladder| && CutsBetween(cutoff, ladder, now)
    ensures Retained(Tiers(t, ladder, k, now), cutoff) == Tiers(Retained(t, cutoff), ladder, k, now)
  {
    hide Step, Straddles;
    if k > 0 {
      PruneTiers(t, ladder, k - 1, now, cutoff);
      PruneStep(Tiers(t, ladder, k - 1, now), ladder[k - 1], now, cutoff);
    }
  }

  /** Pruning commutes with a pass when the cutoff lies inside no due bucket. */
  lemma PrunePass(t: Table, ladder: seq<Tier>, now: int, cutoff: int)
    requires CutsBetween(cutoff, ladder, now)
    ensures Retained(Pass(t, ladder, now), cutoff) == Pass(Retained(t, cutoff), ladder, now)
  {
    PruneTiers(t, ladder, |ladder|, now, cutoff);
  }

  /** No pruning of the run reaches past the cutoff. */
  predicate PrunesUpTo(events: seq<Event>, cutoff: int) {
    forall i :: 0 <= i < |events| && events[i].Prune? ==> Cutoff(events[i].at, events[i].days) <= cutoff
  }

  /** Over every run, prunings included: from any instant `c` on that no pruning has reached and that
      lies inside no due bucket (any multiple of the widest tier, for one), a pass no earlier than the
      last event gives the rows this pass alone would give on all the raw rows. When the earlier passes
      and prunings ran leaves no trace. Without prunings `c` can be 0, and then it is the whole table. */
  lemma {:induction false} RunSchedule(events: seq<Event>, ladder: seq<Tier>, interval: pos, n: nat, c: int)
    requires WellFormed(ladder) && ClockRises(events)
    requires forall i :: 0 <= i < |events| ==> events[i].at <= n
    requires CutsBetween(c, ladder, n) && PrunesUpTo(events, c)
    ensures Retained(Pass(After(events, ladder, interval).table, ladder, n), c)
            == Retained(Pass(RawRows(events, interval), ladder, n), c)
  {
    hide Pass, Retained, WellFormed, CutsBetween;
    if events != [] {
      var before, e := events[..|events| - 1], events[|events| - 1];
      var t, raw := After(before, ladder, interval).table, RawRows(before, interval);
      CutsEarlier(c, ladder, e.at, n);
      RunSchedule(before, ladder, interval, e.at, c);
      SameSince(t, raw, e, ladder, interval, n, c);
      if !e.Collect? { assert raw + multiset{} == raw; }
    }
  }

  lemma CutsEarlier(c: int, ladder: seq<Tier>, n1: nat, n2: nat)
    requires CutsBetween(c, ladder, n2) && n1 <= n2
    ensures CutsBetween(c, ladder, n1)
  {
    forall i | 0 <= i < |ladder| ensures !Straddles(c, ladder[i], n1) {
      assert !Straddles(c, ladder[i], n2);
    }
  }

  /** One more event keeps two tables the same since `c`: what it adds to the first, if it adds a row,
      is added to the second. */
  lemma SameSince(t: Table, raw: Table, e: Event, ladder: seq<Tier>, interval: pos, n: nat, c: int)
    requires WellFormed(ladder) && e.at <= n && CutsBetween(c, ladder, n)
    requires e.Prune? ==> Cutoff(e.at, e.days) <= c
    requires Retained(Pass(t, ladder, e.at), c) == Retained(Pass(raw, ladder, e.at), c)
    ensures Retained(Pass(Apply(Store(t, 0, {}, {}), e, ladder, interval).table, ladder, n), c)
            == Retained(Pass(raw + if e.Collect? then multiset{RawRow(e, interval)} else multiset{}, ladder, n), c)
  {
    hide Pass, WellFormed, CutsBetween;
    match e
    case Collect(_, _, _) =>
      LaterPass(t, multiset{RawRow(e, interval)}, ladder, e.at, n, c);
      LaterPass(raw, multiset{RawRow(e, interval)}, ladder, e.at, n, c);
    case Consolidate(at) =>
      PassAbsorbs(t, ladder, at, n);
      LaterPass(t, multiset{}, ladder, at, n, c);
      LaterPass(raw, multiset{}, ladder, at, n, c);
      assert t + multiset{} == t;
    case Prune(at, days) =>
      LaterPass(t, multiset{}, ladder, at, n, c);
      LaterPass(raw, multiset{}, ladder, at, n, c);
      assert t + multiset{} == t;
      var u := Retained(t, Cutoff(at, days));
      PrunePass(u, ladder, n, c);
      PrunePass(t, ladder, n, c);
      assert Retained(u, c) == Retained(t, c);
  }

  /** What a later pass leaves since `c` depends only on what the earlier pass left since `c`. */
  lemma LaterPass(t: Table, added: Table, ladder: seq<Tier>, n1: nat, n2: nat, c: int)
    requires WellFormed(ladder) && n1 <= n2 && CutsBetween(c, ladder, n2)
    requires forall r :: r in added ==> n1 <= r.ts
    ensures Retained(Pass(t + added, ladder, n2), c)
            == Pass(Retained(Pass(t, ladder, n1), c) + Retained(added, c), ladder, n2)
  {
    hide Pass, WellFormed, CutsBetween;
    ScheduleIndependence(t, added, ladder, n1, n2);
    PrunePass(Pass(t, ladder, n1) + added, ladder, n2, c);
    var u := Pass(t, ladder, n1);
    assert Retained(u + added, c) == Retained(u, c) + Retained(added, c);
  }
}
