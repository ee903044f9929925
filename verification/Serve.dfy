/** The collect loop of the daemon on its database: collect, insert, consolidate, prune, cycle after
    cycle, restarts included. */
module Serve {
  import opened Rows
  import opened Ladder
  import opened Consolidation
  import opened Runs
  import opened Buckets
  import opened Columns
  import opened RowBound
  import opened Collector
  import opened MetricsDb

  /** What one cycle meets: what the kernel says, and for each database call its clock reading and
      whether it fails. */
  datatype Wake = Wake(readings: Readings,
                       insertAt: nat, insertFails: bool,
                       foldAt: nat, foldFailing: Option<nat>,
                       pruneAt: nat, pruneFails: bool, alertPruneFails: bool)

  /** The cycle stores its sample. */
  predicate Stores(w: Wake) {
    w.readings.load.Some? && w.readings.mem.Some? && w.readings.disk.Some? && w.readings.uptime.Some? && !w.insertFails
  }

  predicate Folds(w: Wake) {
    !(w.foldFailing.Some? && w.foldFailing.value <= 2 * |LADDER| + 1)
  }

  /** The cycle prunes alert_log: the second of the two statements. */
  predicate PrunesLog(w: Wake) { !w.pruneFails && !w.alertPruneFails }

  /** The events of a cycle that stored its sample; a consolidation or pruning that failed is none. */
  function CycleEvents(w: Wake, id: nat, cells: Cells, days: nat): seq<Event> {
    [Collect(w.insertAt, id, cells)]
    + (if Folds(w) then [Consolidate(w.foldAt)] else [])
    + (if w.pruneFails then [] else [Prune(w.pruneAt, days)])
  }

  /** Samples are numbered as they come, below `next`. */
  ghost predicate Numbered(events: seq<Event>, next: nat) {
    && (forall i :: 0 <= i < |events| && events[i].Collect? ==> events[i].id < next)
    && (forall i, j :: 0 <= i < j < |events| && events[i].Collect? && events[j].Collect? ==> events[i].id < events[j].id)
  }

  lemma {:induction false} CollectedIds(events: seq<Event>, ladder: seq<Tier>, interval: pos)
    ensures forall s :: s in After(events, ladder, interval).collected
                        ==> exists i :: 0 <= i < |events| && events[i].Collect? && events[i].id == s.id
  {
    hide Pass;
    if events != [] {
      var n := |events| - 1;
      CollectedIds(events[..n], ladder, interval);
      forall s | s in After(events, ladder, interval).collected
        ensures exists i :: 0 <= i < |events| && events[i].Collect? && events[i].id == s.id
      {
        if s in After(events[..n], ladder, interval).collected {
          var i :| 0 <= i < n && events[..n][i].Collect? && events[..n][i].id == s.id;
          assert events[i].Collect? && events[i].id == s.id;
        } else {
          assert events[n].Collect? && events[n].id == s.id;
        }
      }
    }
  }

  lemma NumberedAreNew(events: seq<Event>, next: nat, ladder: seq<Tier>, interval: pos)
    requires Numbered(events, next)
    ensures SamplesAreNew(events, ladder, interval)
  {
    hide After;
    forall i | 0 <= i < |events| ensures NewSample(After(events[..i], ladder, interval), events[i]) {
      CollectedIds(events[..i], ladder, interval);
    }
  }

  lemma AfterOne(events: seq<Event>, e: Event, ladder: seq<Tier>, interval: pos)
    ensures After(events + [e], ladder, interval) == Apply(After(events, ladder, interval), e, ladder, interval)
  {
    hide Apply;
    assert (events + [e])[..|events|] == events;
  }

  lemma NumberedMore(events: seq<Event>, e: Event, next: nat)
    requires Numbered(events, next)
    ensures !e.Collect? ==> Numbered(events + [e], next)
    ensures e.Collect? && e.id == next ==> Numbered(events + [e], next + 1)
  {}

  /** The database half of a cycle: insert, consolidate, prune. A sample that cannot be stored ends it; a
      failed consolidation or pruning does not. */
  method Record(m: Metrics, db: Db, days: nat, w: Wake, id: nat, ghost past: seq<Event>) returns (ghost run: seq<Event>)
    requires Numbered(past, id) && db.Table() == After(past, LADDER, db.interval).table
    modifies db`metrics, db`alertLog
    ensures run == if w.insertFails then past else past + CycleEvents(w, id, BindCells(m), days)
    ensures db.alertLog == if w.insertFails || w.pruneFails || w.alertPruneFails then old(db.alertLog)
                           else LogSince(old(db.alertLog), Cutoff(w.pruneAt, days))
    ensures Numbered(run, id + 1) && db.Table() == After(run, LADDER, db.interval).table
  {
    hide Pass, Retained, After, Numbered, BindCells, LogSince, Cutoff, StoresAlways, StoresIfValid;
    run := past;
    NumberedHigher(past, id);
    var stored := db.Insert(w.insertAt, id, m, w.insertFails);
    if stored != 0 { return; }
    ghost var cells := BindCells(m);
    run := Happens(run, Collect(w.insertAt, id, cells), id, db.interval);
    assert db.Table() == After(run, LADDER, db.interval).table;

    var folded := db.Consolidate(w.foldAt, w.foldFailing);
    if folded == 0 {
      run := Happens(run, Consolidate(w.foldAt), id + 1, db.interval);
    }
    assert db.Table() == After(run, LADDER, db.interval).table;

    var _ := db.Prune(w.pruneAt, days, w.pruneFails, w.alertPruneFails);
    if !w.pruneFails {
      run := Happens(run, Prune(w.pruneAt, days), id + 1, db.interval);
    }
    EventsInOrder(past, w, id, cells, days);
  }

  lemma EventsInOrder(past: seq<Event>, w: Wake, id: nat, cells: Cells, days: nat)
    ensures var run := past + [Collect(w.insertAt, id, cells)];
            var folded := if Folds(w) then run + [Consolidate(w.foldAt)] else run;
            past + CycleEvents(w, id, cells, days) == if w.pruneFails then folded else folded + [Prune(w.pruneAt, days)]
  {}

  /** The history one event longer. */
  lemma Happens(events: seq<Event>, e: Event, next: nat, interval: pos) returns (run: seq<Event>)
    requires Numbered(events, next) && (e.Collect? ==> e.id == next)
    ensures run == events + [e] && Numbered(run, if e.Collect? then next + 1 else next)
    ensures var t := After(events, LADDER, interval).table;
            After(run, LADDER, interval).table
            == match e
               case Collect(_, _, _) => t + multiset{RawRow(e, interval)}
               case Consolidate(at) => Pass(t, LADDER, at)
               case Prune(at, days) => Retained(t, Cutoff(at, days))
  {
    hide Pass, Retained, After;
    run := events + [e];
    NumberedMore(events, e, next);
    AfterOne(events, e, LADDER, interval);
  }

  /** One cycle: a sample that cannot be collected ends it. `run` is `past` with the cycle's events. */
  method Cycle(sampler: Sampler, db: Db, days: nat, w: Wake, id: nat, pageSize: nat, ghost past: seq<Event>)
    returns (ghost run: seq<Event>)
    requires Numbered(past, id) && db.Table() == After(past, LADDER, db.interval).table
    modifies sampler, db`metrics, db`alertLog
    ensures run == if Stores(w) then past + CycleEvents(w, id, BindCells(sampler.Sampled()), days) else past
    ensures db.alertLog == if Stores(w) && PrunesLog(w) then LogSince(old(db.alertLog), Cutoff(w.pruneAt, days)) else old(db.alertLog)
    ensures Numbered(run, id + 1) && db.Table() == After(run, LADDER, db.interval).table
    ensures sampler.Holds() == Collected(old(sampler.Holds()), w.readings, pageSize)
    ensures sampler.prevCpu == old(sampler.prevCpu) || sampler.prevCpu == w.readings.cpu
    ensures Stores(w) && TicksFitBetween(old(sampler.prevCpu), w.readings.cpu) ==> WellGrouped(BindCells(sampler.Sampled()))
  {
    hide After, Numbered, BindCells, WellGrouped, TicksFit, CounterRates, TotalTicks, CycleEvents, Collected;
    var rc := sampler.Collect(w.readings, pageSize);
    if rc != 0 {
      NumberedHigher(past, id);
      return past;
    }
    run := Record(sampler.Sampled(), db, days, w, id, past);
  }

  /** Two consecutive CPU readings, if there are two, give ticks that fit 64 bits. */
  predicate TicksFitBetween(before: Option<CpuRaw>, now: Option<CpuRaw>) {
    before.Some? && now.Some? ==> TicksFit(before.value, now.value)
  }

  lemma NumberedHigher(events: seq<Event>, next: nat)
    requires Numbered(events, next)
    ensures Numbered(events, next + 1)
  {}

  /** Every group of CPU counters only moves forward, from the snapshot the sampler holds on. */
  ghost predicate CountersAdvance(seed: Option<CpuRaw>, wakes: seq<Wake>) {
    && (forall i :: 0 <= i < |wakes| && seed.Some? && wakes[i].readings.cpu.Some?
                    ==> GroupsAdvance(seed.value, wakes[i].readings.cpu.value))
    && (forall i, j :: 0 <= i < j < |wakes| && wakes[i].readings.cpu.Some? && wakes[j].readings.cpu.Some?
                       ==> GroupsAdvance(wakes[i].readings.cpu.value, wakes[j].readings.cpu.value))
  }

  ghost predicate Grouped(events: seq<Event>) {
    forall i :: 0 <= i < |events| && events[i].Collect? ==> WellGrouped(events[i].cells)
  }

  lemma GroupedMore(past: seq<Event>, w: Wake, id: nat, cells: Cells, days: nat)
    requires Grouped(past) && WellGrouped(cells)
    ensures Grouped(past + CycleEvents(w, id, cells, days))
  {
    hide WellGrouped;
  }

  /** The last cycle did all its work. */
  predicate Complete(w: Wake) {
    Stores(w) && Folds(w) && !w.pruneFails
  }

  /** The events of a run of cycles, the stored columns of each given; samples are numbered from `id`. */
  function Log(wakes: seq<Wake>, cells: seq<Cells>, id: nat, days: nat): seq<Event>
    requires |cells| == |wakes|
  {
    if wakes == [] then []
    else
      var n := |wakes| - 1;
      Log(wakes[..n], cells[..n], id, days) + if Stores(wakes[n]) then CycleEvents(wakes[n], id + n, cells[n], days) else []
  }

  /** What the sampler holds after some cycles. */
  function Sampling(s: State, wakes: seq<Wake>, pageSize: nat): State {
    if wakes == [] then s
    else Collected(Sampling(s, wakes[..|wakes| - 1], pageSize), wakes[|wakes| - 1].readings, pageSize)
  }

  /** The columns each cycle has to store. */
  function SampledCells(s: State, wakes: seq<Wake>, pageSize: nat): (cells: seq<Cells>)
    ensures |cells| == |wakes|
  {
    seq(|wakes|, i requires 0 <= i < |wakes| => BindCells(Sampling(s, wakes[..i + 1], pageSize).m))
  }

  lemma SamplingMore(s: State, wakes: seq<Wake>, i: nat, pageSize: nat)
    requires i < |wakes|
    ensures var held := Collected(Sampling(s, wakes[..i], pageSize), wakes[i].readings, pageSize);
            && Sampling(s, wakes[..i + 1], pageSize) == held
            && SampledCells(s, wakes[..i + 1], pageSize) == SampledCells(s, wakes[..i], pageSize) + [BindCells(held.m)]
  {
    hide Collected, BindCells;
    assert wakes[..i + 1][..i] == wakes[..i];
    forall j | 0 <= j < i
      ensures SampledCells(s, wakes[..i + 1], pageSize)[j] == SampledCells(s, wakes[..i], pageSize)[j]
    {
      assert wakes[..i + 1][..j + 1] == wakes[..i][..j + 1];
    }
    assert wakes[..i + 1][..i + 1] == wakes[..i + 1];
  }

  /** The loop, from a database with the history `past` (none when it is fresh). Whatever fails and
      whatever the clock does, each sample stored is in exactly one row until pruning removes it. While
      the clock does not go back, each bucket of a tier wider than the interval is one row. With
      samples some seconds apart, a complete cycle leaves no more rows than the bound for that gap. As long as the
      counter groups advance, every row is faithful to its samples and well grouped. */
  method Serve(sampler: Sampler, db: Db, days: nat, wakes: seq<Wake>, id: nat, pageSize: nat, ghost past: seq<Event>)
    returns (ghost run: seq<Event>, ghost cells: seq<Cells>)
    requires Numbered(past, id) && db.Table() == After(past, LADDER, db.interval).table
    modifies sampler, db`metrics, db`alertLog
    ensures cells == SampledCells(old(sampler.Holds()), wakes, pageSize)
    ensures |cells| == |wakes| && run == past + Log(wakes, cells, id, days)
    ensures Numbered(run, id + |wakes|) && db.Table() == After(run, LADDER, db.interval).table
    ensures Accounted(After(run, LADDER, db.interval))
    ensures WellFormed(LADDER)
    ensures ClockRises(run) ==> Settled(db.Table(), LADDER, db.interval)
    ensures wakes != [] && Complete(wakes[|wakes| - 1]) && ClockRises(run) ==>
              forall gap: pos :: CollectsApart(run, gap) ==> |db.metrics| <= MaxRows(LADDER, db.interval, gap, days)
    ensures Grouped(past) && CountersAdvance(old(sampler.prevCpu), wakes) ==> Sound(db.Table())
  {
    hide After, Numbered, CountersAdvance, Grouped, Log, Stores, Accounted, Settled, Sound, ClockRises, CollectsApart, MaxRows, Complete, WellFormed, SampledCells;
    run, cells := Cycles(sampler, db, days, wakes, id, pageSize, past);
    LadderIsWellFormed();
    RunKeeps(run, id + |wakes|, db.interval);
    if wakes != [] && Complete(wakes[|wakes| - 1]) && ClockRises(run) {
      assert |db.Table()| == |db.metrics|;
      forall gap: pos | CollectsApart(run, gap) ensures |db.metrics| <= MaxRows(LADDER, db.interval, gap, days) {
        LastCycleBound(past, wakes, cells, id, days, db.interval, gap);
      }
    }
  }

  /** The cycles one after another. */
  method Cycles(sampler: Sampler, db: Db, days: nat, wakes: seq<Wake>, id: nat, pageSize: nat, ghost past: seq<Event>)
    returns (ghost run: seq<Event>, ghost cells: seq<Cells>)
    requires Numbered(past, id) && db.Table() == After(past, LADDER, db.interval).table
    modifies sampler, db`metrics, db`alertLog
    ensures cells == SampledCells(old(sampler.Holds()), wakes, pageSize)
    ensures |cells| == |wakes| && run == past + Log(wakes, cells, id, days)
    ensures Numbered(run, id + |wakes|) && db.Table() == After(run, LADDER, db.interval).table
    ensures Grouped(past) && CountersAdvance(old(sampler.prevCpu), wakes) ==> Grouped(run)
  {
    hide After, Numbered, BindCells, WellGrouped, TicksFitBetween, CountersAdvance, CycleEvents, Grouped, Stores, Db.Table, Log, ReadBefore, LogSince, PrunesLog, Sampling, SampledCells, Collected;
    run, cells := past, [];
    ghost var seed, held := sampler.prevCpu, sampler.Holds();
    NoSamples(held, pageSize);
    ReadNone(seed, wakes);
    NoLog(past, id, days);
    assert wakes[..0] == [];
    var i := 0;
    while i < |wakes|
      invariant 0 <= i <= |wakes| && |cells| == i
      invariant run == past + Log(wakes[..i], cells, id, days)
      invariant Numbered(run, id + i) && db.Table() == After(run, LADDER, db.interval).table
      invariant sampler.Holds() == Sampling(held, wakes[..i], pageSize) && cells == SampledCells(held, wakes[..i], pageSize)
      invariant ReadBefore(seed, wakes, i, sampler.prevCpu)
      invariant Grouped(past) && CountersAdvance(seed, wakes) ==> Grouped(run)
    {
      ghost var snapshot, before := sampler.prevCpu, run;
      run := Cycle(sampler, db, days, wakes[i], id + i, pageSize, run);
      ghost var stored := BindCells(sampler.Sampled());
      if Stores(wakes[i]) && Grouped(past) && CountersAdvance(seed, wakes) {
        SnapshotFits(seed, wakes, i, snapshot);
        GroupedMore(before, wakes[i], id + i, stored, days);
      }
      ReadOneMore(seed, wakes, i, snapshot, sampler.prevCpu);
      LogMore(past, wakes, cells, i, stored, id, days);
      SamplingMore(held, wakes, i, pageSize);
      cells := cells + [stored];
      i := i + 1;
    }
    assert wakes[..|wakes|] == wakes;
  }

  lemma NoSamples(s: State, pageSize: nat)
    ensures Sampling(s, [], pageSize) == s && SampledCells(s, [], pageSize) == []
  {}

  lemma LogMore(past: seq<Event>, wakes: seq<Wake>, cells: seq<Cells>, i: nat, stored: Cells, id: nat, days: nat)
    requires i < |wakes| && |cells| == i
    ensures var run := past + Log(wakes[..i], cells, id, days);
            past + Log(wakes[..i + 1], cells + [stored], id, days)
            == if Stores(wakes[i]) then run + CycleEvents(wakes[i], id + i, stored, days) else run
  {
    hide CycleEvents;
    assert wakes[..i + 1][..i] == wakes[..i] && (cells + [stored])[..i] == cells;
  }

  /** What every run of events keeps. */
  lemma RunKeeps(run: seq<Event>, next: nat, interval: pos)
    requires Numbered(run, next) && WellFormed(LADDER)
    ensures Accounted(After(run, LADDER, interval))
    ensures ClockRises(run) ==> Settled(After(run, LADDER, interval).table, LADDER, interval)
    ensures Grouped(run) ==> Sound(After(run, LADDER, interval).table)
  {
    hide After, Numbered, Grouped, Accounted, Settled, Placed, Sound, ClockRises, WellFormed, SamplesAreNew;
    NumberedAreNew(run, next, LADDER, interval);
    RunConserves(run, LADDER, interval);
    if ClockRises(run) { RunSettles(run, LADDER, interval); }
    if Grouped(run) { SoundRun(run, interval); }
  }

  lemma LastCycleBound(past: seq<Event>, wakes: seq<Wake>, cells: seq<Cells>, id: nat, days: nat, interval: pos, gap: pos)
    requires |cells| == |wakes| && wakes != [] && Complete(wakes[|wakes| - 1]) && WellFormed(LADDER)
    requires var run := past + Log(wakes, cells, id, days); ClockRises(run) && CollectsApart(run, gap)
    ensures |After(past + Log(wakes, cells, id, days), LADDER, interval).table| <= MaxRows(LADDER, interval, gap, days)
  {
    hide After, MaxRows, WellFormed, ClockRises, CollectsApart, CycleEvents;
    var n := |wakes| - 1;
    var before := past + Log(wakes[..n], cells[..n], id, days);
    assert past + Log(wakes, cells, id, days) == before + CycleEvents(wakes[n], id + n, cells[n], days);
    CompleteBound(past + Log(wakes, cells, id, days), before, wakes[n], id + n, cells[n], days, interval, gap);
  }

  /** The snapshot is the one the sampler started with, or a reading of one of the first `i` cycles. */
  ghost predicate ReadBefore(seed: Option<CpuRaw>, wakes: seq<Wake>, i: nat, snapshot: Option<CpuRaw>)
    requires i <= |wakes|
  {
    snapshot == seed || exists j :: 0 <= j < i && wakes[j].readings.cpu == snapshot
  }

  lemma ReadNone(seed: Option<CpuRaw>, wakes: seq<Wake>)
    ensures ReadBefore(seed, wakes, 0, seed)
  {}

  lemma ReadOneMore(seed: Option<CpuRaw>, wakes: seq<Wake>, i: nat, snapshot: Option<CpuRaw>, next: Option<CpuRaw>)
    requires i < |wakes| && ReadBefore(seed, wakes, i, snapshot)
    requires next == snapshot || next == wakes[i].readings.cpu
    ensures ReadBefore(seed, wakes, i + 1, next)
  {}

  lemma NoLog(past: seq<Event>, id: nat, days: nat)
    ensures past + Log([], [], id, days) == past
  {}

  lemma SnapshotFits(seed: Option<CpuRaw>, wakes: seq<Wake>, i: nat, snapshot: Option<CpuRaw>)
    requires CountersAdvance(seed, wakes) && i < |wakes|
    requires ReadBefore(seed, wakes, i, snapshot)
    ensures TicksFitBetween(snapshot, wakes[i].readings.cpu)
  {
    hide TicksFit, GroupsAdvance;
    if snapshot.Some? && wakes[i].readings.cpu.Some? {
      GroupTicksAreExact(snapshot.value, wakes[i].readings.cpu.value);
    }
  }

  lemma SoundRun(run: seq<Event>, interval: pos)
    requires Grouped(run)
    ensures Sound(After(run, LADDER, interval).table)
  {
    hide WellGrouped, After, Sound;
    RunSound(run, LADDER, interval);
  }

  lemma CompleteBound(run: seq<Event>, before: seq<Event>, w: Wake, id: nat, cells: Cells, days: nat, interval: pos, gap: pos)
    requires run == before + CycleEvents(w, id, cells, days) && Complete(w)
    requires WellFormed(LADDER) && ClockRises(run) && CollectsApart(run, gap)
    ensures |After(run, LADDER, interval).table| <= MaxRows(LADDER, interval, gap, days)
  {
    hide After, MaxRows, WellFormed;
    var front := before + [Collect(w.insertAt, id, cells)];
    assert run == front + [Consolidate(w.foldAt), Prune(w.pruneAt, days)];
    forall i, j | 0 <= i < j < |front| && front[i].Collect? && front[j].Collect? ensures front[i].at + gap <= front[j].at {
      assert front[i] == run[i] && front[j] == run[j];
    }
    RunBound(front, LADDER, interval, gap, w.foldAt, w.pruneAt, days);
  }
}
