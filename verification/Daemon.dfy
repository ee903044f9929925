/** The whole collect loop: the cycle on the metrics, then the alerts on what it stored. */
module Daemon {
  import opened Rows
  import opened Ladder
  import opened Collector
  import opened MetricsDb
  import opened Serve
  import Runs
  import Alerts
  import Columns

  /** One turn: the cycle, whether the row just stored can be read back, and, alert by alert, the value its
      metric has in that row and how the outside answers. */
  datatype Turn = Turn(wake: Wake, current: bool, values: seq<Option<real>>, worlds: seq<Alerts.World>)

  function Wakes(turns: seq<Turn>): (wakes: seq<Wake>)
    ensures |wakes| == |turns|
  {
    seq(|turns|, i requires 0 <= i < |turns| => turns[i].wake)
  }

  /** What an evaluation of the alerts does, alert by alert. */
  function Evaluations(alerts: seq<Alerts.Alert>, values: seq<Option<real>>, worlds: seq<Alerts.World>): seq<Alerts.Step>
    requires |alerts| == |values| == |worlds|
  {
    if alerts == [] then []
    else
      var n := |alerts| - 1;
      Evaluations(alerts[..n], values[..n], worlds[..n]) + [Alerts.Evaluated(alerts[n], values[n], worlds[n])]
  }

  predicate ForAlerts(t: Turn, alerts: seq<Alerts.Alert>) { |t.values| == |t.worlds| == |alerts| }

  /** The steps of a turn in the history of alert_log: pruned, then evaluated. */
  function TurnSteps(t: Turn, alerts: seq<Alerts.Alert>, days: nat): seq<Alerts.Step>
    requires ForAlerts(t, alerts)
  {
    if !Stores(t.wake) then []
    else (if PrunesLog(t.wake) then [Alerts.Pruned(t.wake.pruneAt, days)] else [])
         + (if t.current then Evaluations(alerts, t.values, t.worlds) else [])
  }

  function AlertSteps(turns: seq<Turn>, alerts: seq<Alerts.Alert>, days: nat): seq<Alerts.Step>
    requires forall i :: 0 <= i < |turns| ==> ForAlerts(turns[i], alerts)
  {
    if turns == [] then []
    else AlertSteps(turns[..|turns| - 1], alerts, days) + TurnSteps(turns[|turns| - 1], alerts, days)
  }

  lemma {:induction false} EvaluationsLog(past: seq<Alerts.Step>, alerts: seq<Alerts.Alert>, values: seq<Option<real>>, worlds: seq<Alerts.World>)
    requires |alerts| == |values| == |worlds|
    ensures Alerts.After(past + Evaluations(alerts, values, worlds)).log
            == Alerts.LogAfterAll(Alerts.After(past).log, alerts, values, worlds)
  {
    hide Alerts.LogAfter;
    if alerts == [] {
      assert past + [] == past;
    } else {
      var n := |alerts| - 1;
      var before, last := past + Evaluations(alerts[..n], values[..n], worlds[..n]), Alerts.Evaluated(alerts[n], values[n], worlds[n]);
      EvaluationsLog(past, alerts[..n], values[..n], worlds[..n]);
      assert past + Evaluations(alerts, values, worlds) == before + [last];
      OneMore(before, last);
    }
  }

  lemma OneMore(before: seq<Alerts.Step>, last: Alerts.Step)
    ensures Alerts.After(before + [last]) == Alerts.Next(Alerts.After(before), last)
  {
    hide Alerts.Next;
    assert (before + [last])[..|before|] == before;
  }

  /** One turn: the histories of both tables grow by its events and its steps. */
  method Turned(sampler: Sampler, db: Db, days: nat, alerts: seq<Alerts.Alert>, t: Turn, id: nat, pageSize: nat,
                ghost past: seq<Runs.Event>, ghost steps: seq<Alerts.Step>)
    returns (ghost run: seq<Runs.Event>)
    requires Numbered(past, id) && db.Table() == Runs.After(past, LADDER, db.interval).table
    requires db.alertLog == Alerts.After(steps).log && ForAlerts(t, alerts)
    modifies sampler, db`metrics, db`alertLog
    ensures sampler.Holds() == Collected(old(sampler.Holds()), t.wake.readings, pageSize)
    ensures run == if Stores(t.wake) then past + CycleEvents(t.wake, id, BindCells(sampler.Sampled()), days) else past
    ensures Numbered(run, id + 1) && db.Table() == Runs.After(run, LADDER, db.interval).table
    ensures db.alertLog == Alerts.After(steps + TurnSteps(t, alerts, days)).log
  {
    hide Runs.After, Numbered, BindCells, CycleEvents, TicksFitBetween, Columns.WellGrouped, Alerts.After, Alerts.LogAfterAll,
         Db.Table, Stores, PrunesLog, Collected;
    run := Cycle(sampler, db, days, t.wake, id, pageSize, past);
    if !Stores(t.wake) {
      assert steps + [] == steps;
      return;
    }
    ghost var pruned := steps;
    if PrunesLog(t.wake) {
      pruned := steps + [Alerts.Pruned(t.wake.pruneAt, days)];
      PrunedOnce(steps, t.wake.pruneAt, days);
    }
    assert db.alertLog == Alerts.After(pruned).log;
    if t.current {
      Alerts.Evaluate(db, alerts, t.values, t.worlds);
      EvaluationsLog(pruned, alerts, t.values, t.worlds);
    }
    InOrder(steps, t, alerts, days);
  }

  lemma PrunedOnce(steps: seq<Alerts.Step>, at: nat, days: nat)
    ensures Alerts.After(steps + [Alerts.Pruned(at, days)]).log == LogSince(Alerts.After(steps).log, Runs.Cutoff(at, days))
  {
    OneMore(steps, Alerts.Pruned(at, days));
  }

  lemma InOrder(steps: seq<Alerts.Step>, t: Turn, alerts: seq<Alerts.Alert>, days: nat)
    requires ForAlerts(t, alerts) && Stores(t.wake)
    ensures var pruned := if PrunesLog(t.wake) then steps + [Alerts.Pruned(t.wake.pruneAt, days)] else steps;
            steps + TurnSteps(t, alerts, days) == if t.current then pruned + Evaluations(alerts, t.values, t.worlds) else pruned
  {
    hide Stores, PrunesLog;
  }

  /** The loop, restarts included, from tables with the histories `past` and `steps`. At its end, hence after
      every turn: alert_log holds exactly the firings that were delivered, recorded and not pruned since;
      and while the clock does not go back, two recorded firings of a name are the later cooldown apart, or
      more than what is kept. The metrics table is that of the history of the cycles, with all that follows
      from it. */
  method Loop(sampler: Sampler, db: Db, days: nat, alerts: seq<Alerts.Alert>, turns: seq<Turn>, id: nat, pageSize: nat,
              ghost past: seq<Runs.Event>, ghost steps: seq<Alerts.Step>)
    returns (ghost run: seq<Runs.Event>, ghost cells: seq<Cells>, ghost fired: seq<Alerts.Step>)
    requires Numbered(past, id) && db.Table() == Runs.After(past, LADDER, db.interval).table
    requires db.alertLog == Alerts.After(steps).log && forall i :: 0 <= i < |turns| ==> ForAlerts(turns[i], alerts)
    modifies sampler, db`metrics, db`alertLog
    ensures cells == SampledCells(old(sampler.Holds()), Wakes(turns), pageSize)
    ensures |cells| == |turns| && run == past + Log(Wakes(turns), cells, id, days)
    ensures Numbered(run, id + |turns|) && db.Table() == Runs.After(run, LADDER, db.interval).table
    ensures fired == steps + AlertSteps(turns, alerts, days) && db.alertLog == Alerts.After(fired).log
    ensures forall f :: f in db.alertLog <==> exists j: nat :: Alerts.Explains(fired, j, f)
    ensures Alerts.IsRun(fired, days * 86400) ==> Alerts.Spaced(Alerts.After(fired).recorded, days * 86400)
  {
    hide Runs.After, Numbered, BindCells, CycleEvents, Alerts.After, Alerts.IsRun, Alerts.Spaced, Alerts.Explains, Alerts.Remembered,
         Stores, Db.Table, Log, TurnSteps, AlertSteps, Wakes, Sampling, SampledCells, Collected;
    ghost var held := sampler.Holds();
    NoSamples(held, pageSize);
    run, cells, fired := past, [], steps;
    NothingYet(past, steps, turns, alerts, id, days);
    var i := 0;
    while i < |turns|
      invariant 0 <= i <= |turns| && |cells| == i
      invariant run == past + Log(Wakes(turns)[..i], cells, id, days)
      invariant sampler.Holds() == Sampling(held, Wakes(turns)[..i], pageSize) && cells == SampledCells(held, Wakes(turns)[..i], pageSize)
      invariant Numbered(run, id + i) && db.Table() == Runs.After(run, LADDER, db.interval).table
      invariant fired == steps + AlertSteps(turns[..i], alerts, days) && db.alertLog == Alerts.After(fired).log
    {
      run := Turned(sampler, db, days, alerts, turns[i], id + i, pageSize, run, fired);
      ghost var stored := BindCells(sampler.Sampled());
      WakeAt(turns, i);
      LogMore(past, Wakes(turns), cells, i, stored, id, days);
      SamplingMore(held, Wakes(turns), i, pageSize);
      StepsMore(steps, turns, alerts, i, days);
      cells := cells + [stored];
      fired := fired + TurnSteps(turns[i], alerts, days);
      i := i + 1;
    }
    assert turns[..|turns|] == turns && Wakes(turns)[..|turns|] == Wakes(turns);
    forall f ensures f in db.alertLog <==> exists j: nat :: Alerts.Explains(fired, j, f) { Alerts.LogIsDelivered(fired, f); }
    if Alerts.IsRun(fired, days * 86400) { Alerts.CooldownHolds(fired, days * 86400); }
  }

  lemma NothingYet(past: seq<Runs.Event>, steps: seq<Alerts.Step>, turns: seq<Turn>, alerts: seq<Alerts.Alert>, id: nat, days: nat)
    ensures past == past + Log(Wakes(turns)[..0], [], id, days) && steps == steps + AlertSteps(turns[..0], alerts, days)
  {}

  lemma WakeAt(turns: seq<Turn>, i: nat)
    requires i < |turns|
    ensures Wakes(turns)[i] == turns[i].wake
  {}

  lemma StepsMore(steps: seq<Alerts.Step>, turns: seq<Turn>, alerts: seq<Alerts.Alert>, i: nat, days: nat)
    requires i < |turns| && forall j :: 0 <= j < |turns| ==> ForAlerts(turns[j], alerts)
    ensures steps + AlertSteps(turns[..i + 1], alerts, days)
            == steps + AlertSteps(turns[..i], alerts, days) + TurnSteps(turns[i], alerts, days)
  {
    hide TurnSteps;
    assert turns[..i + 1][..i] == turns[..i];
  }
}
