/** Alerts: when one fires, and how far apart two recorded firings of a name are over whole runs. */
module Alerts {
  import opened Rows
  import opened MetricsDb

  datatype Alert = Alert(name: string, metric: string, op: string, threshold: real,
                         hasWebhook: bool, hasCommand: bool, cooldown: nat)

  /** What the outside answers while one alert is evaluated: two clock readings (the check's and,
      after delivery, the record's), whether each statement fails, whether each action succeeds. */
  datatype World = World(checkAt: nat, checkFails: bool, webhookOk: bool, commandOk: bool, fireAt: nat, recordFails: bool)

  predicate EvalOp(value: real, op: string, threshold: real) {
    if op == ">" then value > threshold
    else if op == "<" then value < threshold
    else if op == ">=" then value >= threshold
    else if op == "<=" then value <= threshold
    else false
  }

  /** `SELECT COUNT(*) FROM alert_log WHERE alert_name = ? AND fired_at > ?` is positive. */
  predicate OnCooldown(log: seq<Firing>, name: string, at: nat, cooldown: nat) {
    exists f :: f in log && f.name == name && f.at > at - cooldown
  }

  /** An alert has at least one action, and one of them succeeded. */
  predicate Delivered(a: Alert, w: World) {
    (a.hasWebhook && w.webhookOk) || (a.hasCommand && w.commandOk)
  }

  /** The alert is due: its metric has a value, the condition holds, and it is known to be cooled down. */
  predicate Fires(log: seq<Firing>, a: Alert, value: Option<real>, w: World) {
    && value.Some? && EvalOp(value.value, a.op, a.threshold)
    && !w.checkFails && !OnCooldown(log, a.name, w.checkAt, a.cooldown)
  }

  /** alert_log after one alert: a firing is recorded only if it was delivered. */
  function LogAfter(log: seq<Firing>, a: Alert, value: Option<real>, w: World): seq<Firing> {
    if Fires(log, a, value, w) && Delivered(a, w) && !w.recordFails then log + [Firing(a.name, w.fireAt)] else log
  }

  function LogAfterAll(log: seq<Firing>, alerts: seq<Alert>, values: seq<Option<real>>, ws: seq<World>): seq<Firing>
    requires |alerts| == |values| == |ws|
  {
    if alerts == [] then log
    else
      var n := |alerts| - 1;
      LogAfter(LogAfterAll(log, alerts[..n], values[..n], ws[..n]), alerts[n], values[n], ws[n])
  }

  /** `db_alert_on_cooldown`: 0 cooled down, 1 on cooldown, -1 on a database error. */
  method CheckCooldown(db: Db, name: string, cooldown: nat, at: nat, fails: bool) returns (rc: int)
    ensures rc == if fails then -1 else if OnCooldown(db.alertLog, name, at, cooldown) then 1 else 0
  {
    if fails { return -1; }
    var count := 0;
    for i := 0 to |db.alertLog|
      invariant count >= 0
      invariant count > 0 <==> OnCooldown(db.alertLog[..i], name, at, cooldown)
    {
      assert db.alertLog[..i + 1] == db.alertLog[..i] + [db.alertLog[i]];
      if db.alertLog[i].name == name && db.alertLog[i].at > at - cooldown {
        assert db.alertLog[i] in db.alertLog[..i + 1];
        count := count + 1;
      }
    }
    assert db.alertLog[..|db.alertLog|] == db.alertLog;
    rc := if count > 0 then 1 else 0;
  }

  /** `alerts_evaluate`: both actions are tried; the firing is recorded if either succeeded. */
  method Evaluate(db: Db, alerts: seq<Alert>, values: seq<Option<real>>, ws: seq<World>)
    requires |alerts| == |values| == |ws|
    modifies db`alertLog
    ensures db.alertLog == LogAfterAll(old(db.alertLog), alerts, values, ws)
    ensures |alerts| == 1 && values[0].Some? && !ws[0].checkFails && !ws[0].recordFails
            && (forall f :: f in old(db.alertLog) && f.name == alerts[0].name ==> f.at + alerts[0].cooldown <= ws[0].checkAt)
            ==> var a, v, w := alerts[0], values[0].value, ws[0];
                db.alertLog == if && ((a.hasWebhook && w.webhookOk) || (a.hasCommand && w.commandOk))
                                  && ((a.op == ">" && v > a.threshold) || (a.op == "<" && v < a.threshold)
                                      || (a.op == ">=" && v >= a.threshold) || (a.op == "<=" && v <= a.threshold))
                               then old(db.alertLog) + [Firing(a.name, w.fireAt)]
                               else old(db.alertLog)
    ensures |alerts| == 1 && (values[0] == None || ws[0].checkFails || ws[0].recordFails
                              || exists f :: f in old(db.alertLog) && f.name == alerts[0].name && f.at + alerts[0].cooldown > ws[0].checkAt)
            ==> db.alertLog == old(db.alertLog)
  {
    hide OnCooldown, EvalOp;
    ghost var before := db.alertLog;
    for i := 0 to |alerts|
      invariant db.alertLog == LogAfterAll(old(db.alertLog), alerts[..i], values[..i], ws[..i])
    {
      assert alerts[..i + 1][..i] == alerts[..i] && values[..i + 1][..i] == values[..i] && ws[..i + 1][..i] == ws[..i];
      var a, w := alerts[i], ws[i];
      if values[i] == None { continue; }
      if !EvalOp(values[i].value, a.op, a.threshold) { continue; }
      var cooling := CheckCooldown(db, a.name, a.cooldown, w.checkAt, w.checkFails);
      if cooling != 0 { continue; }
      var delivered := false;
      if a.hasWebhook { delivered := delivered || w.webhookOk; }
      if a.hasCommand { delivered := delivered || w.commandOk; }
      if !delivered { continue; }
      if !w.recordFails {
        db.alertLog := db.alertLog + [Firing(a.name, w.fireAt)];
      }
    }
    assert alerts[..|alerts|] == alerts && values[..|values|] == values && ws[..|ws|] == ws;
    if |alerts| == 1 {
      OneAlert(before, alerts[0], values[0], ws[0]);
      assert LogAfterAll(before, alerts[..0], values[..0], ws[..0]) == before;
    }
  }

  /** One alert. With no recorded firing of its name inside the cooldown and no failing statement, it is
      recorded exactly when some action it has succeeded and the comparison its operator names holds; any
      other operator never fires. Otherwise alert_log stays as it was. */
  lemma OneAlert(log: seq<Firing>, a: Alert, value: Option<real>, w: World)
    ensures value.Some? && !w.checkFails && !w.recordFails
            && (forall f :: f in log && f.name == a.name ==> f.at + a.cooldown <= w.checkAt)
            ==> var v := value.value;
                LogAfter(log, a, value, w)
                == if && ((a.hasWebhook && w.webhookOk) || (a.hasCommand && w.commandOk))
                      && ((a.op == ">" && v > a.threshold) || (a.op == "<" && v < a.threshold)
                          || (a.op == ">=" && v >= a.threshold) || (a.op == "<=" && v <= a.threshold))
                   then log + [Firing(a.name, w.fireAt)] else log
    ensures value == None || w.checkFails || w.recordFails
            || (exists f :: f in log && f.name == a.name && f.at + a.cooldown > w.checkAt)
            ==> LogAfter(log, a, value, w) == log
  {}

  // --- Runs ---

  /** One step of a run, restarts included: an alert evaluated, or alert_log pruned. */
  datatype Step =
    | Evaluated(a: Alert, value: Option<real>, w: World)
    | Pruned(at: nat, days: nat)

  datatype Recorded = Recorded(name: string, at: nat, cooldown: nat)

  /** alert_log, and every firing ever recorded in it. */
  datatype History = History(log: seq<Firing>, recorded: seq<Recorded>, clock: nat)

  predicate ClockRises(h: History, s: Step) {
    match s
    case Evaluated(_, _, w) => h.clock <= w.checkAt <= w.fireAt
    case Pruned(at, _) => h.clock <= at
  }

  function Next(h: History, s: Step): History {
    match s
    case Evaluated(a, value, w) =>
      var log := LogAfter(h.log, a, value, w);
      History(log, if log == h.log then h.recorded else h.recorded + [Recorded(a.name, w.fireAt, a.cooldown)], w.fireAt)
    case Pruned(at, days) =>
      History(LogSince(h.log, at - days * 86400), h.recorded, at)
  }

  function After(steps: seq<Step>): History {
    if steps == [] then History([], [], 0) else Next(After(steps[..|steps| - 1]), steps[|steps| - 1])
  }

  /** A run whose clock never goes back and that keeps alert_log for at least `retention` seconds. */
  predicate IsRun(steps: seq<Step>, retention: nat) {
    steps == [] ||
    var last := steps[|steps| - 1];
    && IsRun(steps[..|steps| - 1], retention)
    && ClockRises(After(steps[..|steps| - 1]), last)
    && (last.Pruned? ==> last.days * 86400 >= retention)
  }

  function Min(a: nat, b: nat): nat { if a < b then a else b }

  /** Recorded firings are in the log until they are older than the retention. */
  ghost predicate Remembered(h: History, retention: nat) {
    forall i :: 0 <= i < |h.recorded| ==>
      && h.recorded[i].at <= h.clock
      && (Firing(h.recorded[i].name, h.recorded[i].at) in h.log || h.recorded[i].at < h.clock - retention)
  }

  ghost predicate Spaced(recorded: seq<Recorded>, retention: nat) {
    forall i, j :: 0 <= i < j < |recorded| && recorded[i].name == recorded[j].name ==>
      recorded[i].at + Min(recorded[j].cooldown, retention + 1) <= recorded[j].at
  }

  lemma EvaluatedKeeps(h: History, s: Step, retention: nat)
    requires s.Evaluated? && ClockRises(h, s)
    requires Remembered(h, retention) && Spaced(h.recorded, retention)
    ensures Remembered(Next(h, s), retention) && Spaced(Next(h, s).recorded, retention)
  {
    var h' := Next(h, s);
    if h'.log != h.log {
      forall i | 0 <= i < |h.recorded| && h.recorded[i].name == s.a.name
        ensures h.recorded[i].at + Min(s.a.cooldown, retention + 1) <= s.w.fireAt
      {
        assert Firing(h.recorded[i].name, h.recorded[i].at) in h.log || h.recorded[i].at < h.clock - retention;
      }
    }
  }

  lemma PrunedKeeps(h: History, s: Step, retention: nat)
    requires s.Pruned? && ClockRises(h, s) && s.days * 86400 >= retention
    requires Remembered(h, retention)
    ensures Remembered(Next(h, s), retention)
  {}

  /** Over every run: two recorded firings of one name are at least the later alert's cooldown apart,
      or more than the retention, whichever is less. */
  lemma {:induction false} CooldownHolds(steps: seq<Step>, retention: nat)
    requires IsRun(steps, retention)
    ensures Remembered(After(steps), retention)
    ensures Spaced(After(steps).recorded, retention)
  {
    hide Remembered, Spaced;
    if steps == [] {
      NothingRecorded(retention);
    } else {
      var before, last := steps[..|steps| - 1], steps[|steps| - 1];
      CooldownHolds(before, retention);
      if last.Evaluated? {
        EvaluatedKeeps(After(before), last, retention);
      } else {
        PrunedKeeps(After(before), last, retention);
      }
    }
  }

  lemma NothingRecorded(retention: nat)
    ensures Remembered(History([], [], 0), retention) && Spaced([], retention)
  {}

  // --- What puts a name on cooldown ---

  /** Step `j` recorded a firing: the alert was due, one of its actions succeeded, and so did the record. */
  ghost predicate RecordsAt(steps: seq<Step>, j: nat) {
    && j < |steps| && steps[j].Evaluated?
    && Fires(After(steps[..j]).log, steps[j].a, steps[j].value, steps[j].w)
    && Delivered(steps[j].a, steps[j].w) && !steps[j].w.recordFails
  }

  /** A pruning after step `j` removed what that step recorded. */
  ghost predicate PrunedSince(steps: seq<Step>, j: nat)
    requires j < |steps| && steps[j].Evaluated?
  {
    exists p :: j < p < |steps| && steps[p].Pruned? && steps[j].w.fireAt < steps[p].at - steps[p].days * 86400
  }

  /** Step `j` is why the log has the row. */
  ghost predicate Explains(steps: seq<Step>, j: nat, f: Firing) {
    && RecordsAt(steps, j) && f == Firing(steps[j].a.name, steps[j].w.fireAt) && !PrunedSince(steps, j)
  }

  lemma ExplainsLonger(before: seq<Step>, last: Step, j: nat, f: Firing)
    requires j < |before|
    ensures Explains(before + [last], j, f)
            <==> Explains(before, j, f) && (last.Pruned? ==> f.at >= last.at - last.days * 86400)
  {
    hide After, Fires, Delivered;
    var steps := before + [last];
    assert steps[..j] == before[..j] && steps[j] == before[j] && steps[|before|] == last;
    if RecordsAt(before, j) {
      forall p | j < p < |before| ensures steps[p] == before[p] {}
      if PrunedSince(before, j) {
        var p :| j < p < |before| && before[p].Pruned? && before[j].w.fireAt < before[p].at - before[p].days * 86400;
        assert steps[p] == before[p];
      }
    }
  }

  /** In every state of every run alert_log holds exactly the firings that were delivered and recorded
      and that no pruning has removed since. */
  lemma {:induction false} LogIsDelivered(steps: seq<Step>, f: Firing)
    ensures f in After(steps).log <==> exists j: nat :: Explains(steps, j, f)
  {
    hide Fires, Delivered, Explains, After;
    if steps == [] {
      NothingLogged(f);
    } else {
      var n := |steps| - 1;
      var before, last := steps[..n], steps[n];
      assert steps == before + [last];
      LogIsDelivered(before, f);
      LastStep(before, last, f);
      forall j: nat | j < n
        ensures Explains(steps, j, f) <==> Explains(before, j, f) && (last.Pruned? ==> f.at >= last.at - last.days * 86400)
      {
        ExplainsLonger(before, last, j, f);
      }
      forall j: nat | Explains(steps, j, f) ensures j <= n { ExplainsInside(steps, j, f); }
      forall j: nat | Explains(before, j, f) ensures j < n { ExplainsInside(before, j, f); }
    }
  }

  lemma NothingLogged(f: Firing)
    ensures f !in After([]).log && forall j: nat :: !Explains([], j, f)
  {}

  lemma ExplainsInside(steps: seq<Step>, j: nat, f: Firing)
    requires Explains(steps, j, f)
    ensures j < |steps|
  {}

  /** What the last step does to one row of the log. */
  lemma LastStep(before: seq<Step>, last: Step, f: Firing)
    ensures f in After(before + [last]).log
            <==> Explains(before + [last], |before|, f)
                 || (f in After(before).log && (last.Pruned? ==> f.at >= last.at - last.days * 86400))
  {
    hide Fires, Delivered;
    assert (before + [last])[..|before|] == before;
  }

  /** So a name is on cooldown exactly because of a firing that was delivered, recorded, is younger than
      the cooldown and still remembered: a failed delivery never starts one. */
  lemma OnlyDeliveredCools(steps: seq<Step>, name: string, at: nat, cooldown: nat)
    ensures OnCooldown(After(steps).log, name, at, cooldown)
            <==> exists j: nat :: RecordsAt(steps, j) && steps[j].a.name == name
                                  && steps[j].w.fireAt > at - cooldown && !PrunedSince(steps, j)
  {
    hide RecordsAt, After;
    var log := After(steps).log;
    forall f ensures f in log <==> exists j: nat :: Explains(steps, j, f) { LogIsDelivered(steps, f); }
    forall j: nat | RecordsAt(steps, j) ensures j < |steps| && steps[j].Evaluated? { RecordsInside(steps, j); }
    if j: nat :| RecordsAt(steps, j) && steps[j].a.name == name && steps[j].w.fireAt > at - cooldown && !PrunedSince(steps, j) {
      var f := Firing(name, steps[j].w.fireAt);
      assert Explains(steps, j, f);
      assert f in log;
    }
  }

  lemma RecordsInside(steps: seq<Step>, j: nat)
    requires RecordsAt(steps, j)
    ensures j < |steps| && steps[j].Evaluated?
  {}

  // --- Which cooldowns hold ---

  /** Every firing of an alert with this cooldown comes that long after the last of its name. */
  ghost predicate KeepsCooldown(recorded: seq<Recorded>, cooldown: nat) {
    forall i, j :: 0 <= i < j < |recorded| && recorded[i].name == recorded[j].name && recorded[j].cooldown == cooldown ==>
      recorded[i].at + cooldown <= recorded[j].at
  }

  /** With `days` kept, a cooldown holds over every run exactly when it is at most one second longer
      than what is kept: pruning removes what is older than the cutoff, not as old. */
  lemma CooldownHoldsIff(days: nat, cooldown: nat)
    ensures (forall steps :: IsRun(steps, days * 86400) ==> KeepsCooldown(After(steps).recorded, cooldown))
            <==> cooldown <= days * 86400 + 1
  {
    hide IsRun, After, Remembered;
    if cooldown <= days * 86400 + 1 {
      forall steps | IsRun(steps, days * 86400) ensures KeepsCooldown(After(steps).recorded, cooldown) {
        CooldownHolds(steps, days * 86400);
      }
    } else {
      hide Fire;
      var t := days * 86400 + 1;
      var steps := [Fire("load", cooldown, 0), Pruned(t, days), Fire("load", cooldown, t)];
      Refired(days, cooldown);
      var recorded := After(steps).recorded;
      assert recorded[0].name == recorded[1].name && recorded[0].at + cooldown > recorded[1].at;
      assert !KeepsCooldown(recorded, cooldown);
    }
  }

  function Always(name: string, cooldown: nat): Alert {
    Alert(name, "load_1m", ">=", 0.0, false, true, cooldown)
  }

  function Fire(name: string, cooldown: nat, at: nat): Step {
    Evaluated(Always(name, cooldown), Some(1.0), World(at, false, false, true, at, false))
  }

  /** With a cooldown longer than the retention, pruning forgets the firing and the alert fires again
      before its cooldown is over. */
  lemma RetentionCutsCooldown(days: nat, cooldown: nat)
    requires cooldown > days * 86400 + 1
    ensures var steps := [Fire("load", cooldown, 0), Pruned(days * 86400 + 1, days), Fire("load", cooldown, days * 86400 + 1)];
            && IsRun(steps, days * 86400)
            && |After(steps).recorded| == 2
            && After(steps).recorded[1].at < After(steps).recorded[0].at + cooldown
  {
    hide After, IsRun, Fire;
    Refired(days, cooldown);
  }

  lemma FiredOnce(retention: nat, cooldown: nat)
    ensures IsRun([Fire("load", cooldown, 0)], retention)
    ensures After([Fire("load", cooldown, 0)]) == History([Firing("load", 0)], [Recorded("load", 0, cooldown)], 0)
  {
    hide Fire, Next, IsRun, ClockRises, After;
    NoSteps(retention);
    FireOnEmpty(History([], [], 0), cooldown, 0);
    OneMore([], Fire("load", cooldown, 0), retention);
    assert [] + [Fire("load", cooldown, 0)] == [Fire("load", cooldown, 0)];
  }

  lemma Forgotten(days: nat, cooldown: nat)
    ensures var t, steps := days * 86400 + 1, [Fire("load", cooldown, 0), Pruned(days * 86400 + 1, days)];
            IsRun(steps, days * 86400) && After(steps) == History([], [Recorded("load", 0, cooldown)], t)
  {
    hide Fire, Next, IsRun, ClockRises, After;
    var first, prune := Fire("load", cooldown, 0), Pruned(days * 86400 + 1, days);
    FiredOnce(days * 86400, cooldown);
    PruneOne(After([first]), days * 86400 + 1, days);
    OneMore([first], prune, days * 86400);
    assert [first] + [prune] == [first, prune];
  }

  lemma Refired(days: nat, cooldown: nat)
    ensures var t := days * 86400 + 1;
            var steps := [Fire("load", cooldown, 0), Pruned(t, days), Fire("load", cooldown, t)];
            && IsRun(steps, days * 86400)
            && After(steps).recorded == [Recorded("load", 0, cooldown), Recorded("load", t, cooldown)]
  {
    hide Fire, Next, IsRun, ClockRises, After;
    var t := days * 86400 + 1;
    var before, second := [Fire("load", cooldown, 0), Pruned(t, days)], Fire("load", cooldown, t);
    Forgotten(days, cooldown);
    FireOnEmpty(After(before), cooldown, t);
    OneMore(before, second, days * 86400);
    assert before + [second] == [Fire("load", cooldown, 0), Pruned(t, days), second];
  }

  lemma NoSteps(retention: nat)
    ensures IsRun([], retention) && After([]) == History([], [], 0)
  {}

  lemma OneMore(before: seq<Step>, s: Step, retention: nat)
    ensures After(before + [s]) == Next(After(before), s)
    ensures IsRun(before, retention) && ClockRises(After(before), s) && (s.Pruned? ==> s.days * 86400 >= retention)
            ==> IsRun(before + [s], retention)
  {
    assert (before + [s])[..|before|] == before;
  }

  /** On an empty log the alert fires. */
  lemma FireOnEmpty(h: History, cooldown: nat, at: nat)
    requires h.log == [] && h.clock <= at
    ensures Next(h, Fire("load", cooldown, at))
            == History([Firing("load", at)], h.recorded + [Recorded("load", at, cooldown)], at)
    ensures Fire("load", cooldown, at).Evaluated? && ClockRises(h, Fire("load", cooldown, at))
  {}

  lemma PruneOne(h: History, at: nat, days: nat)
    requires h.log == [Firing("load", 0)] && h.clock <= at && at > days * 86400
    ensures Next(h, Pruned(at, days)) == History([], h.recorded, at)
    ensures ClockRises(h, Pruned(at, days))
  {
    assert h.log[..0] == [];
    assert LogSince([], at - days * 86400) == [];
  }
}
