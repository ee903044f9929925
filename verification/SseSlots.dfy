/** The stream slots of the HTTP server: every worker of the pool against one atomic counter. */
module SseSlots {

  type pos = n: nat | n > 0 witness 1

  const RESERVE_MIN: nat := 2
  const RESERVE_RATIO: pos := 16

  /** Workers kept for everything but streams. */
  function Reserve(maxDashboards: nat): (r: nat)
    ensures r >= 2 && r * 16 + 15 >= maxDashboards
    ensures r > 2 ==> r * 16 <= maxDashboards
  {
    var reserve := maxDashboards / RESERVE_RATIO;
    if reserve > RESERVE_MIN then reserve else RESERVE_MIN
  }

  /** Where a worker is. `since` is the step its request arrived at; `seen` is the counter value it
      holds and `seenAt` the step it read it at. */
  datatype Worker =
    | Idle
    | Serving
    | Loading(since: nat)
    | Testing(since: nat, seen: nat, seenAt: nat)
    | Swapping(since: nat, seen: nat, seenAt: nat)
    | Refusing(since: nat, seen: nat, seenAt: nat)
    | Streaming
    | Returning

  /** `active` is `sse_active`; `step` counts the steps of the run so far. */
  datatype State = State(active: int, workers: seq<Worker>, step: nat)

  /** The pool `http_start` sizes: a worker per dashboard plus the reserve. */
  function Started(max: nat): State {
    State(0, seq(max + Reserve(max), _ => Idle), 0)
  }

  function Goes(s: State, w: nat, to: Worker): State
    requires w < |s.workers|
  {
    s.(workers := s.workers[w := to], step := s.step + 1)
  }

  /** What worker `w` can do next. `atomic_compare_exchange_weak` may fail although the counter is
      what was expected, and on failure loads the counter. */
  predicate WorkerSteps(s: State, s': State, max: nat, w: nat)
    requires w < |s.workers|
  {
    match s.workers[w]
    case Idle => s' == Goes(s, w, Loading(s.step)) || s' == Goes(s, w, Serving)
    case Serving => s' == Goes(s, w, Idle)
    case Loading(since) => s.active >= 0 && s' == Goes(s, w, Testing(since, s.active, s.step))
    case Testing(since, seen, seenAt) =>
      s' == Goes(s, w, if seen >= max then Refusing(since, seen, seenAt) else Swapping(since, seen, seenAt))
    case Swapping(since, seen, _) =>
      || (s.active == seen && s' == Goes(s, w, Streaming).(active := seen + 1))
      || (s.active >= 0 && s' == Goes(s, w, Testing(since, s.active, s.step)))
    case Refusing(_, _, _) => s' == Goes(s, w, Idle)
    case Streaming => s' == Goes(s, w, Streaming) || s' == Goes(s, w, Returning)
    case Returning => s' == Goes(s, w, Idle).(active := s.active - 1)
  }

  ghost predicate Next(s: State, s': State, max: nat) {
    exists w :: 0 <= w < |s.workers| && WorkerSteps(s, s', max, w)
  }

  predicate Holds(w: Worker) { w.Streaming? || w.Returning? }

  /** The open streams: workers that hold a slot. */
  function Held(ws: seq<Worker>): nat {
    if ws == [] then 0 else Held(ws[..|ws| - 1]) + if Holds(ws[|ws| - 1]) then 1 else 0
  }

  lemma {:induction false} HeldUpdate(ws: seq<Worker>, w: nat, to: Worker)
    requires w < |ws|
    ensures Held(ws[w := to]) == Held(ws) - (if Holds(ws[w]) then 1 else 0) + (if Holds(to) then 1 else 0)
  {
    var n := |ws| - 1;
    if w == n {
      assert ws[w := to][..n] == ws[..n];
    } else {
      HeldUpdate(ws[..n], w, to);
      assert ws[w := to][..n] == ws[..n][w := to];
    }
  }

  lemma {:induction false} NoneHeld(n: nat)
    ensures Held(seq(n, _ => Idle)) == 0
  {
    if n > 0 {
      NoneHeld(n - 1);
      assert seq(n, _ => Idle)[..n - 1] == seq(n - 1, _ => Idle);
    }
  }

  // --- Runs ---

  ghost predicate IsRun(run: seq<State>, max: nat) {
    && run != [] && run[0] == Started(max)
    && forall k :: 0 <= k < |run| - 1 ==> Next(run[k], run[k + 1], max)
  }

  /** The counter is the number of open streams and never exceeds the limit. */
  ghost predicate SlotsCounted(s: State, max: nat) {
    && s.active == Held(s.workers) && s.active <= max
    && |s.workers| == max + Reserve(max)
    && forall w :: 0 <= w < |s.workers| && s.workers[w].Swapping? ==> s.workers[w].seen < max
  }

  lemma NextKeepsCount(s: State, s': State, max: nat)
    requires SlotsCounted(s, max) && Next(s, s', max)
    ensures SlotsCounted(s', max) && s'.step == s.step + 1
  {
    hide Held, Holds;
    var w :| 0 <= w < |s.workers| && WorkerSteps(s, s', max, w);
    WorkerMoves(s, s', max, w);
    hide WorkerSteps;
    HeldUpdate(s.workers, w, s'.workers[w]);
  }

  /** A step changes one worker, and the counter with the slot that worker takes or gives back. */
  lemma WorkerMoves(s: State, s': State, max: nat, w: nat)
    requires w < |s.workers| && WorkerSteps(s, s', max, w)
    ensures |s'.workers| == |s.workers| && s'.workers == s.workers[w := s'.workers[w]] && s'.step == s.step + 1
    ensures s'.active == s.active - (if Holds(s.workers[w]) then 1 else 0) + (if Holds(s'.workers[w]) then 1 else 0)
    ensures s'.active > s.active ==> s.workers[w].Swapping? && s.active == s.workers[w].seen
    ensures s'.workers[w].Swapping? ==> s'.workers[w].seen < max
  {}

  lemma {:induction false} RunCounts(run: seq<State>, max: nat, k: nat)
    requires IsRun(run, max) && k < |run|
    ensures SlotsCounted(run[k], max) && run[k].step == k
  {
    hide SlotsCounted, Next;
    if k == 0 {
      StartedCounts(max);
    } else {
      RunCounts(run, max, k - 1);
      assert Next(run[k - 1], run[k - 1 + 1], max);
      NextKeepsCount(run[k - 1], run[k], max);
    }
  }

  lemma StartedCounts(max: nat)
    ensures SlotsCounted(Started(max), max) && Started(max).step == 0
  {
    NoneHeld(max + Reserve(max));
  }

  /** Under every interleaving, spurious failures included: the counter is the number of open streams,
      at most the limit, and at least the reserve, never below two, are workers that hold no stream. */
  lemma ReserveIsFree(run: seq<State>, max: nat, k: nat)
    requires IsRun(run, max) && k < |run|
    ensures run[k].active == Held(run[k].workers) <= max
    ensures |run[k].workers| - Held(run[k].workers) >= Reserve(max) >= 2
  {
    RunCounts(run, max, k);
  }

  /** The values a worker holds were the counter's, at a step since its request arrived. */
  ghost predicate SeenIsTrue(run: seq<State>, k: nat)
    requires k < |run|
  {
    var ws := run[k].workers;
    forall w :: 0 <= w < |ws| ==> SeenBy(run, k, ws[w])
  }

  ghost predicate SeenBy(run: seq<State>, k: nat, w: Worker)
    requires k < |run|
  {
    match w
    case Testing(since, seen, at) => since <= at < k && run[at].active == seen
    case Swapping(since, seen, at) => since <= at < k && run[at].active == seen
    case Refusing(since, seen, at) => since <= at < k && run[at].active == seen
    case Loading(since) => since < k
    case _ => true
  }

  lemma NextKeepsSeen(run: seq<State>, max: nat, k: nat)
    requires IsRun(run, max) && k + 1 < |run| && run[k].step == k && SeenIsTrue(run, k)
    ensures SeenIsTrue(run, k + 1)
  {
    assert Next(run[k], run[k + 1], max);
    var w :| 0 <= w < |run[k].workers| && WorkerSteps(run[k], run[k + 1], max, w);
    var ws := run[k + 1].workers;
    forall v | 0 <= v < |ws| ensures SeenBy(run, k + 1, ws[v]) {
      assert SeenBy(run, k, run[k].workers[v]);
    }
  }

  lemma {:induction false} RunSeen(run: seq<State>, max: nat, k: nat)
    requires IsRun(run, max) && k < |run|
    ensures SeenIsTrue(run, k)
  {
    if k > 0 {
      RunSeen(run, max, k - 1);
      RunCounts(run, max, k - 1);
      NextKeepsSeen(run, max, k - 1);
    }
  }

  /** A worker that refuses saw a full house at its load, and the value it tested was at least the limit. */
  lemma {:induction false} RefusedSawLimit(run: seq<State>, max: nat, k: nat, w: nat)
    requires IsRun(run, max) && k < |run| && w < |run[k].workers| && run[k].workers[w].Refusing?
    ensures run[k].workers[w].seen >= max
  {
    if k > 0 {
      var s, s' := run[k - 1], run[k];
      assert Next(run[k - 1], run[k - 1 + 1], max);
      var v :| 0 <= v < |s.workers| && WorkerSteps(s, s', max, v);
      if s.workers[w].Refusing? && v != w {
        RefusedSawLimit(run, max, k - 1, w);
      }
    }
  }

  /** Each refusal corresponds to an instant, between the request and the refusal, when every slot was
      taken. */
  lemma RefusalsAreJustified(run: seq<State>, max: nat, k: nat, w: nat)
    requires IsRun(run, max) && k < |run| && w < |run[k].workers| && run[k].workers[w].Refusing?
    ensures exists j :: run[k].workers[w].since <= j < k && Held(run[j].workers) == max
  {
    var r := run[k].workers[w];
    RunSeen(run, max, k);
    assert SeenBy(run, k, r);
    RefusedSawLimit(run, max, k, w);
    RunCounts(run, max, r.seenAt);
  }

  /** A slot is taken and given back in pairs: a worker that leaves its stream returns the slot as it
      becomes free. */
  lemma SlotsComeBack(run: seq<State>, max: nat, k: nat)
    requires IsRun(run, max) && k < |run|
    requires forall w :: 0 <= w < |run[k].workers| ==> !Holds(run[k].workers[w])
    ensures run[k].active == 0
  {
    RunCounts(run, max, k);
    AllFree(run[k].workers);
  }

  lemma {:induction false} AllFree(ws: seq<Worker>)
    requires forall w :: 0 <= w < |ws| ==> !Holds(ws[w])
    ensures Held(ws) == 0
  {
    if ws != [] { AllFree(ws[..|ws| - 1]); }
  }

  /** With a slot free, a worker left alone gets it: load, test, swap. */
  lemma AloneGetsSlot(s: State, max: nat, w: nat)
    requires w < |s.workers| && s.workers[w] == Idle && 0 <= s.active < max
    ensures exists a, b, c, d ::
      && WorkerSteps(s, a, max, w) && |a.workers| == |s.workers|
      && WorkerSteps(a, b, max, w) && |b.workers| == |s.workers|
      && WorkerSteps(b, c, max, w) && |c.workers| == |s.workers|
      && WorkerSteps(c, d, max, w) && d == s.(active := s.active + 1, workers := s.workers[w := Streaming], step := s.step + 4)
  {
    var a := Goes(s, w, Loading(s.step));
    var b := Goes(a, w, Testing(s.step, s.active, s.step + 1));
    var c := Goes(b, w, Swapping(s.step, s.active, s.step + 1));
    var d := Goes(c, w, Streaming).(active := s.active + 1);
    assert WorkerSteps(s, a, max, w) && WorkerSteps(a, b, max, w) && WorkerSteps(b, c, max, w);
    assert WorkerSteps(c, d, max, w);
    assert d.workers == s.workers[w := Streaming];
  }
}
