/** When pruning may be moved across a pass, and what it loses when it may not. */
module Pruning {
  import opened Rows
  import opened Ladder
  import opened Consolidation
  import opened Conservation
  import opened Runs
  import opened RangeQuery
  import opened Buckets
  import opened RowBound
  import opened Histories
  import opened Requests

  /** Pruning before or after the pass makes no difference to the table. */
  ghost predicate Commutes(t: Table, ladder: seq<Tier>, now: int, cutoff: int) {
    Retained(Pass(t, ladder, now), cutoff) == Pass(Retained(t, cutoff), ladder, now)
  }

  /** Pruning at a cutoff and a pass can be exchanged on every table exactly when the cutoff lies
      inside no due bucket of any tier. */
  lemma PruneCommutesIff(ladder: seq<Tier>, now: int, cutoff: int)
    requires WellFormed(ladder)
    ensures (forall t :: Commutes(t, ladder, now, cutoff)) <==> CutsBetween(cutoff, ladder, now)
  {
    hide Commutes, Straddles;
    if CutsBetween(cutoff, ladder, now) {
      forall t ensures Commutes(t, ladder, now, cutoff) { CutsCommute(t, ladder, now, cutoff); }
    } else {
      var i :| 0 <= i < |ladder| && Straddles(cutoff, ladder[i], now);
      CutoffRowLost(ladder, now, cutoff, i);
    }
  }

  lemma CutsCommute(t: Table, ladder: seq<Tier>, now: int, cutoff: int)
    requires CutsBetween(cutoff, ladder, now)
    ensures Commutes(t, ladder, now, cutoff)
  {
    PrunePass(t, ladder, now, cutoff);
  }

  /** The tables that tell the two orders apart: a lone row stamped at the cutoff. Pruned first it stays
      and is folded; folded first it moves in front of the cutoff and is pruned, young as it is. */
  lemma CutoffRowLost(ladder: seq<Tier>, now: int, cutoff: int, i: nat)
    requires WellFormed(ladder) && i < |ladder| && Straddles(cutoff, ladder[i], now)
    ensures !Commutes(multiset{LoneSample(cutoff)}, ladder, now, cutoff)
  {
    assert cutoff > 0;
    hide Pass, Straddles, Exclusive;
    var t, s := multiset{LoneSample(cutoff)}, Sample(0, cutoff, map[]);
    assert Retained(t, cutoff) == t;
    PassConserves(t, ladder, now);
    var u := Pass(t, ladder, now);
    assert s in SamplesOf(u) by { assert LoneSample(cutoff) in t; }
    forall x | x in Retained(u, cutoff) ensures s !in x.samples {
      assert Retained(u, cutoff)[x] > 0;
      if s in x.samples {
        FoldedInFront(ladder, now, cutoff, i, x);
        assert false;
      }
    }
    assert s !in SamplesOf(Retained(u, cutoff));
  }

  /** The pass moves the lone row in front of the cutoff: to the start of a bucket at least as wide as
      the one the cutoff cuts. */
  lemma FoldedInFront(ladder: seq<Tier>, now: int, cutoff: nat, i: nat, x: Row)
    requires WellFormed(ladder) && i < |ladder| && Straddles(cutoff, ladder[i], now)
    requires x in Pass(multiset{LoneSample(cutoff)}, ladder, now) && x.samples != {}
    ensures x.ts < cutoff
  {
    hide Pass, Traced, Continues, WellFormed;
    var lone, t := LoneSample(cutoff), multiset{LoneSample(cutoff)};
    PassTraced(t, ladder, now);
    var s :| s in x.samples;
    TracedTo(t, Pass(t, ladder, now), ladder, now, x, s);
    TiersClean(t, ladder, |ladder|, now);
    assert !Due(x, ladder[i], now) by { PassIsTiers(t, ladder, now); }
    if x != lone {
      var j := ContinuesIn(lone, x, ladder, now);
      if j < i {
        Sizes(ladder, j, i);
        Nesting(cutoff, ladder[j].size, ladder[i].size);
        assert false;
      }
      if x.ts == cutoff && j > i {
        Sizes(ladder, i, j);
        MultipleOfMultiple(cutoff, ladder[i].size, ladder[j].size);
        assert false;
      }
    }
  }

  lemma TracedTo(t: Table, u: Table, ladder: seq<Tier>, now: int, x: Row, s: Sample)
    requires Traced(t, u, ladder, |ladder|, now) && x in u && s in x.samples
    ensures exists r :: r in t && Continues(r, x, ladder, |ladder|, now)
  {}

  lemma PassIsTiers(t: Table, ladder: seq<Tier>, now: int)
    ensures Pass(t, ladder, now) == Tiers(t, ladder, |ladder|, now)
  {}

  lemma Sizes(ladder: seq<Tier>, i: nat, j: nat)
    requires WellFormed(ladder) && i < j < |ladder|
    ensures ladder[i].size < ladder[j].size && ladder[j].size % ladder[i].size == 0
  {}

  // --- How young a pruned sample can be ---

  /** A history of two cycles that prunes a sample 21598 seconds younger than its cutoff: so of a window
      that reaches back to the cutoff, no fewer than 21599 seconds have to be given up. */
  lemma YoungSamplePruned(k: nat, interval: pos)
    requires k % 21600 == 0 && interval < 21600
    ensures var at, days := k + 1 + 367 * 86400, 367;
            var events, s := CyclesAt([k + 21599, at], days), Sample(0, k + 21599, map[]);
            && IsHistory(events) && ClockRises(events) && s in After(events, LADDER, interval).pruned
            && s.at == Cutoff(at, days) + 21599 - 1
            && s !in SamplesOf(After(events, LADDER, interval).table)
  {
    hide After, CyclesAt, IsHistory, Placed, Settled, Clean, WellFormed, Exclusive;
    var at, days := k + 1 + 367 * 86400, 367;
    var times := [k + 21599, at];
    var s, u := SampleAt(times, 0), After(CyclesAt(times, days), LADDER, interval);
    LadderIsWellFormed();
    TierFacts(4);
    StartUnique(k + 21599, 21600, k);
    CyclesAreHistory(times, days);
    CyclesLeave(times, days, LADDER, interval);
    CyclesCollect(times, days, LADDER, interval);
    assert IsSample(times, s);
    forall r | r in u.table ensures s !in r.samples {
      if s in r.samples { RowOfTier(u.table, LADDER, interval, at, 4, r, s); }
    }
  }
}
