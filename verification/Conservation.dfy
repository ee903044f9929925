/** Where the samples go: a pass neither loses nor duplicates one, because the two statements of a
    tier share one cutoff instant. */
module Conservation {
  import opened Rows
  import opened Ladder
  import opened Consolidation

  /** No sample is represented twice. */
  ghost predicate Exclusive(t: Table) {
    && (forall r :: r in t && r.samples != {} ==> t[r] == 1)
    && (forall r, r' :: r in t && r' in t && r != r' ==> r.samples !! r'.samples)
  }

  lemma StepConserves(t: Table, tier: Tier, now: int)
    ensures SamplesOf(Step(t, tier, now)) == SamplesOf(t)
  {
    hide Step;
    var u := Step(t, tier, now);
    StepRows(t, tier, now);
    forall s | s in SamplesOf(t) ensures s in SamplesOf(u) {
      var r :| r in t && s in r.samples;
      if Due(r, tier, now) {
        var x := Fold(t, tier, Start(r.ts, tier.size));
        assert r in Group(t, tier, x.ts);
        assert x in Folded(t, tier, now) && s in x.samples;
        assert u[x] > 0;
      } else {
        assert u[r] > 0;
      }
    }
    forall s | s in SamplesOf(u) ensures s in SamplesOf(t) {
      var x :| x in u && s in x.samples;
      assert u[x] > 0;
      if x in Folded(t, tier, now) {
        var _ := FoldedFrom(t, tier, now, x);
        var r := FoldedSample(t, tier, x.ts, s);
      }
    }
  }

  /** A sample of a folded row comes from a row of its group. */
  lemma FoldedSample(t: Table, tier: Tier, k: nat, s: Sample) returns (r: Row)
    requires s in Fold(t, tier, k).samples
    ensures r in t && Finer(r, tier) && Start(r.ts, tier.size) == k && s in r.samples
  {
    r :| r in Group(t, tier, k) && s in r.samples;
  }

  lemma FoldedDisjointFromKept(t: Table, tier: Tier, now: int, x: Row, y: Row)
    requires Exclusive(t)
    requires x in Folded(t, tier, now) && y in t && !Due(y, tier, now)
    ensures x.samples !! y.samples
  {
    var _ := FoldedFrom(t, tier, now, x);
    forall s | s in x.samples ensures s !in y.samples {
      var r := FoldedSample(t, tier, x.ts, s);
      assert r != y;
    }
  }

  lemma FoldedDisjoint(t: Table, tier: Tier, now: int, x: Row, y: Row)
    requires Exclusive(t)
    requires x in Folded(t, tier, now) && y in Folded(t, tier, now) && x != y
    ensures x.samples !! y.samples
  {
    var _ := FoldedFrom(t, tier, now, x);
    var _ := FoldedFrom(t, tier, now, y);
    assert x.ts != y.ts;
    forall s | s in x.samples ensures s !in y.samples {
      var r := FoldedSample(t, tier, x.ts, s);
      if s in y.samples {
        var r' := FoldedSample(t, tier, y.ts, s);
        assert false;
      }
    }
  }

  lemma StepExclusive(t: Table, tier: Tier, now: int)
    requires Exclusive(t)
    ensures Exclusive(Step(t, tier, now))
  {
    hide Step, Folded, Fold;
    var u := Step(t, tier, now);
    StepRows(t, tier, now);
    forall x | x in u && x.samples != {} ensures u[x] == 1 {
      if x in Folded(t, tier, now) && x in t && !Due(x, tier, now) {
        FoldedDisjointFromKept(t, tier, now, x, x);
        assert false;
      }
    }
    forall x, y | x in u && y in u && x != y ensures x.samples !! y.samples {
      assert u[x] > 0 && u[y] > 0;
      var keptX, keptY := x in t && !Due(x, tier, now), y in t && !Due(y, tier, now);
      if !keptX && !keptY {
        FoldedDisjoint(t, tier, now, x, y);
      } else if !keptX {
        FoldedDisjointFromKept(t, tier, now, x, y);
      } else if !keptY {
        FoldedDisjointFromKept(t, tier, now, y, x);
      }
    }
  }

  lemma {:induction false} TiersConserve(t: Table, ladder: seq<Tier>, k: nat, now: int)
    requires k <= |ladder|
    ensures SamplesOf(Tiers(t, ladder, k, now)) == SamplesOf(t)
    ensures Exclusive(t) ==> Exclusive(Tiers(t, ladder, k, now))
  {
    hide Step, Exclusive;
    if k > 0 {
      TiersConserve(t, ladder, k - 1, now);
      StepConserves(Tiers(t, ladder, k - 1, now), ladder[k - 1], now);
      if Exclusive(t) {
        StepExclusive(Tiers(t, ladder, k - 1, now), ladder[k - 1], now);
      }
    }
  }

  /** A pass represents the same samples as before, each still exactly once. */
  lemma PassConserves(t: Table, ladder: seq<Tier>, now: int)
    ensures SamplesOf(Pass(t, ladder, now)) == SamplesOf(t)
    ensures Exclusive(t) ==> Exclusive(Pass(t, ladder, now))
  {
    TiersConserve(t, ladder, |ladder|, now);
  }

  // --- Two cutoff instants ---

  /** A tier whose INSERT and DELETE read the clock for themselves. */
  ghost function TwoClockStep(t: Table, tier: Tier, insertNow: int, deleteNow: int): Table {
    DeleteDue(InsertFolded(t, tier, insertNow), tier, deleteNow)
  }

  /** The instant up to which whole buckets are due; 0 when none is. */
  function DueUpTo(tier: Tier, now: int): nat {
    var cut := now - tier.threshold;
    if cut < 0 then 0 else Start(cut, tier.size)
  }

  lemma DueIsUpTo(k: nat, tier: Tier, now: int)
    requires k % tier.size == 0
    ensures DueBucket(k, tier, now) <==> k + tier.size <= DueUpTo(tier, now)
  {
    var cut := now - tier.threshold;
    if DueBucket(k, tier, now) {
      NextMultiple(k, tier.size);
      if DueUpTo(tier, now) < k + tier.size {
        MultiplesApart(DueUpTo(tier, now), k + tier.size, tier.size);
      }
    }
  }

  /** A raw row of one sample. */
  ghost function LoneSample(k: nat): Row {
    Row(k, None, map[], {Sample(0, k, map[])})
  }

  /** Two cutoffs keep every sample of every table, each once, exactly when no bucket becomes due
      between them. A DELETE that reads a later clock than its INSERT loses the samples of such a
      bucket; one that reads an earlier clock leaves them represented twice. */
  lemma TwoClocksConserveIff(tier: Tier, insertNow: int, deleteNow: int)
    ensures (forall t :: ConservedBy(t, tier, insertNow, deleteNow))
            <==> DueUpTo(tier, deleteNow) == DueUpTo(tier, insertNow)
  {
    hide ConservedBy, DueUpTo;
    if DueUpTo(tier, deleteNow) == DueUpTo(tier, insertNow) {
      forall t ensures ConservedBy(t, tier, insertNow, deleteNow) {
        SameCutoffConserves(t, tier, insertNow, deleteNow);
      }
    } else {
      BoundaryBetweenBreaks(tier, insertNow, deleteNow);
    }
  }

  ghost predicate ConservedBy(t: Table, tier: Tier, insertNow: int, deleteNow: int) {
    var u := TwoClockStep(t, tier, insertNow, deleteNow);
    SamplesOf(u) == SamplesOf(t) && (Exclusive(t) ==> Exclusive(u))
  }

  lemma SameCutoffConserves(t: Table, tier: Tier, insertNow: int, deleteNow: int)
    requires DueUpTo(tier, deleteNow) == DueUpTo(tier, insertNow)
    ensures ConservedBy(t, tier, insertNow, deleteNow)
  {
    hide AddEach, DueUpTo, Exclusive;
    forall r: Row ensures Due(r, tier, insertNow) == Due(r, tier, deleteNow) {
      DueIsUpTo(Start(r.ts, tier.size), tier, insertNow);
      DueIsUpTo(Start(r.ts, tier.size), tier, deleteNow);
    }
    assert TwoClockStep(t, tier, insertNow, deleteNow) == Step(t, tier, insertNow);
    StepConserves(t, tier, insertNow);
    if Exclusive(t) { StepExclusive(t, tier, insertNow); }
  }

  /** A table of one raw row in a bucket due at one instant and not at the other. */
  lemma BoundaryBetweenBreaks(tier: Tier, insertNow: int, deleteNow: int)
    requires DueUpTo(tier, deleteNow) != DueUpTo(tier, insertNow)
    ensures exists t :: !ConservedBy(t, tier, insertNow, deleteNow)
  {
    var upTo := if DueUpTo(tier, deleteNow) > DueUpTo(tier, insertNow) then DueUpTo(tier, deleteNow)
                else DueUpTo(tier, insertNow);
    var k := LastBucket(upTo, tier.size);
    DueIsUpTo(k, tier, insertNow);
    DueIsUpTo(k, tier, deleteNow);
    if DueBucket(k, tier, insertNow) {
      LoneRowDoubled(tier, k, insertNow, deleteNow);
    } else {
      LoneRowLost(tier, k, insertNow, deleteNow);
    }
  }

  lemma LastBucket(upTo: nat, size: pos) returns (k: nat)
    requires upTo > 0 && upTo % size == 0
    ensures k % size == 0 && k + size == upTo
  {
    if upTo < size {
      MultiplesApart(0, upTo, size);
    }
    PreviousMultiple(upTo, size);
    k := upTo - size;
  }

  lemma LoneRowLost(tier: Tier, k: nat, insertNow: int, deleteNow: int)
    requires k % tier.size == 0 && !DueBucket(k, tier, insertNow) && DueBucket(k, tier, deleteNow)
    ensures !ConservedBy(multiset{LoneSample(k)}, tier, insertNow, deleteNow)
  {
    hide AddEach, Exclusive;
    StartUnique(k, tier.size, k);
    var t := multiset{LoneSample(k)};
    var u := TwoClockStep(t, tier, insertNow, deleteNow);
    assert LoneSample(k) in t;
    assert Sample(0, k, map[]) in SamplesOf(t);
    assert Folded(t, tier, insertNow) == {};
    forall x ensures u[x] == 0 {}
    assert Sample(0, k, map[]) !in SamplesOf(u);
  }

  lemma LoneRowDoubled(tier: Tier, k: nat, insertNow: int, deleteNow: int)
    requires k % tier.size == 0 && DueBucket(k, tier, insertNow) && !DueBucket(k, tier, deleteNow)
    ensures !ConservedBy(multiset{LoneSample(k)}, tier, insertNow, deleteNow)
  {
    hide AddEach;
    StartUnique(k, tier.size, k);
    var lone := LoneSample(k);
    var t := multiset{lone};
    var u := TwoClockStep(t, tier, insertNow, deleteNow);
    assert Exclusive(t);
    var x := Fold(t, tier, k);
    assert lone in t && Due(lone, tier, insertNow);
    assert lone in Group(t, tier, k);
    assert Sample(0, k, map[]) in x.samples;
    assert x in Folded(t, tier, insertNow);
    assert u[x] > 0 && u[lone] > 0;
  }

  lemma PreviousMultiple(a: nat, size: pos)
    requires a % size == 0 && a >= size
    ensures (a - size) % size == 0
  {
    var q := a / size;
    assert a - size == (q - 1) * size;
    MultipleMod(q - 1, size);
  }
}
