/** One consolidation pass as its effect on the metrics table, and why its schedule does not matter. */
module Consolidation {
  import opened Rows
  import opened Ladder

  /** `bucket_sec IS NULL OR bucket_sec < size`. */
  predicate Finer(r: Row, tier: Tier) {
    r.bucketSec == None || r.bucketSec.value < tier.size
  }

  /** The bucket starting at `k` has ended `threshold` seconds before `now`. */
  predicate DueBucket(k: nat, tier: Tier, now: int) {
    k + tier.size <= now - tier.threshold
  }

  /** The WHERE clause the INSERT and the DELETE of a tier share. */
  predicate Due(r: Row, tier: Tier, now: int) {
    Finer(r, tier) && DueBucket(Start(r.ts, tier.size), tier, now)
  }

  /** The finer rows in the bucket starting at `k`. */
  ghost function Group(t: Table, tier: Tier, k: nat): (g: Table)
    ensures forall r {:trigger g[r]} :: g[r] == if Finer(r, tier) && Start(r.ts, tier.size) == k then t[r] else 0
  {
    Filter(t, (r: Row) => Finer(r, tier) && Start(r.ts, tier.size) == k)
  }

  /** The row a bucket is folded into: stamped at the bucket start, every column averaged. */
  ghost function Fold(t: Table, tier: Tier, k: nat): Row {
    var g := Group(t, tier, k);
    Row(k, Some(tier.size), Averages(g), SamplesOf(g))
  }

  /** What the SELECT .. GROUP BY of a tier returns: one row per due bucket. */
  ghost function Folded(t: Table, tier: Tier, now: int): set<Row> {
    set r | r in t && Due(r, tier, now) :: Fold(t, tier, Start(r.ts, tier.size))
  }

  /** INSERT .. SELECT: the SELECT reads the table as it was before the INSERT. */
  ghost function InsertFolded(t: Table, tier: Tier, now: int): Table {
    AddEach(t, Folded(t, tier, now))
  }

  /** DELETE: sees the rows just inserted. */
  ghost function DeleteDue(t: Table, tier: Tier, now: int): (u: Table)
    ensures forall r {:trigger u[r]} :: u[r] == if Due(r, tier, now) then 0 else t[r]
  {
    Filter(t, (r: Row) => !Due(r, tier, now))
  }

  /** One tier of a pass: both statements against the same instant. */
  ghost function Step(t: Table, tier: Tier, now: int): Table {
    DeleteDue(InsertFolded(t, tier, now), tier, now)
  }

  /** The first `k` tiers of a pass, finest first, in one transaction. */
  ghost function Tiers(t: Table, ladder: seq<Tier>, k: nat, now: int): Table
    requires k <= |ladder|
  {
    if k == 0 then t else Step(Tiers(t, ladder, k - 1, now), ladder[k - 1], now)
  }

  ghost function Pass(t: Table, ladder: seq<Tier>, now: int): Table {
    Tiers(t, ladder, |ladder|, now)
  }

  /** What one tier leaves: the rows that were not due, plus one row per due bucket. The DELETE
      spares the rows the INSERT added, because they carry the tier's own size. */
  lemma StepRows(t: Table, tier: Tier, now: int)
    ensures forall x {:trigger Step(t, tier, now)[x]} :: Step(t, tier, now)[x]
                        == (if Due(x, tier, now) then 0 else t[x]) + (if x in Folded(t, tier, now) then 1 else 0)
  {
    forall x
      ensures Step(t, tier, now)[x]
              == (if Due(x, tier, now) then 0 else t[x]) + (if x in Folded(t, tier, now) then 1 else 0)
    {
      if x in Folded(t, tier, now) {
        assert !Finer(x, tier);
      }
    }
  }

  lemma FoldedFrom(t: Table, tier: Tier, now: int, x: Row) returns (r: Row)
    requires x in Folded(t, tier, now)
    ensures r in t && Due(r, tier, now)
    ensures x == Fold(t, tier, x.ts) && x.ts == Start(r.ts, tier.size) && x.bucketSec == Some(tier.size)
    ensures DueBucket(x.ts, tier, now)
  {
    r :| r in t && Due(r, tier, now) && x == Fold(t, tier, Start(r.ts, tier.size));
  }

  /** Equal groups fold to equal rows. */
  lemma SameGroups(t: Table, u: Table, tier: Tier, k: nat)
    requires Group(t, tier, k) == Group(u, tier, k)
    ensures Fold(t, tier, k) == Fold(u, tier, k)
  {}

  // --- A tier run twice ---

  /** A bucket that was not due keeps its group. */
  lemma NotDueKeepsGroup(t: Table, tier: Tier, now: int, k: nat)
    requires !DueBucket(k, tier, now)
    ensures Fold(Step(t, tier, now), tier, k) == Fold(t, tier, k)
  {
    hide AddEach;
    var u := Step(t, tier, now);
    StepRows(t, tier, now);
    forall r ensures Group(u, tier, k)[r] == Group(t, tier, k)[r] {
      if Finer(r, tier) { assert r !in Folded(t, tier, now); }
    }
    assert Group(u, tier, k) == Group(t, tier, k);
    SameGroups(t, u, tier, k);
  }

  /** The buckets due at `n2` are those due at `n1` and those that became due since. */
  lemma FoldedSplits(t: Table, tier: Tier, n1: int, n2: int, x: Row)
    requires n1 <= n2
    ensures x in Folded(t, tier, n2) <==> x in Folded(t, tier, n1) || x in Folded(Step(t, tier, n1), tier, n2)
    ensures !(x in Folded(t, tier, n1) && x in Folded(Step(t, tier, n1), tier, n2))
  {
    hide Step;
    var u := Step(t, tier, n1);
    StepRows(t, tier, n1);
    if x in Folded(t, tier, n1) {
      var r := FoldedFrom(t, tier, n1, x);
      assert Due(r, tier, n2);
    }
    if x in Folded(u, tier, n2) {
      var r := FoldedFrom(u, tier, n2, x);
      assert r !in Folded(t, tier, n1);
      assert r in t && Due(r, tier, n2) && !Due(r, tier, n1);
      NotDueKeepsGroup(t, tier, n1, x.ts);
    }
    if x in Folded(t, tier, n2) && x !in Folded(t, tier, n1) {
      var r := FoldedFrom(t, tier, n2, x);
      NotDueKeepsGroup(t, tier, n1, x.ts);
      assert u[r] > 0;
    }
  }

  /** Running one tier at `n1` and again at a later `n2` is running it at `n2`: a bucket moves as a
      whole, so what was due at `n1` is complete and what became due since is untouched. */
  lemma StepAbsorbs(t: Table, tier: Tier, n1: int, n2: int)
    requires n1 <= n2
    ensures Step(Step(t, tier, n1), tier, n2) == Step(t, tier, n2)
  {
    hide Step, Folded;
    var u := Step(t, tier, n1);
    StepRows(t, tier, n1);
    StepRows(u, tier, n2);
    StepRows(t, tier, n2);
    forall x ensures Step(u, tier, n2)[x] == Step(t, tier, n2)[x] {
      FoldedSplits(t, tier, n1, n2, x);
      if x in Folded(t, tier, n1) { var _ := FoldedFrom(t, tier, n1, x); }
    }
  }

  // --- Two tiers at two instants ---

  /** Every bucket of `tier` due at `now` has been folded: no finer row is left in it. */
  ghost predicate Clean(t: Table, tier: Tier, now: int) {
    forall r :: r in t ==> !Due(r, tier, now)
  }

  lemma StepCleans(t: Table, tier: Tier, now: int)
    ensures Clean(Step(t, tier, now), tier, now)
  {
    StepRows(t, tier, now);
    forall r | r in Folded(t, tier, now) ensures !Due(r, tier, now) {}
  }

  /** No tier, finer or coarser, brings a finer row into a bucket that has been folded. */
  lemma StepKeepsClean(t: Table, ladder: seq<Tier>, i: nat, j: nat, now: int, later: int)
    requires WellFormed(ladder) && i < |ladder| && j < |ladder|
    requires Clean(t, ladder[i], now)
    ensures Clean(Step(t, ladder[j], later), ladder[i], now)
  {
    StepRows(t, ladder[j], later);
    forall x | x in Folded(t, ladder[j], later) ensures !Due(x, ladder[i], now) {
      var r := FoldedFrom(t, ladder[j], later, x);
      if j < i {
        Nesting(r.ts, ladder[j].size, ladder[i].size);
        assert !Due(r, ladder[i], now);
      }
    }
  }

  /** A row due at a coarse tier is in a bucket due at every finer tier. */
  lemma DueAtFiner(ts: nat, ladder: seq<Tier>, i: nat, j: nat, now: int)
    requires WellFormed(ladder) && i < j < |ladder|
    requires DueBucket(Start(ts, ladder[j].size), ladder[j], now)
    ensures DueBucket(Start(ts, ladder[i].size), ladder[i], now)
  {
    Nesting(ts, ladder[i].size, ladder[j].size);
  }

  /** A finer tier at a later instant may run before or after a coarser tier at an earlier one, once
      the finer tier has run at the earlier instant. */
  lemma StepsCommute(t: Table, ladder: seq<Tier>, i: nat, j: nat, n1: int, n2: int)
    requires WellFormed(ladder) && i < j < |ladder| && n1 <= n2
    requires Clean(t, ladder[i], n1)
    ensures Step(Step(t, ladder[j], n1), ladder[i], n2) == Step(Step(t, ladder[i], n2), ladder[j], n1)
  {
    hide AddEach;
    var fine, coarse := ladder[i], ladder[j];
    var a, b := Step(t, coarse, n1), Step(t, fine, n2);
    StepRows(t, coarse, n1);
    StepRows(t, fine, n2);
    StepRows(a, fine, n2);
    StepRows(b, coarse, n1);
    forall r | r in t && DueBucket(Start(r.ts, coarse.size), coarse, n1) ensures !Finer(r, fine) {
      DueAtFiner(r.ts, ladder, i, j, n1);
    }
    FineSideUnchanged(t, a, fine, coarse, n1, n2);
    CoarseSideUnchanged(t, b, fine, coarse, n1, n2);
    forall x ensures Step(a, fine, n2)[x] == Step(b, coarse, n1)[x] {
      if x in Folded(t, fine, n2) {
        var r := FoldedFrom(t, fine, n2, x);
        Nesting(r.ts, fine.size, coarse.size);
        assert !Due(x, coarse, n1);
      }
      if x in Folded(t, coarse, n1) {
        assert !Finer(x, fine);
      }
    }
  }

  /** Folding the coarse buckets takes nothing from the groups of the fine tier. */
  lemma FineSideUnchanged(t: Table, a: Table, fine: Tier, coarse: Tier, n1: int, n2: int)
    requires fine.size < coarse.size && a == Step(t, coarse, n1)
    requires forall r :: r in t && DueBucket(Start(r.ts, coarse.size), coarse, n1) ==> !Finer(r, fine)
    ensures Folded(a, fine, n2) == Folded(t, fine, n2)
  {
    hide Step;
    StepRows(t, coarse, n1);
    forall r | Finer(r, fine) ensures a[r] == t[r] {
      assert r !in Folded(t, coarse, n1);
    }
    SameFinerRows(t, a, fine, n2);
  }

  /** A tier folds nothing but its finer rows. */
  lemma SameFinerRows(t: Table, u: Table, tier: Tier, now: int)
    requires forall r :: Finer(r, tier) ==> u[r] == t[r]
    ensures Folded(u, tier, now) == Folded(t, tier, now)
  {
    hide Fold;
    forall k: nat ensures Fold(u, tier, k) == Fold(t, tier, k) {
      assert Group(u, tier, k) == Group(t, tier, k);
      SameGroups(t, u, tier, k);
    }
    forall r | Due(r, tier, now) ensures r in t <==> r in u {
      assert u[r] == t[r];
    }
  }

  /** Folding the fine buckets changes nothing in the coarse buckets that are due. */
  lemma CoarseSideUnchanged(t: Table, b: Table, fine: Tier, coarse: Tier, n1: int, n2: int)
    requires coarse.size % fine.size == 0 && b == Step(t, fine, n2)
    requires forall r :: r in t && DueBucket(Start(r.ts, coarse.size), coarse, n1) ==> !Finer(r, fine)
    ensures Folded(b, coarse, n1) == Folded(t, coarse, n1)
  {
    hide AddEach;
    StepRows(t, fine, n2);
    forall x: Row | DueBucket(Start(x.ts, coarse.size), coarse, n1) ensures b[x] == t[x] {
      if x in Folded(t, fine, n2) {
        var r := FoldedFrom(t, fine, n2, x);
        Nesting(r.ts, fine.size, coarse.size);
        assert false;
      }
    }
    forall k: nat | DueBucket(k, coarse, n1) ensures Fold(b, coarse, k) == Fold(t, coarse, k) {
      assert Group(b, coarse, k) == Group(t, coarse, k);
      SameGroups(t, b, coarse, k);
    }
  }

  // --- Whole passes ---

  lemma {:induction false} TiersKeepClean(t: Table, ladder: seq<Tier>, k: nat, later: int, i: nat, now: int)
    requires WellFormed(ladder) && k <= |ladder| && i < |ladder|
    requires Clean(t, ladder[i], now)
    ensures Clean(Tiers(t, ladder, k, later), ladder[i], now)
  {
    hide Step;
    if k > 0 {
      TiersKeepClean(t, ladder, k - 1, later, i, now);
      StepKeepsClean(Tiers(t, ladder, k - 1, later), ladder, i, k - 1, now, later);
    }
  }

  /** The first `k` tiers of a pass leave nothing due at any of them. */
  lemma {:induction false} TiersClean(t: Table, ladder: seq<Tier>, k: nat, now: int)
    requires WellFormed(ladder) && k <= |ladder|
    ensures forall i :: 0 <= i < k ==> Clean(Tiers(t, ladder, k, now), ladder[i], now)
  {
    hide Step;
    if k > 0 {
      var u := Tiers(t, ladder, k - 1, now);
      TiersClean(t, ladder, k - 1, now);
      StepCleans(u, ladder[k - 1], now);
      forall i | 0 <= i < k - 1 ensures Clean(Tiers(t, ladder, k, now), ladder[i], now) {
        StepKeepsClean(u, ladder, i, k - 1, now, now);
      }
    }
  }

  /** The finer tiers of the later pass move ahead of tier `j` of the earlier one. */
  lemma {:induction false} TiersCommute(t: Table, ladder: seq<Tier>, k: nat, j: nat, n1: int, n2: int)
    requires WellFormed(ladder) && k <= j < |ladder| && n1 <= n2
    requires forall i :: 0 <= i < k ==> Clean(t, ladder[i], n1)
    ensures Tiers(Step(t, ladder[j], n1), ladder, k, n2) == Step(Tiers(t, ladder, k, n2), ladder[j], n1)
  {
    hide Step;
    if k > 0 {
      TiersCommute(t, ladder, k - 1, j, n1, n2);
      TiersKeepClean(t, ladder, k - 1, n2, k - 1, n1);
      StepsCommute(Tiers(t, ladder, k - 1, n2), ladder, k - 1, j, n1, n2);
    }
  }

  lemma {:induction false} TiersAbsorb(t: Table, ladder: seq<Tier>, k: nat, n1: int, n2: int)
    requires WellFormed(ladder) && k <= |ladder| && n1 <= n2
    ensures Tiers(Tiers(t, ladder, k, n1), ladder, k, n2) == Tiers(t, ladder, k, n2)
  {
    hide Step;
    if k > 0 {
      var before := Tiers(t, ladder, k - 1, n1);
      TiersClean(t, ladder, k - 1, n1);
      TiersCommute(before, ladder, k - 1, k - 1, n1, n2);
      TiersAbsorb(t, ladder, k - 1, n1, n2);
      StepAbsorbs(Tiers(t, ladder, k - 1, n2), ladder[k - 1], n1, n2);
    }
  }

  /** A pass leaves no trace once a later pass has run: the table is the one the later pass alone
      gives, values and provenance included. */
  lemma PassAbsorbs(t: Table, ladder: seq<Tier>, n1: int, n2: int)
    requires WellFormed(ladder) && n1 <= n2
    ensures Pass(Pass(t, ladder, n1), ladder, n2) == Pass(t, ladder, n2)
  {
    TiersAbsorb(t, ladder, |ladder|, n1, n2);
  }

  // --- Samples arriving between passes ---

  lemma StepLeavesRecent(t: Table, added: Table, tier: Tier, now: int)
    requires forall r :: r in added ==> now <= r.ts
    ensures Step(t + added, tier, now) == Step(t, tier, now) + added
  {
    hide AddEach;
    StepRows(t, tier, now);
    StepRows(t + added, tier, now);
    forall r | r in added ensures !DueBucket(Start(r.ts, tier.size), tier, now) {}
    forall k: nat | DueBucket(k, tier, now) ensures Fold(t + added, tier, k) == Fold(t, tier, k) {
      assert Group(t + added, tier, k) == Group(t, tier, k);
      SameGroups(t, t + added, tier, k);
    }
    assert Folded(t + added, tier, now) == Folded(t, tier, now);
  }

  lemma {:induction false} TiersLeaveRecent(t: Table, added: Table, ladder: seq<Tier>, k: nat, now: int)
    requires k <= |ladder|
    requires forall r :: r in added ==> now <= r.ts
    ensures Tiers(t + added, ladder, k, now) == Tiers(t, ladder, k, now) + added
  {
    hide Step;
    if k > 0 {
      TiersLeaveRecent(t, added, ladder, k - 1, now);
      StepLeavesRecent(Tiers(t, ladder, k - 1, now), added, ladder[k - 1], now);
    }
  }

  /** The schedule does not matter: a pass, then samples stamped no earlier than it, then a later
      pass, give what the later pass gives on everything at once. */
  lemma ScheduleIndependence(t: Table, added: Table, ladder: seq<Tier>, n1: int, n2: int)
    requires WellFormed(ladder) && n1 <= n2
    requires forall r :: r in added ==> n1 <= r.ts
    ensures Pass(Pass(t, ladder, n1) + added, ladder, n2) == Pass(t + added, ladder, n2)
  {
    TiersLeaveRecent(t, added, ladder, |ladder|, n1);
    PassAbsorbs(t + added, ladder, n1, n2);
  }
}
