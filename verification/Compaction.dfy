/** The consolidation that closes a migration: a fixed number of passes, each at its own instant. */
module Compaction {
  import opened Rows
  import opened Ladder
  import opened Consolidation
  import opened MetricsDb

  const PASSES: nat := |LADDER| + 3

  /** The instants never go back. */
  predicate Rises(instants: seq<nat>) {
    forall i, j :: 0 <= i < j < |instants| ==> instants[i] <= instants[j]
  }

  ghost function Passes(t: Table, instants: seq<nat>): Table {
    if instants == [] then t
    else Pass(Passes(t, instants[..|instants| - 1]), LADDER, instants[|instants| - 1])
  }

  /** Any number of passes ends where the last one alone would: a single pass already folds every row
      as far as it is due, so the passes before the last change nothing. */
  lemma {:induction false} PassesEndAtTheLast(t: Table, instants: seq<nat>)
    requires instants != [] && Rises(instants)
    ensures Passes(t, instants) == Pass(t, LADDER, instants[|instants| - 1])
  {
    hide Pass;
    LadderIsWellFormed();
    var n := |instants| - 1;
    if n > 0 {
      PassesEndAtTheLast(t, instants[..n]);
      PassAbsorbs(t, LADDER, instants[n - 1], instants[n]);
    } else {
      assert instants[..0] == [];
    }
  }

  /** `migrate_consolidate_and_vacuum` without the VACUUM, which changes no row. Stops at the first pass
      that fails, with 2; that pass is rolled back. */
  method ConsolidateAll(db: Db, instants: seq<nat>, failing: seq<Option<nat>>) returns (rc: int, done: nat)
    requires |instants| == |failing| == 8 && Rises(instants)
    modifies db`metrics
    ensures rc == 0 || rc == 2
    ensures done <= 8 && (rc == 0 <==> done == 8)
    ensures db.Table() == if done == 0 then old(db.Table()) else Pass(old(db.Table()), LADDER, instants[done - 1])
  {
    hide Pass;
    done := 0;
    for i := 0 to PASSES
      invariant done == i
      invariant db.Table() == Passes(old(db.Table()), instants[..i])
    {
      assert instants[..i + 1][..i] == instants[..i];
      var one := db.Consolidate(instants[i], failing[i]);
      if one != 0 {
        if i > 0 { PassesEndAtTheLast(old(db.Table()), instants[..i]); }
        return 2, i;
      }
      done := i + 1;
    }
    PassesEndAtTheLast(old(db.Table()), instants[..PASSES]);
    return 0, PASSES;
  }
}
