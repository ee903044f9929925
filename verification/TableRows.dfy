/** Rows kept in a sequence, in rowid order, and what the statements compute from them. */
module TableRows {
  import opened Rows
  import opened Ladder
  import opened Consolidation

  /** The rows a WHERE clause selects, in order. */
  function Where(rows: seq<Row>, p: Row -> bool): (sel: seq<Row>)
    ensures forall r :: r in sel <==> r in rows && p(r)
    ensures |sel| <= |rows|
  {
    if rows == [] then []
    else
      var sel := Where(rows[..|rows| - 1], p);
      if p(rows[|rows| - 1]) then sel + [rows[|rows| - 1]] else sel
  }

  lemma {:induction false} WhereIsFilter(rows: seq<Row>, p: Row -> bool)
    ensures multiset(Where(rows, p)) == Filter(multiset(rows), p)
  {
    hide Filter;
    if rows != [] {
      var last := rows[|rows| - 1];
      WhereIsFilter(rows[..|rows| - 1], p);
      assert rows == rows[..|rows| - 1] + [last];
      forall r ensures multiset(Where(rows, p))[r] == Filter(multiset(rows), p)[r] {}
    }
  }

  function SumOf(rows: seq<Row>, c: Column): real {
    if rows == [] then 0.0 else SumOf(rows[..|rows| - 1], c) + CellOr0(rows[|rows| - 1], c)
  }

  function CountOf(rows: seq<Row>, c: Column): nat {
    if rows == [] then 0 else CountOf(rows[..|rows| - 1], c) + Has(rows[|rows| - 1], c)
  }

  /** Adding up in row order gives the sum and the count of the group. */
  lemma {:induction false} SumOfIsSum(rows: seq<Row>, c: Column)
    ensures SumOf(rows, c) == Sum(multiset(rows), c) && CountOf(rows, c) == Count(multiset(rows), c)
  {
    if rows != [] {
      hide Sum, Count;
      SumOfIsSum(rows[..|rows| - 1], c);
      WithoutLast(rows);
      SumRemove(multiset(rows), rows[|rows| - 1], c);
    }
  }

  lemma WithoutLast(rows: seq<Row>)
    requires rows != []
    ensures rows[|rows| - 1] in multiset(rows)
    ensures multiset(rows) - multiset{rows[|rows| - 1]} == multiset(rows[..|rows| - 1])
  {
    assert rows == rows[..|rows| - 1] + [rows[|rows| - 1]];
  }

  function AveragesOf(rows: seq<Row>): Cells {
    map c: Column | CountOf(rows, c) > 0 :: SumOf(rows, c) / CountOf(rows, c) as real
  }

  lemma AveragesOfIsAverages(rows: seq<Row>)
    ensures AveragesOf(rows) == Averages(multiset(rows))
  {
    hide Sum, Count, SumOf, CountOf;
    forall c ensures SumOf(rows, c) == Sum(multiset(rows), c) && CountOf(rows, c) == Count(multiset(rows), c) {
      SumOfIsSum(rows, c);
    }
  }

  function SamplesIn(rows: seq<Row>): set<Sample> {
    set r, s | r in rows && s in r.samples :: s
  }

  /** The rows one bucket of a tier is folded from. */
  function GroupOf(rows: seq<Row>, tier: Tier, k: nat): seq<Row> {
    Where(rows, (r: Row) => Finer(r, tier) && Start(r.ts, tier.size) == k)
  }

  function FoldOf(rows: seq<Row>, tier: Tier, k: nat): Row {
    var g := GroupOf(rows, tier, k);
    Row(k, Some(tier.size), AveragesOf(g), SamplesIn(g))
  }

  lemma FoldOfIsFold(rows: seq<Row>, tier: Tier, k: nat)
    ensures FoldOf(rows, tier, k) == Fold(multiset(rows), tier, k)
  {
    hide Averages, AveragesOf;
    var g := GroupOf(rows, tier, k);
    WhereIsFilter(rows, (r: Row) => Finer(r, tier) && Start(r.ts, tier.size) == k);
    assert multiset(g) == Group(multiset(rows), tier, k);
    AveragesOfIsAverages(g);
    assert SamplesIn(g) == SamplesOf(multiset(g));
  }
}
