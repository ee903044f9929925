/** Rows of the metrics table, the samples they represent, and AVG over a group of rows. */
module Rows {

  datatype Option<+T> = None | Some(value: T)

  /** The nullable REAL columns of the metrics table. */
  datatype Column =
    | Load1m | Load5m | Load15m
    | CpuUser | CpuSystem | CpuIdle
    | MemTotal | MemAvailable
    | DiskTotal | DiskAvailable
    | Temp
    | NetRx | NetTx
    | Uptime
    | SwapTotal | SwapFree
    | SwapIn | SwapOut

  /** The values of one row; a column that is NULL has no entry. */
  type Cells = map<Column, real>

  /** One collected sample: what `db_insert` stored, and when. */
  datatype Sample = Sample(id: nat, at: nat, cells: Cells)

  /** A row of the metrics table. `samples` is the provenance: the collected samples whose values
      went into the row. The program does not store it; every statement about what a pass keeps
      is a statement about it. */
  datatype Row = Row(ts: nat, bucketSec: Option<nat>, cells: Cells, samples: set<Sample>)

  type Table = multiset<Row>

  /** The rows of `t` that satisfy `p`, each as many times as in `t`. */
  ghost function Filter(t: Table, p: Row -> bool): (f: Table)
    ensures forall r {:trigger f[r]} :: f[r] == if p(r) then t[r] else 0
  {
    FilterExists(t, p);
    var f :| Selects(f, t, p);
    f
  }

  lemma FilterExists(t: Table, p: Row -> bool)
    ensures exists f :: Selects(f, t, p)
  {
    var f: Table := multiset{};
    var rest := t;
    while rest != multiset{}
      invariant rest <= t && f <= t
      invariant forall r {:trigger f[r]} {:trigger rest[r]} :: f[r] == if p(r) then t[r] - rest[r] else 0
      decreases |rest|
    {
      var x :| x in rest;
      if p(x) { f := f + multiset{x}; }
      rest := rest - multiset{x};
    }
    assert Selects(f, t, p);
  }

  ghost predicate Selects(f: Table, t: Table, p: Row -> bool) {
    forall r {:trigger f[r]} :: f[r] == if p(r) then t[r] else 0
  }

  /** `t` with every row of `rows` inserted once. */
  ghost function AddEach(t: Table, rows: set<Row>): (u: Table)
    ensures forall r {:trigger u[r]} :: u[r] == t[r] + if r in rows then 1 else 0
  {
    t + multiset(rows)
  }

  /** Every sample represented by some row of `t`. */
  ghost function SamplesOf(t: Table): (ss: set<Sample>)
    ensures forall s :: s in ss <==> exists r :: r in t && s in r.samples
  {
    set r, s | r in t && s in r.samples :: s
  }

  // --- AVG ---

  /** An arbitrary row; the sums of all columns visit a group in the same order. */
  ghost function Pick(g: Table): (r: Row)
    requires g != multiset{}
    ensures r in g
  {
    var r :| r in g; r
  }

  function CellOr0(r: Row, c: Column): real {
    if c in r.cells then r.cells[c] else 0.0
  }

  function Has(r: Row, c: Column): nat {
    if c in r.cells then 1 else 0
  }

  /** SUM(c) over a group. NULLs add nothing. */
  ghost function Sum(g: Table, c: Column): real
    decreases |g|
  {
    if g == multiset{} then 0.0
    else var r := Pick(g); CellOr0(r, c) + Sum(g - multiset{r}, c)
  }

  /** COUNT(c) over a group. NULLs are not counted. */
  ghost function Count(g: Table, c: Column): nat
    decreases |g|
  {
    if g == multiset{} then 0
    else var r := Pick(g); Has(r, c) + Count(g - multiset{r}, c)
  }

  /** The order in which a group is added up does not matter. */
  lemma {:induction false} SumRemove(g: Table, r: Row, c: Column)
    requires r in g
    ensures Sum(g, c) == CellOr0(r, c) + Sum(g - multiset{r}, c)
    ensures Count(g, c) == Has(r, c) + Count(g - multiset{r}, c)
    decreases |g|
  {
    var p := Pick(g);
    if p != r {
      SumRemove(g - multiset{p}, r, c);
      SumRemove(g - multiset{r}, p, c);
      assert g - multiset{p} - multiset{r} == g - multiset{r} - multiset{p};
    }
  }

  /** COUNT is positive exactly when some row of the group has a value. */
  lemma {:induction false} CountPositive(g: Table, c: Column)
    ensures Count(g, c) > 0 <==> exists r :: r in g && c in r.cells
    decreases |g|
  {
    if g != multiset{} {
      var p := Pick(g);
      CountPositive(g - multiset{p}, c);
      forall r | r in g && c in r.cells && r != p
        ensures r in g - multiset{p}
      {}
    }
  }

  /** AVG of every column: SQLite's AVG skips NULLs and is NULL when every value is. */
  ghost function Averages(g: Table): (cells: Cells)
    ensures forall c :: c in cells <==> Count(g, c) > 0
    ensures forall c :: c in cells ==> cells[c] == Sum(g, c) / Count(g, c) as real
  {
    map c: Column | Count(g, c) > 0 :: Sum(g, c) / Count(g, c) as real
  }

  /** `x` added up `n` times. */
  ghost function Times(n: nat, x: real): real {
    if n == 0 then 0.0 else x + Times(n - 1, x)
  }

  lemma {:induction false} TimesIsProduct(n: nat, x: real)
    ensures Times(n, x) == n as real * x
  {
    if n > 0 {
      TimesIsProduct(n - 1, x);
      OneMore((n - 1) as real, x);
    }
  }

  lemma OneMore(m: real, x: real)
    ensures (m + 1.0) * x == m * x + x
  {}

  /** If every value of a column is below `hi`, so is the sum below `hi` times the count. */
  lemma {:induction false} SumBelow(g: Table, c: Column, hi: real)
    requires forall r :: r in g && c in r.cells ==> r.cells[c] < hi
    ensures Count(g, c) == 0 ==> Sum(g, c) == 0.0
    ensures Count(g, c) > 0 ==> Sum(g, c) < Times(Count(g, c), hi)
    decreases |g|
  {
    if g != multiset{} {
      hide Sum, Count;
      var p := Pick(g);
      SumBelow(g - multiset{p}, c, hi);
      SumRemove(g, p, c);
    }
  }

  lemma {:induction false} SumAbove(g: Table, c: Column, lo: real)
    requires forall r :: r in g && c in r.cells ==> lo < r.cells[c]
    ensures Count(g, c) == 0 ==> Sum(g, c) == 0.0
    ensures Count(g, c) > 0 ==> Times(Count(g, c), lo) < Sum(g, c)
    decreases |g|
  {
    if g != multiset{} {
      hide Sum, Count;
      var p := Pick(g);
      SumAbove(g - multiset{p}, c, lo);
      SumRemove(g, p, c);
    }
  }

  /** The average of a column times its count is its sum. */
  lemma AverageTimesCount(g: Table, c: Column)
    requires Count(g, c) > 0
    ensures Times(Count(g, c), Averages(g)[c]) == Sum(g, c)
  {
    TimesQuotient(Sum(g, c), Count(g, c));
  }

  lemma TimesQuotient(sum: real, n: nat)
    requires n > 0
    ensures Times(n, sum / n as real) == sum
  {
    TimesIsProduct(n, sum / n as real);
    QuotientTimes(sum, n as real);
  }

  lemma QuotientTimes(sum: real, n: real)
    requires n != 0.0
    ensures n * (sum / n) == sum
  {}

  /** An average lies between two values it averages. */
  lemma AverageInHull(g: Table, c: Column)
    requires c in Averages(g)
    ensures exists r, r' :: r in g && r' in g && c in r.cells && c in r'.cells
                            && r.cells[c] <= Averages(g)[c] <= r'.cells[c]
  {
    var avg := Averages(g)[c];
    AverageTimesCount(g, c);
    if forall r :: r in g && c in r.cells ==> r.cells[c] < avg {
      SumBelow(g, c, avg);
      assert false;
    }
    if forall r :: r in g && c in r.cells ==> avg < r.cells[c] {
      SumAbove(g, c, avg);
      assert false;
    }
    var r' :| r' in g && c in r'.cells && avg <= r'.cells[c];
    var r :| r in g && c in r.cells && r.cells[c] <= avg;
  }
}
