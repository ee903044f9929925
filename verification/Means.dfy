/** When averaging averages gives the average: AVG weighs every row alike, however many samples it
    stands for. */
module Means {
  import opened Rows
  import opened Ladder
  import opened Consolidation
  import opened Conservation

  // --- On numbers ---

  function RealSum(xs: seq<real>): real {
    if xs == [] then 0.0 else RealSum(xs[..|xs| - 1]) + xs[|xs| - 1]
  }

  function NatSum(ns: seq<pos>): (n: nat)
    ensures ns != [] ==> n > 0
  {
    if ns == [] then 0 else NatSum(ns[..|ns| - 1]) + ns[|ns| - 1]
  }

  function Quotient(sums: seq<real>, counts: seq<pos>, i: nat): real
    requires i < |sums| == |counts|
  {
    sums[i] / counts[i] as real
  }

  function Quotients(sums: seq<real>, counts: seq<pos>): (q: seq<real>)
    requires |sums| == |counts|
    ensures |q| == |sums|
  {
    seq(|sums|, i requires 0 <= i < |sums| => Quotient(sums, counts, i))
  }

  /** The mean of the groups' means. */
  function MeanOfMeans(sums: seq<real>, counts: seq<pos>): real
    requires |sums| == |counts| > 0
  {
    RealSum(Quotients(sums, counts)) / |counts| as real
  }

  /** The mean of all that is in the groups. */
  function MeanOfAll(sums: seq<real>, counts: seq<pos>): real
    requires |sums| == |counts| > 0
  {
    RealSum(sums) / NatSum(counts) as real
  }

  ghost predicate MeansAgree(counts: seq<pos>, sums: seq<real>)
    requires counts != []
  {
    |sums| == |counts| ==> MeanOfMeans(sums, counts) == MeanOfAll(sums, counts)
  }

  predicate AllEqual(counts: seq<pos>) {
    forall i, j :: 0 <= i < |counts| && 0 <= j < |counts| ==> counts[i] == counts[j]
  }

  /** For groups of given sizes, the mean of the means is the mean, whatever the values, exactly when the
      groups are all of one size. */
  lemma MeansAgreeIff(counts: seq<pos>)
    requires counts != []
    ensures (forall sums :: MeansAgree(counts, sums)) <==> AllEqual(counts)
  {
    hide MeansAgree;
    if AllEqual(counts) {
      forall sums: seq<real> ensures MeansAgree(counts, sums) { EqualCountsAgree(counts, sums); }
    } else {
      var i, j :| 0 <= i < |counts| && 0 <= j < |counts| && counts[i] != counts[j];
      if MeansAgree(counts, Alone(counts, i)) && MeansAgree(counts, Alone(counts, j)) {
        AloneMeans(counts, i);
        AloneMeans(counts, j);
        Cancel(|counts|, counts[i], counts[j]);
        assert false;
      }
    }
  }

  lemma Cancel(m: pos, a: nat, b: nat)
    requires m * a == m * b
    ensures a == b
  {
    assert m * (a - b) == 0;
  }

  lemma EqualCountsAgree(counts: seq<pos>, sums: seq<real>)
    requires counts != [] && AllEqual(counts)
    ensures MeansAgree(counts, sums)
  {
    if |sums| == |counts| {
      var n := counts[0];
      EqualSum(counts, n);
      EqualQuotients(sums, counts, n);
      DivideTwice(RealSum(sums), n as real, |counts| as real);
    }
  }

  lemma {:induction false} EqualSum(counts: seq<pos>, n: pos)
    requires forall i :: 0 <= i < |counts| ==> counts[i] == n
    ensures NatSum(counts) == |counts| * n
  {
    if counts != [] { EqualSum(counts[..|counts| - 1], n); }
  }

  lemma {:induction false} EqualQuotients(sums: seq<real>, counts: seq<pos>, n: pos)
    requires |sums| == |counts| && forall i :: 0 <= i < |counts| ==> counts[i] == n
    ensures RealSum(Quotients(sums, counts)) == RealSum(sums) / n as real
  {
    if sums != [] {
      var k := |sums| - 1;
      EqualQuotients(sums[..k], counts[..k], n);
      assert Quotients(sums, counts)[..k] == Quotients(sums[..k], counts[..k]);
      DivideSum(RealSum(sums[..k]), sums[k], n as real);
    }
  }

  lemma DivideSum(a: real, b: real, n: real)
    requires n != 0.0
    ensures (a + b) / n == a / n + b / n
  {}

  lemma DivideTwice(a: real, n: real, m: real)
    requires n > 0.0 && m > 0.0
    ensures m * n > 0.0 && a / n / m == a / (m * n)
  {
    var q := a / n / m;
    assert q * m == a / n && a / n * n == a;
    assert q * (m * n) == a;
  }

  /** Group `i` holds ones, the others zeros. */
  function Alone(counts: seq<pos>, i: nat): (sums: seq<real>)
    ensures |sums| == |counts|
  {
    seq(|counts|, j requires 0 <= j < |counts| => if j == i then counts[j] as real else 0.0)
  }

  lemma AloneMeans(counts: seq<pos>, i: nat)
    requires i < |counts| && MeansAgree(counts, Alone(counts, i))
    ensures NatSum(counts) == |counts| * counts[i]
  {
    var sums := Alone(counts, i);
    OneTerm(sums, i, counts[i] as real);
    AloneQuotients(counts, i);
    OneTerm(Quotients(sums, counts), i, 1.0);
    hide RealSum, NatSum, Alone, Quotients;
    CrossMultiply(|counts|, counts[i], NatSum(counts));
  }

  lemma AloneQuotients(counts: seq<pos>, i: nat)
    requires i < |counts|
    ensures var q := Quotients(Alone(counts, i), counts);
            q[i] == 1.0 && forall j :: 0 <= j < |q| && j != i ==> q[j] == 0.0
  {
    var q := Quotients(Alone(counts, i), counts);
    forall j | 0 <= j < |q| ensures q[j] == if j == i then 1.0 else 0.0 {
      assert q[j] == Quotient(Alone(counts, i), counts, j);
      SimpleQuotients(counts[j] as real);
    }
  }

  lemma SimpleQuotients(n: real)
    requires n > 0.0
    ensures n / n == 1.0 && 0.0 / n == 0.0
  {}

  lemma CrossMultiply(m: pos, n: pos, total: pos)
    requires 1.0 / m as real == n as real / total as real
    ensures total == m * n
  {
    var q := 1.0 / m as real;
    assert q * m as real == 1.0 && q * total as real == n as real;
    assert total as real == q * m as real * total as real == n as real * m as real;
    assert n as real * m as real == (n * m) as real;
  }

  lemma {:induction false} OneTerm(xs: seq<real>, i: nat, x: real)
    requires i < |xs| && xs[i] == x && forall j :: 0 <= j < |xs| && j != i ==> xs[j] == 0.0
    ensures RealSum(xs) == x
  {
    var k := |xs| - 1;
    if i == k { NoTerm(xs[..k]); } else { OneTerm(xs[..k], i, x); }
  }

  lemma {:induction false} NoTerm(xs: seq<real>)
    requires forall j :: 0 <= j < |xs| ==> xs[j] == 0.0
    ensures RealSum(xs) == 0.0
  {
    if xs != [] { NoTerm(xs[..|xs| - 1]); }
  }

  /** One value 0 in a bucket and two values 1 in the next: their mean is 2/3, that of the means 1/2. */
  lemma UnequalCountsMiss()
    ensures MeanOfMeans([0.0, 2.0], [1, 2]) == 0.5 && MeanOfAll([0.0, 2.0], [1, 2]) == 2.0 / 3.0
  {
    var s := [0.0, 2.0];
    var q := Quotients(s, [1, 2]);
    assert q[..1] == [0.0] && q[1] == 1.0 && q[..1][..0] == [];
    assert s[..1] == [0.0] && s[..1][..0] == [];
    assert RealSum(q[..1]) == 0.0 && RealSum(s[..1]) == 0.0;
    assert [1 as pos, 2][..1] == [1] && NatSum([1]) == 1;
  }

  // --- On rows ---

  /** Sums and counts of groups taken together are the sums of theirs. */
  lemma {:induction false} SumAdds(g: Table, h: Table, c: Column)
    ensures Sum(g + h, c) == Sum(g, c) + Sum(h, c)
    ensures Count(g + h, c) == Count(g, c) + Count(h, c)
    decreases |g|
  {
    if g == multiset{} {
      assert g + h == h;
    } else {
      var p := Pick(g);
      SumAdds(g - multiset{p}, h, c);
      SumRemove(g + h, p, c);
      assert g + h - multiset{p} == g - multiset{p} + h;
    }
  }

  lemma {:induction false} NullAddsNothing(g: Table, c: Column)
    requires forall r :: r in g ==> c !in r.cells
    ensures Sum(g, c) == 0.0 && Count(g, c) == 0
    decreases |g|
  {
    if g != multiset{} { NullAddsNothing(g - multiset{Pick(g)}, c); }
  }

  /** The rows of a group that have a value. */
  ghost function Valued(g: Table, c: Column): (v: Table)
    ensures forall r {:trigger v[r]} :: v[r] == if c in r.cells then g[r] else 0
  {
    Filter(g, (r: Row) => c in r.cells)
  }

  lemma ValuedSums(g: Table, c: Column)
    ensures Sum(Valued(g, c), c) == Sum(g, c) && Count(Valued(g, c), c) == Count(g, c)
  {
    hide Sum, Count;
    var nulls := g - Valued(g, c);
    assert Valued(g, c) <= g;
    assert g == Valued(g, c) + nulls;
    forall r | r in nulls ensures c !in r.cells { assert nulls[r] > 0; }
    NullAddsNothing(nulls, c);
    SumAdds(Valued(g, c), nulls, c);
  }

  /** The buckets of the fine tier, inside the bucket of the coarse tier starting at `k`, that have a
      value of the column; each once. */
  ghost predicate ValuedStarts(t: Table, fine: Tier, coarse: Tier, k: nat, c: Column, starts: seq<nat>) {
    && (forall i, j :: 0 <= i < j < |starts| ==> starts[i] != starts[j])
    && (forall b: nat :: b in starts <==> b % fine.size == 0 && Start(b, coarse.size) == k && Count(Group(t, fine, b), c) > 0)
  }

  ghost function SumsAt(t: Table, fine: Tier, c: Column, starts: seq<nat>): (sums: seq<real>)
    ensures |sums| == |starts|
  {
    seq(|starts|, i requires 0 <= i < |starts| => Sum(Group(t, fine, starts[i]), c))
  }

  ghost function CountsAt(t: Table, fine: Tier, c: Column, starts: seq<nat>): (counts: seq<pos>)
    requires forall b :: b in starts ==> Count(Group(t, fine, b), c) > 0
    ensures |counts| == |starts|
  {
    seq(|starts|, i requires 0 <= i < |starts| => assert starts[i] in starts; Count(Group(t, fine, starts[i]), c) as pos)
  }

  /** The fine groups together. */
  ghost function Union(t: Table, fine: Tier, starts: seq<nat>): Table {
    if starts == [] then multiset{}
    else Union(t, fine, starts[..|starts| - 1]) + Group(t, fine, starts[|starts| - 1])
  }

  lemma {:induction false} UnionRows(t: Table, fine: Tier, starts: seq<nat>, r: Row)
    requires forall i, j :: 0 <= i < j < |starts| ==> starts[i] != starts[j]
    ensures Union(t, fine, starts)[r] == if Finer(r, fine) && Start(r.ts, fine.size) in starts then t[r] else 0
  {
    if starts != [] {
      var n := |starts| - 1;
      UnionRows(t, fine, starts[..n], r);
      assert starts == starts[..n] + [starts[n]];
    }
  }

  lemma {:induction false} UnionSums(t: Table, fine: Tier, c: Column, starts: seq<nat>)
    requires forall b :: b in starts ==> Count(Group(t, fine, b), c) > 0
    ensures Sum(Union(t, fine, starts), c) == RealSum(SumsAt(t, fine, c, starts))
    ensures Count(Union(t, fine, starts), c) == NatSum(CountsAt(t, fine, c, starts))
  {
    hide Group, SumsAt, CountsAt;
    if starts != [] {
      hide Sum, Count;
      var n := |starts| - 1;
      UnionSums(t, fine, c, starts[..n]);
      SumAdds(Union(t, fine, starts[..n]), Group(t, fine, starts[n]), c);
      FrontAt(t, fine, c, starts);
    }
  }

  lemma FrontAt(t: Table, fine: Tier, c: Column, starts: seq<nat>)
    requires starts != [] && forall b :: b in starts ==> Count(Group(t, fine, b), c) > 0
    ensures var n, sums, counts := |starts| - 1, SumsAt(t, fine, c, starts), CountsAt(t, fine, c, starts);
            && sums[..n] == SumsAt(t, fine, c, starts[..n]) && sums[n] == Sum(Group(t, fine, starts[n]), c)
            && counts[..n] == CountsAt(t, fine, c, starts[..n]) && counts[n] == Count(Group(t, fine, starts[n]), c)
  {
    hide Sum, Count, Group;
  }

  /** The rows they are folded into. */
  ghost function FoldsOf(t: Table, fine: Tier, starts: seq<nat>): Table {
    if starts == [] then multiset{}
    else FoldsOf(t, fine, starts[..|starts| - 1]) + multiset{Fold(t, fine, starts[|starts| - 1])}
  }

  lemma {:induction false} FoldsRows(t: Table, fine: Tier, starts: seq<nat>, x: Row)
    requires forall i, j :: 0 <= i < j < |starts| ==> starts[i] != starts[j]
    ensures FoldsOf(t, fine, starts)[x] == if x.ts in starts && x == Fold(t, fine, x.ts) then 1 else 0
  {
    if starts != [] {
      var n := |starts| - 1;
      FoldsRows(t, fine, starts[..n], x);
      assert starts == starts[..n] + [starts[n]];
      assert Fold(t, fine, starts[n]).ts == starts[n];
    }
  }

  lemma {:induction false} FoldsSums(t: Table, fine: Tier, c: Column, starts: seq<nat>)
    requires forall b :: b in starts ==> Count(Group(t, fine, b), c) > 0
    ensures Sum(FoldsOf(t, fine, starts), c) == RealSum(Quotients(SumsAt(t, fine, c, starts), CountsAt(t, fine, c, starts)))
    ensures Count(FoldsOf(t, fine, starts), c) == |starts|
  {
    hide SumsAt, CountsAt, Quotients, Group, Fold, Sum, Count;
    if starts == [] {
      NullAddsNothing(multiset{}, c);
      assert Quotients(SumsAt(t, fine, c, starts), CountsAt(t, fine, c, starts)) == [];
    } else {
      var n := |starts| - 1;
      var x := Fold(t, fine, starts[n]);
      FoldsSums(t, fine, c, starts[..n]);
      OneRow(x, c);
      assert starts[n] in starts;
      FoldValue(t, fine, c, starts[n]);
      SumAdds(FoldsOf(t, fine, starts[..n]), multiset{x}, c);
      QuotientsFront(t, fine, c, starts);
    }
  }

  lemma FoldValue(t: Table, fine: Tier, c: Column, b: nat)
    requires Count(Group(t, fine, b), c) > 0
    ensures var x := Fold(t, fine, b);
            c in x.cells && x.cells[c] == Sum(Group(t, fine, b), c) / Count(Group(t, fine, b), c) as real
  {
    hide Sum, Count, Group;
  }

  lemma QuotientsFront(t: Table, fine: Tier, c: Column, starts: seq<nat>)
    requires starts != [] && forall b :: b in starts ==> Count(Group(t, fine, b), c) > 0
    ensures var n := |starts| - 1;
            var q := Quotients(SumsAt(t, fine, c, starts), CountsAt(t, fine, c, starts));
            && q[..n] == Quotients(SumsAt(t, fine, c, starts[..n]), CountsAt(t, fine, c, starts[..n]))
            && q[n] == Sum(Group(t, fine, starts[n]), c) / Count(Group(t, fine, starts[n]), c) as real
  {
    hide Sum, Count, Group, SumsAt, CountsAt;
    FrontAt(t, fine, c, starts);
  }

  lemma OneRow(x: Row, c: Column)
    ensures Sum(multiset{x}, c) == CellOr0(x, c) && Count(multiset{x}, c) == Has(x, c)
  {
    SumRemove(multiset{x}, x, c);
    assert multiset{x} - multiset{x} == multiset{};
  }

  /** What the coarse bucket holds before the fine tier has run on it, and after. */
  lemma CoarseBefore(t: Table, fine: Tier, coarse: Tier, k: nat, c: Column, starts: seq<nat>)
    requires coarse.size % fine.size == 0 && fine.size < coarse.size
    requires forall r :: r in Group(t, coarse, k) ==> Finer(r, fine)
    requires ValuedStarts(t, fine, coarse, k, c, starts)
    ensures Valued(Group(t, coarse, k), c) == Valued(Union(t, fine, starts), c)
  {
    hide Count, Sum;
    forall r ensures Valued(Group(t, coarse, k), c)[r] == Valued(Union(t, fine, starts), c)[r] {
      UnionRows(t, fine, starts, r);
      Nesting(r.ts, fine.size, coarse.size);
      if c in r.cells && r in t && Finer(r, fine) && Start(r.ts, coarse.size) == k {
        CountPositive(Group(t, fine, Start(r.ts, fine.size)), c);
        assert r in Group(t, fine, Start(r.ts, fine.size));
      }
      if r in t { assert Group(t, coarse, k)[r] > 0 ==> r in Group(t, coarse, k); }
    }
  }

  lemma CoarseAfter(t: Table, fine: Tier, coarse: Tier, now: int, k: nat, c: Column, starts: seq<nat>)
    requires coarse.size % fine.size == 0 && fine.size < coarse.size
    requires k + coarse.size <= now - fine.threshold
    requires forall r :: r in Group(t, coarse, k) ==> Finer(r, fine)
    requires ValuedStarts(t, fine, coarse, k, c, starts)
    ensures Valued(Group(Step(t, fine, now), coarse, k), c) == Valued(FoldsOf(t, fine, starts), c)
  {
    hide Count, Sum, Step, Folded;
    var u := Step(t, fine, now);
    StepRows(t, fine, now);
    forall x ensures Valued(Group(u, coarse, k), c)[x] == Valued(FoldsOf(t, fine, starts), c)[x] {
      FoldsRows(t, fine, starts, x);
      if c in x.cells { FoldedStart(t, fine, coarse, now, k, c, starts, x); }
    }
  }

  lemma FoldedStart(t: Table, fine: Tier, coarse: Tier, now: int, k: nat, c: Column, starts: seq<nat>, x: Row)
    requires coarse.size % fine.size == 0 && fine.size < coarse.size && c in x.cells
    requires k + coarse.size <= now - fine.threshold
    requires forall r :: r in Group(t, coarse, k) ==> Finer(r, fine)
    requires ValuedStarts(t, fine, coarse, k, c, starts)
    ensures Finer(x, coarse) && Start(x.ts, coarse.size) == k && x in Folded(t, fine, now)
            <==> x.ts in starts && x == Fold(t, fine, x.ts)
    ensures Finer(x, coarse) && Start(x.ts, coarse.size) == k && x in t ==> Due(x, fine, now)
  {
    hide Count, Sum;
    if Start(x.ts, coarse.size) == k && x in Folded(t, fine, now) {
      var _ := FoldedFrom(t, fine, now, x);
    }
    if x.ts in starts && x == Fold(t, fine, x.ts) {
      CountPositive(Group(t, fine, x.ts), c);
      var r :| r in Group(t, fine, x.ts) && c in r.cells;
      assert Group(t, fine, x.ts)[r] > 0;
      Nesting(r.ts, fine.size, coarse.size);
      assert Due(r, fine, now);
    }
    if Finer(x, coarse) && Start(x.ts, coarse.size) == k && x in t {
      assert Group(t, coarse, k)[x] > 0;
      Nesting(x.ts, fine.size, coarse.size);
    }
  }

  /** The mean of a coarse bucket, from the sums and counts of its fine buckets: folded through the fine
      tier it is the mean of their means, folded at once the mean of all their values. */
  lemma FoldedMeans(t: Table, fine: Tier, coarse: Tier, now: int, k: nat, c: Column, starts: seq<nat>)
    requires coarse.size % fine.size == 0 && fine.size < coarse.size
    requires k + coarse.size <= now - fine.threshold
    requires forall r :: r in Group(t, coarse, k) ==> Finer(r, fine)
    requires ValuedStarts(t, fine, coarse, k, c, starts) && starts != []
    ensures var sums, counts := SumsAt(t, fine, c, starts), CountsAt(t, fine, c, starts);
            var stepwise, atOnce := Fold(Step(t, fine, now), coarse, k), Fold(t, coarse, k);
            && c in stepwise.cells && stepwise.cells[c] == MeanOfMeans(sums, counts)
            && c in atOnce.cells && atOnce.cells[c] == MeanOfAll(sums, counts)
  {
    hide Sum, Count, Group, Step, RealSum, NatSum, Quotients;
    CoarseBefore(t, fine, coarse, k, c, starts);
    CoarseAfter(t, fine, coarse, now, k, c, starts);
    ValuedSums(Group(t, coarse, k), c);
    ValuedSums(Union(t, fine, starts), c);
    UnionSums(t, fine, c, starts);
    ValuedSums(Group(Step(t, fine, now), coarse, k), c);
    ValuedSums(FoldsOf(t, fine, starts), c);
    FoldsSums(t, fine, c, starts);
  }

  /** So a column keeps its mean through the fine tier whenever its fine buckets have values in the same
      number of rows. */
  lemma EqualBucketsKeepMean(t: Table, fine: Tier, coarse: Tier, now: int, k: nat, c: Column, starts: seq<nat>)
    requires coarse.size % fine.size == 0 && fine.size < coarse.size
    requires k + coarse.size <= now - fine.threshold
    requires forall r :: r in Group(t, coarse, k) ==> Finer(r, fine)
    requires ValuedStarts(t, fine, coarse, k, c, starts) && starts != []
    requires AllEqual(CountsAt(t, fine, c, starts))
    ensures var stepwise, atOnce := Fold(Step(t, fine, now), coarse, k), Fold(t, coarse, k);
            c in stepwise.cells && c in atOnce.cells && stepwise.cells[c] == atOnce.cells[c]
  {
    hide Sum, Count, Group, Step, Fold, MeanOfMeans, MeanOfAll, AllEqual;
    FoldedMeans(t, fine, coarse, now, k, c, starts);
    EqualCountsAgree(CountsAt(t, fine, c, starts), SumsAt(t, fine, c, starts));
  }

  // --- No weaker condition ---

  /** In the coarse bucket at `k` the rows are finer than the fine tier, and its fine buckets with values
      start at `starts` and have `counts` of them. */
  ghost predicate Shaped(t: Table, fine: Tier, coarse: Tier, k: nat, c: Column, starts: seq<nat>, counts: seq<pos>) {
    && (forall r :: r in Group(t, coarse, k) ==> Finer(r, fine))
    && ValuedStarts(t, fine, coarse, k, c, starts)
    && CountsAt(t, fine, c, starts) == counts
  }

  /** The coarse bucket has the same value folded through the fine tier and folded at once. */
  ghost predicate FoldsAgree(t: Table, fine: Tier, coarse: Tier, now: int, k: nat, c: Column) {
    var stepwise, atOnce := Fold(Step(t, fine, now), coarse, k), Fold(t, coarse, k);
    c in stepwise.cells && c in atOnce.cells && stepwise.cells[c] == atOnce.cells[c]
  }

  /** Distinct buckets of the fine tier inside the bucket of the coarse tier that starts at `k`. */
  predicate BucketsIn(fine: Tier, coarse: Tier, k: nat, starts: seq<nat>) {
    && (forall i, j :: 0 <= i < j < |starts| ==> starts[i] != starts[j])
    && (forall b :: b in starts ==> b % fine.size == 0 && Start(b, coarse.size) == k)
  }

  /** On tables: with given numbers of values in the fine buckets of a due coarse bucket, the fine tier keeps
      the mean of every such table exactly when those numbers are equal. */
  lemma FoldsAgreeIff(fine: Tier, coarse: Tier, now: int, k: nat, c: Column, starts: seq<nat>, counts: seq<pos>)
    requires coarse.size % fine.size == 0 && fine.size < coarse.size && k + coarse.size <= now - fine.threshold
    requires BucketsIn(fine, coarse, k, starts) && |starts| == |counts| > 0
    ensures (forall t :: Shaped(t, fine, coarse, k, c, starts, counts) ==> FoldsAgree(t, fine, coarse, now, k, c))
            <==> AllEqual(counts)
  {
    hide Shaped, FoldsAgree;
    if AllEqual(counts) {
      forall t | Shaped(t, fine, coarse, k, c, starts, counts) ensures FoldsAgree(t, fine, coarse, now, k, c) {
        EqualShapeAgrees(t, fine, coarse, now, k, c, starts, counts);
      }
    } else {
      var i, j :| 0 <= i < |counts| && 0 <= j < |counts| && counts[i] != counts[j];
      FilledShaped(fine, coarse, k, c, starts, counts, i);
      FilledShaped(fine, coarse, k, c, starts, counts, j);
      if FoldsAgree(Filled(c, starts, counts, i, |starts|), fine, coarse, now, k, c)
         && FoldsAgree(Filled(c, starts, counts, j, |starts|), fine, coarse, now, k, c)
      {
        FilledAgrees(fine, coarse, now, k, c, starts, counts, i);
        FilledAgrees(fine, coarse, now, k, c, starts, counts, j);
        Cancel(|counts|, counts[i], counts[j]);
        assert false;
      }
    }
  }

  lemma EqualShapeAgrees(t: Table, fine: Tier, coarse: Tier, now: int, k: nat, c: Column, starts: seq<nat>, counts: seq<pos>)
    requires coarse.size % fine.size == 0 && fine.size < coarse.size && k + coarse.size <= now - fine.threshold
    requires Shaped(t, fine, coarse, k, c, starts, counts) && |starts| == |counts| > 0 && AllEqual(counts)
    ensures FoldsAgree(t, fine, coarse, now, k, c)
  {
    hide Fold, Step, AllEqual;
    EqualBucketsKeepMean(t, fine, coarse, now, k, c, starts);
  }

  /** The row that fills bucket `j`: ones in bucket `i`, zeros in the others. */
  function FilledRow(c: Column, starts: seq<nat>, i: nat, j: nat): Row
    requires j < |starts|
  {
    Row(starts[j], None, map[c := if j == i then 1.0 else 0.0], {})
  }

  /** Each of the first `n` buckets filled with its row, as often as `counts` says. */
  ghost function Filled(c: Column, starts: seq<nat>, counts: seq<pos>, i: nat, n: nat): Table
    requires n <= |starts| == |counts|
  {
    if n == 0 then multiset{}
    else Filled(c, starts, counts, i, n - 1) + multiset{}[FilledRow(c, starts, i, n - 1) := counts[n - 1]]
  }

  lemma {:induction false} FilledRows(c: Column, starts: seq<nat>, counts: seq<pos>, i: nat, n: nat, r: Row)
    requires n <= |starts| == |counts| && forall a, b :: 0 <= a < b < |starts| ==> starts[a] != starts[b]
    ensures forall j :: 0 <= j < n && r == FilledRow(c, starts, i, j) ==> Filled(c, starts, counts, i, n)[r] == counts[j]
    ensures (forall j :: 0 <= j < n ==> r != FilledRow(c, starts, i, j)) ==> Filled(c, starts, counts, i, n)[r] == 0
  {
    if n > 0 { FilledRows(c, starts, counts, i, n - 1, r); }
  }

  /** So a bucket's group is its row that often. */
  lemma FilledGroup(fine: Tier, c: Column, starts: seq<nat>, counts: seq<pos>, i: nat, b: nat)
    requires |starts| == |counts| && forall a, b :: 0 <= a < b < |starts| ==> starts[a] != starts[b]
    requires forall b :: b in starts ==> b % fine.size == 0
    ensures var t := Filled(c, starts, counts, i, |starts|);
            && (forall j :: 0 <= j < |starts| && b == starts[j] ==>
                  Group(t, fine, b) == multiset{}[FilledRow(c, starts, i, j) := counts[j]])
            && (b !in starts ==> Group(t, fine, b) == multiset{})
  {
    var t := Filled(c, starts, counts, i, |starts|);
    forall r ensures r in t ==> exists j :: 0 <= j < |starts| && r == FilledRow(c, starts, i, j) && t[r] == counts[j] {
      FilledRows(c, starts, counts, i, |starts|, r);
    }
    forall j | 0 <= j < |starts| ensures t[FilledRow(c, starts, i, j)] == counts[j] && Start(starts[j], fine.size) == starts[j] {
      FilledRows(c, starts, counts, i, |starts|, FilledRow(c, starts, i, j));
      assert starts[j] in starts;
      StartUnique(starts[j], fine.size, starts[j]);
    }
    forall j | 0 <= j < |starts| && b == starts[j]
      ensures Group(t, fine, b) == multiset{}[FilledRow(c, starts, i, j) := counts[j]]
    {
      var row := FilledRow(c, starts, i, j);
      forall r ensures Group(t, fine, b)[r] == multiset{}[row := counts[j]][r] {}
    }
    if b !in starts {
      forall r ensures Group(t, fine, b)[r] == 0 {}
    }
  }

  lemma {:induction false} RepeatedRow(r: Row, n: nat, c: Column)
    requires c in r.cells
    ensures Sum(multiset{}[r := n], c) == n as real * r.cells[c] && Count(multiset{}[r := n], c) == n
  {
    hide Sum, Count;
    if n == 0 {
      assert multiset{}[r := n] == multiset{};
      NullAddsNothing(multiset{}, c);
    } else {
      RepeatedRow(r, n - 1, c);
      OneLess(r, n);
      SumRemove(multiset{}[r := n], r, c);
      OneMore((n - 1) as real, r.cells[c]);
      assert n as real == (n - 1) as real + 1.0;
    }
  }

  lemma OneLess(r: Row, n: nat)
    requires n > 0
    ensures r in multiset{}[r := n] && multiset{}[r := n] - multiset{r} == multiset{}[r := n - 1]
  {}

  lemma FilledShaped(fine: Tier, coarse: Tier, k: nat, c: Column, starts: seq<nat>, counts: seq<pos>, i: nat)
    requires coarse.size % fine.size == 0 && BucketsIn(fine, coarse, k, starts)
    requires |starts| == |counts| && i < |starts|
    ensures var t := Filled(c, starts, counts, i, |starts|);
            Shaped(t, fine, coarse, k, c, starts, counts) && SumsAt(t, fine, c, starts) == Alone(counts, i)
  {
    hide Sum, Count, Filled, Group, FilledRow;
    var t := Filled(c, starts, counts, i, |starts|);
    forall j | 0 <= j < |starts|
      ensures Count(Group(t, fine, starts[j]), c) == counts[j]
      ensures Sum(Group(t, fine, starts[j]), c) == if j == i then counts[j] as real else 0.0
    {
      FilledSums(fine, c, starts, counts, i, j);
    }
    forall b: nat
      ensures b in starts <==> b % fine.size == 0 && Start(b, coarse.size) == k && Count(Group(t, fine, b), c) > 0
    {
      if b !in starts {
        FilledGroup(fine, c, starts, counts, i, b);
        NullAddsNothing(multiset{}, c);
      }
    }
    FilledFiner(fine, coarse, k, c, starts, counts, i);
    assert CountsAt(t, fine, c, starts) == counts;
    assert SumsAt(t, fine, c, starts) == Alone(counts, i);
  }

  lemma FilledSums(fine: Tier, c: Column, starts: seq<nat>, counts: seq<pos>, i: nat, j: nat)
    requires |starts| == |counts| && forall a, b :: 0 <= a < b < |starts| ==> starts[a] != starts[b]
    requires forall b :: b in starts ==> b % fine.size == 0
    requires j < |starts|
    ensures var g := Group(Filled(c, starts, counts, i, |starts|), fine, starts[j]);
            Count(g, c) == counts[j] && Sum(g, c) == if j == i then counts[j] as real else 0.0
  {
    hide Sum, Count, Filled, Group;
    FilledGroup(fine, c, starts, counts, i, starts[j]);
    RepeatedRow(FilledRow(c, starts, i, j), counts[j], c);
  }

  lemma FilledFiner(fine: Tier, coarse: Tier, k: nat, c: Column, starts: seq<nat>, counts: seq<pos>, i: nat)
    requires |starts| == |counts| && BucketsIn(fine, coarse, k, starts)
    ensures forall r :: r in Group(Filled(c, starts, counts, i, |starts|), coarse, k) ==> Finer(r, fine)
  {
    var t := Filled(c, starts, counts, i, |starts|);
    forall r | r in Group(t, coarse, k) ensures Finer(r, fine) {
      assert Group(t, coarse, k)[r] > 0;
      FilledRows(c, starts, counts, i, |starts|, r);
    }
  }

  lemma FilledAgrees(fine: Tier, coarse: Tier, now: int, k: nat, c: Column, starts: seq<nat>, counts: seq<pos>, i: nat)
    requires coarse.size % fine.size == 0 && fine.size < coarse.size && k + coarse.size <= now - fine.threshold
    requires BucketsIn(fine, coarse, k, starts) && |starts| == |counts| > 0 && i < |starts|
    requires FoldsAgree(Filled(c, starts, counts, i, |starts|), fine, coarse, now, k, c)
    ensures NatSum(counts) == |counts| * counts[i]
  {
    hide Filled, Fold, Step, Alone, MeanOfMeans, MeanOfAll;
    FilledShaped(fine, coarse, k, c, starts, counts, i);
    FoldedMeans(Filled(c, starts, counts, i, |starts|), fine, coarse, now, k, c, starts);
    AloneMeans(counts, i);
  }

  /** A table whose mean changes: a zero in the first five seconds, two ones in the next. Folded to five
      seconds first the half minute averages 1/2, folded at once 2/3. */
  lemma UnequalTableMisses(c: Column, now: int)
    requires now >= 30 + 2 * 3600
    ensures var t := Filled(c, [0, 5], [1, 2], 1, 2);
            && c in Fold(Step(t, LADDER[0], now), LADDER[1], 0).cells && c in Fold(t, LADDER[1], 0).cells
            && Fold(Step(t, LADDER[0], now), LADDER[1], 0).cells[c] == 0.5
            && Fold(t, LADDER[1], 0).cells[c] == 2.0 / 3.0
  {
    hide Filled, Fold, Step, MeanOfMeans, MeanOfAll, Group, Count, Sum, FilledRow;
    assert LADDER[0] == Tier(5, 7200) && LADDER[1] == Tier(30, 43200);
    var starts, counts: seq<pos> := [0, 5], [1, 2];
    assert Alone(counts, 1) == [0.0, 2.0];
    hide Alone;
    StartUnique(0, 30, 0);
    StartUnique(5, 30, 0);
    assert BucketsIn(LADDER[0], LADDER[1], 0, starts);
    FilledShaped(LADDER[0], LADDER[1], 0, c, starts, counts, 1);
    FoldedMeans(Filled(c, starts, counts, 1, 2), LADDER[0], LADDER[1], now, 0, c, starts);
    UnequalCountsMiss();
  }

  // --- Means over samples, through a whole pass ---

  function Has1(s: Sample, c: Column): nat { if c in s.cells then 1 else 0 }

  function Value1(s: Sample, c: Column): real { if c in s.cells then s.cells[c] else 0.0 }

  ghost function SampleSum(ss: set<Sample>, c: Column): real {
    if ss == {} then 0.0 else var s :| s in ss; Value1(s, c) + SampleSum(ss - {s}, c)
  }

  ghost function SampleCount(ss: set<Sample>, c: Column): nat {
    if ss == {} then 0 else var s :| s in ss; Has1(s, c) + SampleCount(ss - {s}, c)
  }

  lemma {:induction false} SampleRemove(ss: set<Sample>, s: Sample, c: Column)
    requires s in ss
    ensures SampleSum(ss, c) == Value1(s, c) + SampleSum(ss - {s}, c)
    ensures SampleCount(ss, c) == Has1(s, c) + SampleCount(ss - {s}, c)
    decreases |ss|
  {
    SumPick(ss, s, c);
    CountPick(ss, s, c);
  }

  lemma {:induction false} SumPick(ss: set<Sample>, s: Sample, c: Column)
    requires s in ss
    ensures SampleSum(ss, c) == Value1(s, c) + SampleSum(ss - {s}, c)
    decreases |ss|
  {
    var p :| p in ss && SampleSum(ss, c) == Value1(p, c) + SampleSum(ss - {p}, c);
    if p != s {
      SumPick(ss - {p}, s, c);
      SumPick(ss - {s}, p, c);
      assert ss - {p} - {s} == ss - {s} - {p};
    }
  }

  lemma {:induction false} CountPick(ss: set<Sample>, s: Sample, c: Column)
    requires s in ss
    ensures SampleCount(ss, c) == Has1(s, c) + SampleCount(ss - {s}, c)
    decreases |ss|
  {
    var p :| p in ss && SampleCount(ss, c) == Has1(p, c) + SampleCount(ss - {p}, c);
    if p != s {
      CountPick(ss - {p}, s, c);
      CountPick(ss - {s}, p, c);
      assert ss - {p} - {s} == ss - {s} - {p};
    }
  }

  lemma {:induction false} SamplesAdd(a: set<Sample>, b: set<Sample>, c: Column)
    requires a !! b
    ensures SampleSum(a + b, c) == SampleSum(a, c) + SampleSum(b, c)
    ensures SampleCount(a + b, c) == SampleCount(a, c) + SampleCount(b, c)
    decreases |a|
  {
    if a == {} {
      assert a + b == b;
    } else {
      var s :| s in a;
      SamplesAdd(a - {s}, b, c);
      SampleRemove(a, s, c);
      SampleRemove(a + b, s, c);
      assert a + b - {s} == a - {s} + b;
    }
  }

  /** The row's value is the mean of the values of the samples it represents, NULL if there are none. */
  ghost predicate IsMean(r: Row, c: Column) {
    && (c in r.cells <==> SampleCount(r.samples, c) > 0)
    && (c in r.cells ==> r.cells[c] * SampleCount(r.samples, c) as real == SampleSum(r.samples, c))
    && (c !in r.cells ==> SampleSum(r.samples, c) == 0.0)
  }

  /** Equally many samples with a value stand behind each row of the group that has one. */
  ghost predicate Even(g: Table, c: Column, n: pos) {
    forall r :: r in g && c in r.cells ==> SampleCount(r.samples, c) == n
  }

  lemma {:induction false} EvenSums(g: Table, c: Column, n: pos)
    requires Exclusive(g) && Even(g, c, n) && forall r :: r in g ==> IsMean(r, c)
    ensures Sum(g, c) * n as real == SampleSum(SamplesOf(g), c)
    ensures Count(g, c) * n == SampleCount(SamplesOf(g), c)
    decreases |g|
  {
    hide *;
    if g == multiset{} {
      NoRows(c);
    } else {
      var p := Pick(g);
      var rest := g - multiset{p};
      RestExclusive(g, p);
      RestEven(g, p, c, n);
      EvenSums(rest, c, n);
      SamplesAdd(SamplesOf(rest), p.samples, c);
      SumRemove(g, p, c);
      OneRowEven(g, p, c, n);
      TimesAdd(CellOr0(p, c), Sum(rest, c), n as real, SampleSum(p.samples, c), SampleSum(SamplesOf(rest), c));
      CountAdd(Has(p, c), Count(rest, c), n, SampleCount(p.samples, c), SampleCount(SamplesOf(rest), c));
    }
  }

  lemma NoRows(c: Column)
    ensures Sum(multiset{}, c) == 0.0 && Count(multiset{}, c) == 0
    ensures SampleSum(SamplesOf(multiset{}), c) == 0.0 && SampleCount(SamplesOf(multiset{}), c) == 0
  {
    assert SamplesOf(multiset{}) == {};
  }

  lemma RestEven(g: Table, p: Row, c: Column, n: pos)
    requires Even(g, c, n) && (forall r :: r in g ==> IsMean(r, c)) && p in g
    ensures Even(g - multiset{p}, c, n) && forall r :: r in g - multiset{p} ==> IsMean(r, c)
  {
    hide IsMean;
    forall r | r in g - multiset{p} ensures r in g {}
  }

  lemma OneRowEven(g: Table, p: Row, c: Column, n: pos)
    requires Even(g, c, n) && p in g && IsMean(p, c)
    ensures CellOr0(p, c) * n as real == SampleSum(p.samples, c) && Has(p, c) * n == SampleCount(p.samples, c)
  {}

  lemma RestExclusive(g: Table, p: Row)
    requires Exclusive(g) && p in g
    ensures Exclusive(g - multiset{p}) && SamplesOf(g - multiset{p}) !! p.samples
    ensures SamplesOf(g) == SamplesOf(g - multiset{p}) + p.samples
  {
    var rest := g - multiset{p};
    forall r ensures r in g <==> r in rest || r == p {}
    forall r | r in rest ensures r.samples !! p.samples && (r.samples != {} ==> rest[r] == 1) {}
  }

  lemma TimesAdd(a: real, b: real, n: real, sa: real, sb: real)
    requires a * n == sa && b * n == sb
    ensures (a + b) * n == sa + sb
  {}

  lemma CountAdd(a: nat, b: nat, n: nat, sa: nat, sb: nat)
    requires a * n == sa && b * n == sb
    ensures (a + b) * n == sa + sb
  {}

  /** A bucket whose rows are means of equally many samples is folded to the mean of all its samples. */
  lemma FoldIsMean(t: Table, tier: Tier, k: nat, c: Column, n: pos)
    requires Exclusive(t) && Even(Group(t, tier, k), c, n) && forall r :: r in t ==> IsMean(r, c)
    ensures IsMean(Fold(t, tier, k), c)
  {
    hide Even, IsMean, Exclusive;
    var g := Group(t, tier, k);
    GroupExclusive(t, tier, k);
    forall r | r in g ensures IsMean(r, c) { assert g[r] > 0; }
    EvenSums(g, c, n);
    MeanOfGroup(Fold(t, tier, k), g, c, n);
  }

  lemma GroupExclusive(t: Table, tier: Tier, k: nat)
    requires Exclusive(t)
    ensures Exclusive(Group(t, tier, k))
  {
    var g := Group(t, tier, k);
    forall r | r in g ensures r in t && g[r] == t[r] { assert g[r] > 0; }
  }

  lemma MeanOfGroup(x: Row, g: Table, c: Column, n: pos)
    requires x.cells == Averages(g) && x.samples == SamplesOf(g)
    requires Sum(g, c) * n as real == SampleSum(SamplesOf(g), c) && Count(g, c) * n == SampleCount(SamplesOf(g), c)
    ensures IsMean(x, c)
  {
    hide Sum, Count, SampleSum, SampleCount, SamplesOf;
    var m := Count(g, c);
    if m > 0 {
      assert m * n >= 1 by { TimesPositive(m, n); }
      assert (m * n) as real == m as real * n as real;
      MeanTimes(Sum(g, c), m as real, n as real);
    } else {
      NoValues(g, c);
    }
  }

  lemma NoValues(g: Table, c: Column)
    requires Count(g, c) == 0
    ensures Sum(g, c) == 0.0
  {
    CountPositive(g, c);
    NullAddsNothing(g, c);
  }

  lemma TimesPositive(m: pos, n: pos)
    ensures m * n >= 1
  {}

  lemma MeanTimes(sum: real, m: real, n: real)
    requires m > 0.0
    ensures sum / m * (m * n) == sum * n
  {
    assert sum / m * m == sum;
    assert sum / m * (m * n) == sum / m * m * n;
  }

  /** Every bucket the tier folds now is even. */
  ghost predicate EvenBuckets(t: Table, tier: Tier, now: int, c: Column) {
    forall k: nat :: DueBucket(k, tier, now) ==> exists n: pos :: Even(Group(t, tier, k), c, n)
  }

  ghost predicate AllMeans(t: Table, c: Column) {
    forall r :: r in t ==> IsMean(r, c)
  }

  lemma StepKeepsMeans(t: Table, tier: Tier, now: int, c: Column)
    requires Exclusive(t) && AllMeans(t, c) && EvenBuckets(t, tier, now, c)
    ensures AllMeans(Step(t, tier, now), c)
  {
    hide Step, Folded, Fold, Even, IsMean, Exclusive;
    StepRows(t, tier, now);
    var u := Step(t, tier, now);
    forall x | x in u ensures IsMean(x, c) {
      assert u[x] > 0;
      if x in Folded(t, tier, now) {
        var _ := FoldedFrom(t, tier, now, x);
        var n: pos :| Even(Group(t, tier, x.ts), c, n);
        FoldIsMean(t, tier, x.ts, c, n);
      }
    }
  }

  lemma {:induction false} TiersKeepMeans(t: Table, ladder: seq<Tier>, k: nat, now: int, c: Column)
    requires k <= |ladder| && Exclusive(t) && AllMeans(t, c)
    requires forall i :: 0 <= i < k ==> EvenBuckets(Tiers(t, ladder, i, now), ladder[i], now, c)
    ensures AllMeans(Tiers(t, ladder, k, now), c)
  {
    hide Step, AllMeans, EvenBuckets, Exclusive;
    if k > 0 {
      TiersKeepMeans(t, ladder, k - 1, now, c);
      TiersConserve(t, ladder, k - 1, now);
      StepKeepsMeans(Tiers(t, ladder, k - 1, now), ladder[k - 1], now, c);
    }
  }

  /** A whole pass: as long as every tier folds even buckets, each row is the mean of the samples it
      represents, through however many tiers they came. */
  lemma PassKeepsMeans(t: Table, ladder: seq<Tier>, now: int, c: Column)
    requires Exclusive(t) && AllMeans(t, c)
    requires forall i :: 0 <= i < |ladder| ==> EvenBuckets(Tiers(t, ladder, i, now), ladder[i], now, c)
    ensures AllMeans(Pass(t, ladder, now), c)
  {
    hide AllMeans, EvenBuckets, Exclusive;
    TiersKeepMeans(t, ladder, |ladder|, now, c);
  }

  /** A row as it was stored is the mean of its one sample. */
  lemma RawIsMean(r: Row, s: Sample, c: Column)
    requires r.samples == {s} && r.cells == s.cells
    ensures IsMean(r, c)
  {
    SampleRemove({s}, s, c);
    assert {s} - {s} == {};
  }
}
