/** The tier ladder and the arithmetic that makes its buckets nest. */
module Ladder {

  type pos = n: nat | n > 0 witness 1

  /** One transition: rows finer than `size` are folded into buckets of `size` seconds once the
      end of their bucket is `threshold` seconds old. */
  datatype Tier = Tier(size: pos, threshold: nat)

  const LADDER: seq<Tier> := [
    Tier(5, 2 * 3600),
    Tier(30, 12 * 3600),
    Tier(300, 5 * 86400),
    Tier(3600, 60 * 86400),
    Tier(21600, 365 * 86400)
  ]

  /** What the passes rely on: each size divides every later one, and thresholds rise. */
  ghost predicate WellFormed(ladder: seq<Tier>) {
    forall i, j :: 0 <= i < j < |ladder| ==>
      && ladder[i].size < ladder[j].size
      && ladder[j].size % ladder[i].size == 0
      && ladder[i].threshold < ladder[j].threshold
  }

  lemma LadderIsWellFormed()
    ensures WellFormed(LADDER)
  {
    assert LADDER[0] == Tier(5, 7200) && LADDER[1] == Tier(30, 43200) && LADDER[2] == Tier(300, 432000);
    assert LADDER[3] == Tier(3600, 5184000) && LADDER[4] == Tier(21600, 31536000);
  }

  /** Start of the bucket of `size` seconds that holds the instant `t`. */
  function Start(t: nat, size: pos): (s: nat)
    ensures s <= t < s + size
    ensures s % size == 0
  {
    StartInBucket(t, size);
    t / size * size
  }

  lemma StartInBucket(t: nat, size: pos)
    ensures 0 <= t / size * size <= t < t / size * size + size
    ensures t / size * size % size == 0
  {
    assert t == t / size * size + t % size;
    MultipleMod(t / size, size);
  }

  lemma MulMonotone(k: int, size: pos)
    ensures k >= 1 ==> k * size >= size
    ensures k <= -1 ==> k * size + size <= 0
  {}

  lemma MulAtLeast(k: int, c: int, size: pos)
    requires k >= c
    ensures k * size >= c * size
  {
    MulMonotone(k - c, size);
    assert (k - c) * size == k * size - c * size;
  }

  /** Euclidean division is unique. */
  lemma DivModUnique(a: int, size: pos, q: int, r: nat)
    requires r < size && a == q * size + r
    ensures a / size == q && a % size == r
  {
    var p, m := a / size, a % size;
    assert a == p * size + m;
    assert (p - q) * size == r - m;
    MulMonotone(p - q, size);
  }

  lemma MultipleMod(k: int, size: pos)
    ensures k * size % size == 0
  {
    DivModUnique(k * size, size, k, 0);
  }

  /** Two multiples of `size` that are less than `size` apart are equal. */
  lemma MultiplesApart(a: nat, b: nat, size: pos)
    requires a % size == 0 && b % size == 0
    requires a < b + size && b < a + size
    ensures a == b
  {
    var p, q := a / size, b / size;
    assert a == p * size && b == q * size;
    assert (p - q) * size == a - b;
    MulMonotone(p - q, size);
  }

  /** The bucket start is the only aligned instant whose bucket holds `t`. */
  lemma StartUnique(t: nat, size: pos, s: nat)
    requires s % size == 0 && s <= t < s + size
    ensures Start(t, size) == s
  {
    MultiplesApart(Start(t, size), s, size);
  }

  lemma MultipleOfMultiple(a: nat, fine: pos, coarse: pos)
    requires coarse % fine == 0 && a % coarse == 0
    ensures a % fine == 0
  {
    var k, m := a / coarse, coarse / fine;
    assert a == k * coarse && coarse == m * fine;
    assert a == k * m * fine;
    MultipleMod(k * m, fine);
  }

  /** A multiple of `fine` plus `fine` is a multiple of `fine`. */
  lemma NextMultiple(a: nat, size: pos)
    requires a % size == 0
    ensures (a + size) % size == 0
  {
    var k := a / size;
    assert a + size == (k + 1) * size;
    MultipleMod(k + 1, size);
  }

  /** Fine buckets nest in coarse ones: folding to the fine bucket first changes nothing, and the
      fine bucket ends no later than the coarse one. */
  lemma Nesting(t: nat, fine: pos, coarse: pos)
    requires coarse % fine == 0
    ensures Start(Start(t, fine), coarse) == Start(t, coarse)
    ensures Start(t, coarse) <= Start(t, fine)
    ensures Start(t, fine) + fine <= Start(t, coarse) + coarse
  {
    var f, c := Start(t, fine), Start(t, coarse);
    MultipleOfMultiple(c, fine, coarse);
    if f < c {
      MultiplesApart(f, c, fine);
    }
    StartUnique(f, coarse, c);
    NextMultiple(c, coarse);
    MultipleOfMultiple(c + coarse, fine, coarse);
    if c + coarse < f + fine {
      MultiplesApart(f, c + coarse, fine);
    }
  }

  // --- Common measures of two bucket sizes ---

  /** The greatest common divisor. */
  function Gcd(a: pos, b: pos): (d: pos)
    decreases b
  {
    if a % b == 0 then b else Gcd(b, a % b)
  }

  /** It divides both, and is a combination of both. */
  lemma {:induction false} GcdIs(a: pos, b: pos) returns (x: int, y: int)
    ensures a % Gcd(a, b) == 0 && b % Gcd(a, b) == 0
    ensures x * a + y * b == Gcd(a, b)
    decreases b
  {
    var k, m := a / b, a % b;
    assert a == k * b + m;
    if m == 0 {
      MultipleMod(1, b);
      x, y := 0, 1;
    } else {
      var u, v := GcdIs(b, m);
      CombinedMod(b, m, k, Gcd(b, m));
      Regroup(u, v, k, b, m);
      x, y := v, u - v * k;
    }
  }

  lemma CombinedMod(b: int, m: int, k: int, d: pos)
    requires b % d == 0 && m % d == 0
    ensures (k * b + m) % d == 0
  {
    var i, j := b / d, m / d;
    assert b == i * d && m == j * d;
    assert k * (i * d) == k * i * d;
    assert k * b + m == (k * i + j) * d;
    MultipleMod(k * i + j, d);
  }

  lemma Regroup(u: int, v: int, k: int, b: int, m: int)
    ensures u * b + v * m == v * (k * b + m) + (u - v * k) * b
  {
    assert v * (k * b) == v * k * b;
  }

  lemma DifferenceMultiple(a: int, b: int, d: pos)
    requires a % d == 0 && b % d == 0
    ensures (a - b) % d == 0
  {
    var p, r := a / d, b / d;
    assert a - b == (p - r) * d;
    MultipleMod(p - r, d);
  }

  /** Between a multiple of `q` and a later multiple of `size` there are at least as many seconds as their
      greatest common divisor. */
  lemma AtLeastGcd(q: pos, size: pos, k: nat, end: nat)
    requires k % q == 0 && end % size == 0 && k < end
    ensures end - k >= Gcd(q, size)
  {
    var d := Gcd(q, size);
    var _, _ := GcdIs(q, size);
    MultipleOfMultiple(k, d, q);
    MultipleOfMultiple(end, d, size);
    DifferenceMultiple(end, k, d);
    if end - k < d { MultiplesApart(end - k, 0, d); }
  }

  /** And for some it is just as many. */
  lemma JustGcd(q: pos, size: pos) returns (k: nat)
    ensures k % q == 0 && (k + Gcd(q, size)) % size == 0
  {
    var d := Gcd(q, size);
    var x, y := GcdIs(q, size);
    var t := if x < 0 then 0 else x;
    var m := t * size - x;
    TimesAtLeast(t, size);
    k := m * q;
    assert k + d == (t * q + y) * size by { Collect(t, size, x, y, q); }
    MultipleMod(m, q);
    MultipleMod(t * q + y, size);
  }

  lemma TimesAtLeast(t: nat, size: pos)
    ensures t * size >= t
  {}

  lemma Collect(t: int, size: int, x: int, y: int, q: int)
    ensures (t * size - x) * q + (x * q + y * size) == (t * q + y) * size
  {
    assert t * size * q == t * q * size;
  }

  /** It is the size itself only if the size divides `q`. */
  lemma GcdBelow(q: pos, size: pos)
    requires q % size != 0
    ensures Gcd(q, size) < size
  {
    var d := Gcd(q, size);
    var _, _ := GcdIs(q, size);
    var i := size / d;
    assert size == i * d;
    if i == 1 { assert false; }
    if i >= 2 { MulAtLeast(i, 2, d); }
  }
}
