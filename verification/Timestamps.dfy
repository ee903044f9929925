/** The stored timestamps "YYYY-MM-DDTHH:MM:SSZ": comparing the strings compares the instants. */
module Timestamps {

  // --- The calendar ---

  predicate IsLeap(y: nat) {
    y % 4 == 0 && (y % 100 != 0 || y % 400 == 0)
  }

  function DaysInYear(y: nat): nat {
    if IsLeap(y) then 366 else 365
  }

  function DaysInMonth(y: nat, m: nat): nat
    requires 1 <= m <= 12
  {
    if m == 2 then (if IsLeap(y) then 29 else 28)
    else if m == 4 || m == 6 || m == 9 || m == 11 then 30
    else 31
  }

  /** Days from 1970-01-01 to the first of January of `y`. */
  function DaysBeforeYear(y: nat): nat
    requires y >= 1970
  {
    if y == 1970 then 0 else DaysBeforeYear(y - 1) + DaysInYear(y - 1)
  }

  /** Days of year `y` before month `m`; `m` may be 13. */
  function DaysBeforeMonth(y: nat, m: nat): nat
    requires 1 <= m <= 13
  {
    if m == 1 then 0 else DaysBeforeMonth(y, m - 1) + DaysInMonth(y, m - 1)
  }

  /** The Gregorian months. */
  lemma MonthLengths(y: nat)
    ensures forall m :: 1 <= m <= 12 ==>
              DaysInMonth(y, m) == [31, if y % 4 == 0 && (y % 100 != 0 || y % 400 == 0) then 29 else 28,
                                    31, 30, 31, 30, 31, 31, 30, 31, 30, 31][m - 1]
  {}

  datatype Tm = Tm(year: nat, month: nat, day: nat, hour: nat, minute: nat, second: nat)

  predicate ValidTm(tm: Tm) {
    && 1970 <= tm.year && 1 <= tm.month <= 12 && 1 <= tm.day <= DaysInMonth(tm.year, tm.month)
    && tm.hour < 24 && tm.minute < 60 && tm.second < 60
  }

  function Days(tm: Tm): nat
    requires ValidTm(tm)
  {
    DaysBeforeYear(tm.year) + DaysBeforeMonth(tm.year, tm.month) + tm.day - 1
  }

  /** Seconds since the epoch. */
  function Unix(tm: Tm): nat
    requires ValidTm(tm)
  {
    Days(tm) * 86400 + tm.hour * 3600 + tm.minute * 60 + tm.second
  }

  // --- gmtime_r ---

  /** The year that holds day `days` counted from the start of `y`, and the day in that year. */
  function YearOf(days: nat, y: nat): (r: (nat, nat))
    requires y >= 1970
    ensures r.0 >= y && r.1 < DaysInYear(r.0)
    ensures DaysBeforeYear(r.0) + r.1 == DaysBeforeYear(y) + days
    decreases days
  {
    if days < DaysInYear(y) then (y, days) else YearOf(days - DaysInYear(y), y + 1)
  }

  function MonthOf(y: nat, day: nat, m: nat): (r: (nat, nat))
    requires 1 <= m <= 12 && DaysBeforeMonth(y, m) + day < DaysInYear(y)
    ensures m <= r.0 <= 12 && r.1 < DaysInMonth(y, r.0)
    ensures DaysBeforeMonth(y, r.0) + r.1 == DaysBeforeMonth(y, m) + day
    decreases 12 - m
  {
    YearIsItsMonths(y);
    if day < DaysInMonth(y, m) then (m, day) else MonthOf(y, day - DaysInMonth(y, m), m + 1)
  }

  lemma YearIsItsMonths(y: nat)
    ensures DaysBeforeMonth(y, 12) + DaysInMonth(y, 12) == DaysInYear(y)
  {
    assert DaysBeforeMonth(y, 2) == 31;
    assert DaysBeforeMonth(y, 3) == 59 + if IsLeap(y) then 1 else 0;
    assert DaysBeforeMonth(y, 5) == DaysBeforeMonth(y, 3) + 61;
    assert DaysBeforeMonth(y, 7) == DaysBeforeMonth(y, 5) + 61;
    assert DaysBeforeMonth(y, 9) == DaysBeforeMonth(y, 7) + 62;
    assert DaysBeforeMonth(y, 11) == DaysBeforeMonth(y, 9) + 61;
  }

  lemma TimeOfDay(s: nat)
    requires s < 86400
    ensures s / 3600 < 24 && s / 60 % 60 < 60 && s % 60 < 60
    ensures s / 3600 * 3600 + s / 60 % 60 * 60 + s % 60 == s
  {
    var h, r := s / 3600, s % 3600;
    assert s == 3600 * h + r && r < 3600;
    assert s / 60 == 60 * h + r / 60;
  }

  lemma Dated(y: nat, m: nat, mday: nat, yday: nat, t: nat, s: nat)
    requires 1970 <= y && 1 <= m <= 12 && mday < DaysInMonth(y, m) && s == t % 86400
    requires DaysBeforeYear(y) + yday == t / 86400 && DaysBeforeMonth(y, m) + mday == yday
    requires s / 3600 < 24 && s / 60 % 60 < 60 && s % 60 < 60
    requires s / 3600 * 3600 + s / 60 % 60 * 60 + s % 60 == s
    ensures var tm := Tm(y, m, mday + 1, s / 3600, s / 60 % 60, s % 60); ValidTm(tm) && Unix(tm) == t
  {
    var h, i, j := s / 3600, s / 60 % 60, s % 60;
    assert t == t / 86400 * 86400 + s;
    var tm := Tm(y, m, mday + 1, h, i, j);
    assert Days(tm) == t / 86400;
  }

  /** Broken-down UTC time. Its seconds since the epoch are the instant: conversion back inverts it. */
  function Gmtime(t: nat): (tm: Tm)
    ensures ValidTm(tm) && Unix(tm) == t
  {
    var (y, yday) := YearOf(t / 86400, 1970);
    var (m, mday) := MonthOf(y, yday, 1);
    var s := t % 86400;
    TimeOfDay(s);
    Dated(y, m, mday, yday, t, s);
    Tm(y, m, mday + 1, s / 3600, s / 60 % 60, s % 60)
  }

  // --- Order of broken-down times ---

  lemma {:induction false} LaterYear(y: nat, y': nat)
    requires 1970 <= y < y'
    ensures DaysBeforeYear(y) + DaysInYear(y) <= DaysBeforeYear(y')
    decreases y'
  {
    if y + 1 < y' { LaterYear(y, y' - 1); }
  }

  lemma {:induction false} LaterMonth(y: nat, m: nat, m': nat)
    requires 1 <= m < m' <= 13
    ensures DaysBeforeMonth(y, m) + DaysInMonth(y, m) <= DaysBeforeMonth(y, m')
    decreases m'
  {
    if m + 1 < m' { LaterMonth(y, m, m' - 1); }
  }

  lemma DayInYear(tm: Tm)
    requires ValidTm(tm)
    ensures DaysBeforeMonth(tm.year, tm.month) + tm.day <= DaysInYear(tm.year)
  {
    YearIsItsMonths(tm.year);
    if tm.month < 12 { LaterMonth(tm.year, tm.month, 12); }
  }

  predicate DateBefore(a: Tm, b: Tm) {
    a.year < b.year || (a.year == b.year && (a.month < b.month || (a.month == b.month && a.day < b.day)))
  }

  predicate SameDate(a: Tm, b: Tm) {
    a.year == b.year && a.month == b.month && a.day == b.day
  }

  lemma DateOrder(a: Tm, b: Tm)
    requires ValidTm(a) && ValidTm(b) && DateBefore(a, b)
    ensures Days(a) < Days(b)
  {
    DayInYear(a);
    if a.year < b.year { LaterYear(a.year, b.year); }
    else if a.month < b.month { LaterMonth(a.year, a.month, b.month); }
  }

  predicate TimeBefore(a: Tm, b: Tm) {
    a.hour < b.hour || (a.hour == b.hour && (a.minute < b.minute || (a.minute == b.minute && a.second < b.second)))
  }

  /** Field by field order is the order of the instants. */
  lemma TmOrder(a: Tm, b: Tm)
    requires ValidTm(a) && ValidTm(b)
    ensures Unix(a) < Unix(b) <==> DateBefore(a, b) || (SameDate(a, b) && TimeBefore(a, b))
  {
    if DateBefore(a, b) { DateOrder(a, b); }
    if DateBefore(b, a) { DateOrder(b, a); }
  }

  // --- Strings ---

  /** strcmp on strings, which is how SQLite compares TEXT. */
  predicate LexLess(s: string, t: string) {
    if t == "" then false
    else if s == "" then true
    else s[0] < t[0] || (s[0] == t[0] && LexLess(s[1..], t[1..]))
  }

  /** With a common length in front, the front decides first. */
  lemma {:induction false} LexConcat(p: string, q: string, x: string, y: string)
    requires |p| == |q|
    ensures LexLess(p + x, q + y) <==> LexLess(p, q) || (p == q && LexLess(x, y))
  {
    if p == "" {
      assert p + x == x && q + y == y;
    } else {
      LexConcat(p[1..], q[1..], x, y);
      assert (p + x)[1..] == p[1..] + x && (q + y)[1..] == q[1..] + y;
      assert p == [p[0]] + p[1..] && q == [q[0]] + q[1..];
    }
  }

  function Digit(d: nat): char
    requires d < 10
  {
    '0' + d as char
  }

  /** `n` in `w` decimal digits, as %0wd prints it when it fits. */
  function Digits(n: nat, w: nat): (s: string)
    ensures |s| == w
  {
    if w == 0 then "" else Digits(n / 10, w - 1) + [Digit(n % 10)]
  }

  function Pow10(w: nat): nat {
    if w == 0 then 1 else 10 * Pow10(w - 1)
  }

  function Value(s: string): nat
    requires forall i :: 0 <= i < |s| ==> '0' <= s[i] <= '9'
  {
    if s == "" then 0 else 10 * Value(s[..|s| - 1]) + (s[|s| - 1] - '0') as nat
  }

  lemma {:induction false} ValueOfDigits(n: nat, w: nat)
    requires n < Pow10(w)
    ensures forall i :: 0 <= i < w ==> '0' <= Digits(n, w)[i] <= '9'
    ensures Value(Digits(n, w)) == n
  {
    if w > 0 {
      ValueOfDigits(n / 10, w - 1);
      assert Digits(n, w)[..w - 1] == Digits(n / 10, w - 1);
    }
  }

  lemma {:induction false} DigitsOrder(a: nat, b: nat, w: nat)
    requires a < Pow10(w) && b < Pow10(w)
    ensures LexLess(Digits(a, w), Digits(b, w)) <==> a < b
    ensures Digits(a, w) == Digits(b, w) <==> a == b
  {
    if w > 0 {
      DigitsOrder(a / 10, b / 10, w - 1);
      LexConcat(Digits(a / 10, w - 1), Digits(b / 10, w - 1), [Digit(a % 10)], [Digit(b % 10)]);
      assert Digits(a, w)[..w - 1] == Digits(a / 10, w - 1) && Digits(b, w)[..w - 1] == Digits(b / 10, w - 1);
      assert Digits(a, w)[w - 1] == Digit(a % 10) && Digits(b, w)[w - 1] == Digit(b % 10);
    }
  }

  /** A separator and a fixed-width field, in front of the rest. */
  lemma FieldOrder(sep: string, a: nat, b: nat, w: nat, x: string, y: string)
    requires a < Pow10(w) && b < Pow10(w)
    ensures LexLess(sep + Digits(a, w) + x, sep + Digits(b, w) + y) <==> a < b || (a == b && LexLess(x, y))
  {
    DigitsOrder(a, b, w);
    LexConcat(Digits(a, w), Digits(b, w), x, y);
    LexConcat(sep, sep, Digits(a, w) + x, Digits(b, w) + y);
    assert sep + Digits(a, w) + x == sep + (Digits(a, w) + x);
    assert sep + Digits(b, w) + y == sep + (Digits(b, w) + y);
    LexIrreflexive(sep);
  }

  lemma {:induction false} LexIrreflexive(s: string)
    ensures !LexLess(s, s)
  {
    if s != "" { LexIrreflexive(s[1..]); }
  }

  /** strftime "%Y-%m-%dT%H:%M:%SZ". */
  function Format(tm: Tm): string {
    "" + Digits(tm.year, 4) + ("-" + Digits(tm.month, 2) + ("-" + Digits(tm.day, 2) + ("T" + Digits(tm.hour, 2)
      + (":" + Digits(tm.minute, 2) + (":" + Digits(tm.second, 2) + "Z")))))
  }

  /** The last second of the year 9999. */
  const LAST: nat := 253402300799

  lemma YearFits(t: nat)
    requires t <= LAST
    ensures Gmtime(t).year <= 9999
  {
    var tm := Gmtime(t);
    if tm.year > 9999 {
      if tm.year > 10000 { LaterYear(10000, tm.year); }
      YearTenThousand();
      assert false;
    }
  }

  /** Years counted in whole 400-year cycles of 146097 days. */
  lemma {:induction false} Cycle(y: nat, n: nat)
    requires y >= 1970
    ensures DaysBeforeYear(y + n) == DaysBeforeYear(y) + 365 * n + LeapsIn(y, n)
  {
    if n > 0 { Cycle(y, n - 1); }
  }

  /** Leap years among the `n` years from `y`. */
  function LeapsIn(y: nat, n: nat): nat {
    if n == 0 then 0 else LeapsIn(y, n - 1) + if IsLeap(y + n - 1) then 1 else 0
  }

  /** Leap years before `y`, in closed form. */
  function LeapsBefore(y: nat): int
    requires y > 0
  {
    (y - 1) / 4 - (y - 1) / 100 + (y - 1) / 400
  }

  lemma {:induction false} LeapsClosedForm(y: nat, n: nat)
    requires y > 0
    ensures LeapsIn(y, n) == LeapsBefore(y + n) - LeapsBefore(y)
  {
    if n > 0 {
      LeapsClosedForm(y, n - 1);
      LeapStep(y + n - 1);
    }
  }

  lemma LeapStep(y: nat)
    requires y > 0
    ensures LeapsBefore(y + 1) == LeapsBefore(y) + if IsLeap(y) then 1 else 0
  {
    QuotientStep(y, 4);
    QuotientStep(y, 100);
    QuotientStep(y, 400);
    CenturiesAreFourths(y);
  }

  lemma CenturiesAreFourths(y: nat)
    ensures y % 100 == 0 ==> y % 4 == 0
    ensures y % 400 == 0 ==> y % 100 == 0
  {
    var c, q := y / 100, y / 400;
    assert y == 100 * c + y % 100;
    if y % 100 == 0 { assert y == 4 * (25 * c); }
    assert y == 400 * q + y % 400;
    if y % 400 == 0 { assert y == 100 * (4 * q); }
  }

  lemma QuotientStep(y: nat, k: nat)
    requires y > 0 && (k == 4 || k == 100 || k == 400)
    ensures y / k == (y - 1) / k + if y % k == 0 then 1 else 0
  {}

  lemma YearTenThousand()
    ensures DaysBeforeYear(10000) == 2932897
  {
    Cycle(1970, 8030);
    LeapsClosedForm(1970, 8030);
  }

  /** For all instants from 1970 to the end of 9999 the stored strings compare exactly as the
      instants do: this is what makes `timestamp >= ?` and `fired_at > ?` sound. */
  lemma StampOrder(a: nat, b: nat)
    requires a <= LAST && b <= LAST
    ensures LexLess(Format(Gmtime(a)), Format(Gmtime(b))) <==> a < b
    ensures Format(Gmtime(a)) == Format(Gmtime(b)) <==> a == b
  {
    var x, y := Gmtime(a), Gmtime(b);
    YearFits(a);
    YearFits(b);
    FormatOrder(x, y);
    FormatOrder(y, x);
    TmOrder(x, y);
    TmOrder(y, x);
    LexIrreflexive(Format(x));
  }

  lemma FormatOrder(x: Tm, y: Tm)
    requires ValidTm(x) && ValidTm(y) && x.year <= 9999 && y.year <= 9999
    ensures LexLess(Format(x), Format(y)) <==> DateBefore(x, y) || (SameDate(x, y) && TimeBefore(x, y))
  {
    hide LexLess, Digits;
    var xs, ys := "Z", "Z";
    LexIrreflexive("Z");
    Powers();
    FieldOrder(":", x.second, y.second, 2, xs, ys);
    xs, ys := ":" + Digits(x.second, 2) + xs, ":" + Digits(y.second, 2) + ys;
    FieldOrder(":", x.minute, y.minute, 2, xs, ys);
    xs, ys := ":" + Digits(x.minute, 2) + xs, ":" + Digits(y.minute, 2) + ys;
    FieldOrder("T", x.hour, y.hour, 2, xs, ys);
    xs, ys := "T" + Digits(x.hour, 2) + xs, "T" + Digits(y.hour, 2) + ys;
    FieldOrder("-", x.day, y.day, 2, xs, ys);
    xs, ys := "-" + Digits(x.day, 2) + xs, "-" + Digits(y.day, 2) + ys;
    FieldOrder("-", x.month, y.month, 2, xs, ys);
    xs, ys := "-" + Digits(x.month, 2) + xs, "-" + Digits(y.month, 2) + ys;
    FieldOrder("", x.year, y.year, 4, xs, ys);
  }

  lemma Powers()
    ensures Pow10(2) == 100 && Pow10(4) == 10000
  {
    assert Pow10(1) == 10;
    assert Pow10(3) == 1000;
  }

  // --- strftime('%s', timestamp) ---

  predicate AllDigits(s: string) {
    forall i :: 0 <= i < |s| ==> '0' <= s[i] <= '9'
  }

  /** The fields of a stored timestamp. */
  function Parse(s: string): (tm: Tm)
    requires |s| == 20 && AllDigits(s[..4]) && AllDigits(s[5..7]) && AllDigits(s[8..10])
    requires AllDigits(s[11..13]) && AllDigits(s[14..16]) && AllDigits(s[17..19])
  {
    Tm(Value(s[..4]), Value(s[5..7]), Value(s[8..10]), Value(s[11..13]), Value(s[14..16]), Value(s[17..19]))
  }

  /** Reading a stored timestamp back gives the instant it was formatted from. */
  lemma StampRoundTrip(t: nat)
    requires t <= LAST
    ensures var s := Format(Gmtime(t));
            && |s| == 20 && AllDigits(s[..4]) && AllDigits(s[5..7]) && AllDigits(s[8..10])
            && AllDigits(s[11..13]) && AllDigits(s[14..16]) && AllDigits(s[17..19])
            && s[4] == '-' && s[7] == '-' && s[10] == 'T' && s[13] == ':' && s[16] == ':' && s[19] == 'Z'
            && ValidTm(Parse(s)) && Unix(Parse(s)) == t
  {
    hide Digits, Value, Pow10, Gmtime;
    var tm := Gmtime(t);
    YearFits(t);
    Powers();
    MonthsAreShort(tm);
    var s := Format(tm);
    ValueOfDigits(tm.year, 4);
    ValueOfDigits(tm.month, 2);
    ValueOfDigits(tm.day, 2);
    ValueOfDigits(tm.hour, 2);
    ValueOfDigits(tm.minute, 2);
    ValueOfDigits(tm.second, 2);
    assert s[..4] == Digits(tm.year, 4);
    assert s[5..7] == Digits(tm.month, 2);
    assert s[8..10] == Digits(tm.day, 2);
    assert s[11..13] == Digits(tm.hour, 2);
    assert s[14..16] == Digits(tm.minute, 2);
    assert s[17..19] == Digits(tm.second, 2);
  }

  lemma MonthsAreShort(tm: Tm)
    requires ValidTm(tm)
    ensures tm.day < 100
  {}
}
