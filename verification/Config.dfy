/** The configured ranges: what is accepted, what each tab asks for, and how long samples are kept. */
module Config {
  import opened Rows
  import Ladder
  import Runs
  import Buckets
  import opened Timestamps

  // --- strtol ---

  predicate IsSpace(c: char) {
    c == ' ' || 9 <= c as int <= 13
  }

  predicate IsDigit(c: char) { '0' <= c <= '9' }

  /** Index of the first character from `i` on that is not white space. */
  function SkipSpace(s: string, i: nat): (j: nat)
    requires i <= |s|
    ensures i <= j <= |s|
    decreases |s| - i
  {
    if i < |s| && IsSpace(s[i]) then SkipSpace(s, i + 1) else i
  }

  function SkipDigits(s: string, i: nat): (j: nat)
    requires i <= |s|
    ensures i <= j <= |s|
    ensures forall k :: i <= k < j ==> IsDigit(s[k])
    decreases |s| - i
  {
    if i < |s| && IsDigit(s[i]) then SkipDigits(s, i + 1) else i
  }

  datatype Number = Number(n: int, end: nat)

  /** strtol(s, &end, 10) where a long holds up to `longMax`: saturates, and leaves `end` at the start
      when there is no number. */
  function Strtol(s: string, longMax: nat): (r: Number)
    ensures r.end <= |s|
    ensures 0 - longMax - 1 <= r.n <= longMax
  {
    var i := SkipSpace(s, 0);
    var signed := i < |s| && (s[i] == '-' || s[i] == '+');
    var from := if signed then i + 1 else i;
    var to := SkipDigits(s, from);
    if to == from then Number(0, 0)
    else
      assert forall k :: 0 <= k < to - from ==> s[from..to][k] == s[from + k];
      var v := Value(s[from..to]);
      if signed && s[i] == '-' then Number(if v > longMax + 1 then 0 - longMax - 1 else 0 - v, to)
      else Number(if v > longMax then longMax else v, to)
  }

  lemma {:induction false} SkipsSpace(s: string, i: nat, j: nat)
    requires i <= j <= |s| && (forall k :: i <= k < j ==> IsSpace(s[k])) && (j < |s| ==> !IsSpace(s[j]))
    ensures SkipSpace(s, i) == j
    decreases j - i
  {
    if i < j { SkipsSpace(s, i + 1, j); }
  }

  lemma {:induction false} SkipsDigits(s: string, i: nat, j: nat)
    requires i <= j <= |s| && (forall k :: i <= k < j ==> IsDigit(s[k])) && (j < |s| ==> !IsDigit(s[j]))
    ensures SkipDigits(s, i) == j
    decreases j - i
  {
    if i < j { SkipsDigits(s, i + 1, j); }
  }

  /** Spaces, tabs, line ends and feeds. */
  predicate IsBlank(s: string) {
    forall k :: 0 <= k < |s| ==> s[k] in {' ', '\t', '\n', 11 as char, 12 as char, '\r'}
  }

  /** White space, a sign or none, the decimal digits of `n` (leading zeros or not) and any rest: strtol gives
      `n` with its sign, cut to what a long holds, and stops in front of the rest. */
  lemma StrtolReads(blank: string, sign: string, n: nat, w: nat, rest: string, longMax: nat)
    requires IsBlank(blank) && sign in {"", "-", "+"} && w > 0 && n < Pow10(w) && (rest == "" || !IsDigit(rest[0]))
    ensures Strtol(blank + sign + Digits(n, w) + rest, longMax)
            == Number(if sign == "-" then (if n > longMax + 1 then 0 - longMax - 1 else 0 - n) else if n > longMax then longMax else n,
                      |blank + sign| + w)
  {
    hide Digits, Pow10, Value, Signed, Strtol, IsBlank;
    var digits := Digits(n, w);
    ValueOfDigits(n, w);
    StrtolOf(blank, sign, digits, rest, longMax);
    SignedIs(sign == "-", n, longMax);
  }

  lemma StrtolOf(blank: string, sign: string, digits: string, rest: string, longMax: nat)
    requires IsBlank(blank) && sign in {"", "-", "+"} && digits != "" && AllDigits(digits)
    requires rest == "" || !IsDigit(rest[0])
    ensures Strtol(blank + sign + digits + rest, longMax)
            == Number(Signed(sign == "-", Value(digits), longMax), |blank + sign| + |digits|)
  {
    hide Value, Signed, Strtol, IsDigit, IsBlank, IsSpace, AllDigits;
    var s, i, from, to := blank + sign + digits + rest, |blank|, |blank + sign|, |blank + sign| + |digits|;
    Slices(blank + sign, digits, rest);
    FirstIsDigit(digits);
    forall k | 0 <= k < i ensures IsSpace(s[k]) {
      assert s[k] == blank[k];
      BlankIsSpace(blank, k);
    }
    if sign != "" { assert s[i] == sign[0]; }
    StrtolAt(s, i, from, to, digits, longMax);
  }

  lemma Slices(a: string, b: string, c: string)
    ensures (a + b + c)[|a|..|a| + |b|] == b
    ensures b != "" ==> (a + b + c)[|a|] == b[0]
    ensures c != "" ==> (a + b + c)[|a| + |b|] == c[0]
  {}

  lemma BlankIsSpace(blank: string, k: nat)
    requires IsBlank(blank) && k < |blank|
    ensures IsSpace(blank[k])
  {}

  lemma FirstIsDigit(digits: string)
    requires digits != "" && AllDigits(digits)
    ensures IsDigit(digits[0])
  {}

  /** What a long makes of a sign and a number. */
  function Signed(minus: bool, n: nat, longMax: nat): int {
    if minus then if n > longMax + 1 then 0 - longMax - 1 else 0 - n
    else if n > longMax then longMax else n
  }

  lemma SignedIs(minus: bool, n: nat, longMax: nat)
    ensures Signed(minus, n, longMax)
            == if minus then (if n > longMax + 1 then 0 - longMax - 1 else 0 - n) else if n > longMax then longMax else n
  {}

  lemma StrtolAt(s: string, i: nat, from: nat, to: nat, digits: string, longMax: nat)
    requires i <= from < to <= |s| && s[from..to] == digits && AllDigits(digits)
    requires forall k :: 0 <= k < i ==> IsSpace(s[k])
    requires (from == i && IsDigit(s[i])) || (from == i + 1 && (s[i] == '-' || s[i] == '+'))
    requires to < |s| ==> !IsDigit(s[to])
    ensures Strtol(s, longMax) == Number(Signed(from == i + 1 && s[i] == '-', Value(digits), longMax), to)
  {
    hide Value;
    forall k | from <= k < to ensures IsDigit(s[k]) { assert s[k] == digits[k - from]; }
    SkipsSpace(s, 0, i);
    SkipsDigits(s, from, to);
  }

  /** Without a digit there is no number, and nothing is read. */
  lemma StrtolStops(blank: string, sign: string, rest: string, longMax: nat)
    requires IsBlank(blank) && sign in {"", "-", "+"}
    requires rest == "" || !(IsDigit(rest[0]) || (sign == "" && (IsBlank(rest[..1]) || rest[0] == '-' || rest[0] == '+')))
    ensures Strtol(blank + sign + rest, longMax) == Number(0, 0)
  {
    var s := blank + sign + rest;
    var i := |blank|;
    assert sign != "" ==> s[i] == sign[0];
    assert rest != "" ==> s[|blank + sign|] == rest[0];
    assert rest != "" && IsSpace(rest[0]) ==> IsBlank(rest[..1]);
    SkipsSpace(s, 0, i);
    SkipsDigits(s, |blank + sign|, |blank + sign|);
  }

  // --- Durations and ranges ---

  /** Seconds of "<n>s", "<n>m", "<n>h" or "<n>d" up to ten years, else -1. The cap is checked before
      the product, so no product can exceed it. */
  function ParseDuration(s: string, longMax: nat): int {
    var r := Strtol(s, longMax);
    if r.n <= 0 || r.end >= |s| || r.end + 1 < |s| then -1
    else if s[r.end] == 's' then if r.n <= 3653 * 86400 then r.n else -1
    else if s[r.end] == 'm' then if r.n <= 3653 * 1440 then r.n * 60 else -1
    else if s[r.end] == 'h' then if r.n <= 3653 * 24 then r.n * 3600 else -1
    else if s[r.end] == 'd' then if r.n <= 3653 then r.n * 86400 else -1
    else -1
  }

  predicate ValidRange(s: string, longMax: nat) {
    var r := Strtol(s, longMax);
    r.n > 0 && r.end < |s| && (s[r.end] == 'm' || s[r.end] == 'h' || s[r.end] == 'd') && r.end + 1 == |s|
  }

  predicate RangeInBounds(s: string, longMax: nat)
    requires s != ""
  {
    var n, u := Strtol(s, longMax).n, s[|s| - 1];
    if u == 'm' then n <= 120 else if u == 'h' then n <= 72 else if u == 'd' then n <= 3653 else false
  }

  /** What `config_load` lets into the ranges. */
  predicate Accepted(s: string, interval: nat, longMax: nat) {
    && ValidRange(s, longMax) && RangeInBounds(s, longMax)
    && ParseDuration(s, longMax) >= interval && |s| < 8
  }

  /** A number and a unit as a duration: seconds, minutes, hours or days, up to ten years of them. */
  lemma DurationReads(n: nat, w: nat, u: char, longMax: nat)
    requires w > 0 && n < Pow10(w) && !IsDigit(u) && longMax >= 0x7fff_ffff
    ensures ParseDuration(Digits(n, w) + [u], longMax)
            == if u == 's' && 1 <= n <= 315_619_200 then n
               else if u == 'm' && 1 <= n <= 5_260_320 then n * 60
               else if u == 'h' && 1 <= n <= 87_672 then n * 3600
               else if u == 'd' && 1 <= n <= 3653 then n * 86400
               else -1
  {
    hide Strtol;
    NumberAndUnit(n, w, u, longMax);
  }

  lemma NumberAndUnit(n: nat, w: nat, u: char, longMax: nat)
    requires w > 0 && n < Pow10(w) && !IsDigit(u)
    ensures Strtol(Digits(n, w) + [u], longMax) == Number(if n > longMax then longMax else n, w)
  {
    hide Strtol, Digits, Pow10;
    StrtolReads("", "", n, w, [u], longMax);
    assert "" + "" + Digits(n, w) + [u] == Digits(n, w) + [u];
  }

  /** A number and a unit as a range: which ones are accepted, the seconds its tab shows and the days it keeps. */
  lemma RangeReads(n: nat, w: nat, u: char, interval: nat, longMax: nat)
    requires w > 0 && n < Pow10(w) && !IsDigit(u) && longMax >= 0x7fff_ffff
    ensures var s := Digits(n, w) + [u];
            && (Accepted(s, interval, longMax)
                <==> && w < 7 && n > 0
                     && ((u == 'm' && n <= 120 && interval <= n * 60) || (u == 'h' && n <= 72 && interval <= n * 3600)
                         || (u == 'd' && n <= 3653 && interval <= n * 86400)))
            && (n <= longMax ==>
                  && HandlerSeconds(s, longMax)
                     == (if n == 0 then 86400 else if u == 'm' then n * 60 else if u == 'h' then n * 3600
                         else if u == 'd' then n * 86400 else 86400)
                  && RangeToDays(s, longMax)
                     == if u == 'm' then (n + 1439) / 1440 else if u == 'h' then (n + 23) / 24 else if u == 'd' then n else 1)
  {
    hide Strtol;
    NumberAndUnit(n, w, u, longMax);
    DurationReads(n, w, u, longMax);
  }

  const MAX_RANGES: nat := 8
  const DEFAULT_RANGES: seq<string> := ["1d", "7d", "30d", "90d"]

  /** An entry of dashboard.ranges: a string, or something else. */
  type Entry = Option<string>

  /** The entry passes every check but the length of its field. */
  predicate Passes(e: Entry, interval: nat, longMax: nat) {
    && e.Some? && ValidRange(e.value, longMax) && RangeInBounds(e.value, longMax)
    && ParseDuration(e.value, longMax) >= interval
  }

  function Passing(es: seq<Entry>, interval: nat, longMax: nat): seq<string> {
    if es == [] then []
    else
      var e := es[|es| - 1];
      Passing(es[..|es| - 1], interval, longMax) + if Passes(e, interval, longMax) then [e.value] else []
  }

  lemma {:induction false} PassingIsAccepted(es: seq<Entry>, interval: nat, longMax: nat)
    ensures |Passing(es, interval, longMax)| <= |es|
    ensures forall r :: r in Passing(es, interval, longMax) && |r| < 8 ==> Accepted(r, interval, longMax)
  {
    if es != [] { PassingIsAccepted(es[..|es| - 1], interval, longMax); }
  }

  /** The dashboard.ranges part of `config_load`; `entries` is None when the key is not an array.
      None is an aborted load: too many entries, none left, or one too long for its field. */
  method LoadRanges(entries: Option<seq<Entry>>, interval: nat, longMax: nat) returns (ranges: Option<seq<string>>)
    ensures ranges == (
              if entries == None || entries.value == [] then Some(DEFAULT_RANGES)
              else if |entries.value| > 8 then None
              else
                var kept := Passing(entries.value, interval, longMax);
                if kept == [] || exists r :: r in kept && |r| >= 8 then None else Some(kept))
  {
    hide ValidRange, RangeInBounds, ParseDuration;
    if entries.Some? && |entries.value| > MAX_RANGES { return None; }
    if entries.Some? && |entries.value| > 0 {
      var es := entries.value;
      var kept: seq<string> := [];
      var tooLong := false;
      for i := 0 to |es|
        invariant kept == Passing(es[..i], interval, longMax)
        invariant tooLong <==> exists r :: r in kept && |r| >= 8
      {
        assert es[..i + 1][..i] == es[..i];
        if Passes(es[i], interval, longMax) {
          kept := kept + [es[i].value];
          if |es[i].value| >= 8 { tooLong := true; }
        }
      }
      assert es[..|es|] == es;
      if kept == [] || tooLong { return None; }
      return Some(kept);
    }
    return Some(DEFAULT_RANGES);
  }

  // --- What a tab asks for ---

  /** `handler_metrics`: the seconds of a range string, a day when it makes none. */
  function HandlerSeconds(s: string, longMax: nat): int {
    var r := Strtol(s, longMax);
    var unit := if r.end < |s| then s[r.end] else '\0';
    var secs := if r.n <= 0 then 0
                else if unit == 'h' then r.n * 3600
                else if unit == 'd' then r.n * 86400
                else if unit == 'm' then r.n * 60
                else 0;
    if secs <= 0 then 86400 else secs
  }

  /** The tab a request names: one of the configured ranges, or the first. */
  method SelectRange(query: string, ranges: seq<string>) returns (r: string)
    ensures r == if query in ranges then query else if ranges != [] then ranges[0] else "1d"
  {
    var ok := false;
    for i := 0 to |ranges|
      invariant ok <==> query in ranges[..i]
    {
      assert ranges[..i + 1] == ranges[..i] + [ranges[i]];
      if query == ranges[i] {
        ok := true;
      }
    }
    assert ranges[..|ranges|] == ranges;
    r := if ok then query else if |ranges| > 0 then ranges[0] else "1d";
  }

  // --- How long samples are kept ---

  function RangeToDays(s: string, longMax: nat): int
    requires s != ""
  {
    var n, u := Strtol(s, longMax).n, s[|s| - 1];
    if u == 'd' then n else if u == 'h' then (n + 23) / 24 else if u == 'm' then (n + 1439) / 1440 else 1
  }

  method RetentionDays(ranges: seq<string>, longMax: nat) returns (days: int)
    requires forall i :: 0 <= i < |ranges| ==> ranges[i] != ""
    ensures forall i :: 0 <= i < |ranges| && RangeToDays(ranges[i], longMax) > 0 ==> RangeToDays(ranges[i], longMax) <= days
    ensures if exists i :: 0 <= i < |ranges| && RangeToDays(ranges[i], longMax) > 0
            then exists i :: 0 <= i < |ranges| && days == RangeToDays(ranges[i], longMax)
            else days == 90
  {
    if |ranges| == 0 { return 90; }
    var max := 0;
    for i := 0 to |ranges|
      invariant max >= 0
      invariant forall j :: 0 <= j < i ==> RangeToDays(ranges[j], longMax) <= max
      invariant max > 0 ==> exists j :: 0 <= j < i && max == RangeToDays(ranges[j], longMax)
    {
      var d := RangeToDays(ranges[i], longMax);
      if d > max { max := d; }
    }
    days := if max > 0 then max else 90;
  }

  /** An accepted range means the same seconds to the tab as to the loader, at most ten years of them,
      inside 32 bits; and the days it keeps samples for are the fewest that cover them. */
  lemma RangeMeaning(s: string, interval: nat, longMax: nat)
    requires longMax >= 0x7fff_ffff && Accepted(s, interval, longMax)
    ensures HandlerSeconds(s, longMax) == ParseDuration(s, longMax)
    ensures interval <= ParseDuration(s, longMax) && 60 <= ParseDuration(s, longMax) <= 3653 * 86400 <= 0x7fff_ffff
    ensures s != "" && 1 <= RangeToDays(s, longMax) <= 3653
    ensures RangeToDays(s, longMax) * 86400 >= ParseDuration(s, longMax) > (RangeToDays(s, longMax) - 1) * 86400
  {
    hide Strtol;
    var r := Strtol(s, longMax);
    assert s[|s| - 1] == s[r.end];
  }

  lemma DefaultsAreAccepted(interval: nat, longMax: nat)
    requires longMax >= 0x7fff_ffff && interval <= 3600
    ensures forall r :: r in DEFAULT_RANGES ==> Accepted(r, interval, longMax)
  {
    forall i | 0 <= i < |DEFAULT_RANGES| ensures Accepted(DEFAULT_RANGES[i], interval, longMax) {
      DefaultRange(i, longMax);
    }
  }

  lemma DefaultRange(i: nat, longMax: nat)
    requires i < 4 && longMax >= 0x7fff_ffff
    ensures var s := DEFAULT_RANGES[i];
            Strtol(s, longMax) == Number([1, 7, 30, 90][i], |s| - 1) && s[|s| - 1] == 'd' && |s| < 8
  {
    var s := DEFAULT_RANGES[i];
    var n := |s| - 1;
    assert SkipSpace(s, 0) == 0;
    assert SkipDigits(s, n) == n;
    assert SkipDigits(s, 0) == n;
    if i < 2 {
      assert s[0..1][..0] == "";
      assert Value(s[0..1]) == [1, 7][i];
    } else {
      assert s[0..2][..1] == s[0..1] && s[0..1][..0] == "";
      assert Value(s[0..2]) == [30, 90][i - 2];
    }
  }

  /** The load is refused: too many entries, none left, or one too long for its field. */
  ghost predicate Refused(entries: Option<seq<Entry>>, interval: nat, longMax: nat) {
    && entries.Some? && entries.value != []
    && (|entries.value| > MAX_RANGES
        || Passing(entries.value, interval, longMax) == []
        || exists r :: r in Passing(entries.value, interval, longMax) && |r| >= 8)
  }

  /** The tabs of a configuration that loads. */
  function Tabs(entries: Option<seq<Entry>>, interval: nat, longMax: nat): seq<string> {
    if entries == None || entries.value == [] then DEFAULT_RANGES else Passing(entries.value, interval, longMax)
  }

  /** Whatever configuration is loaded and whatever range a client names, the tab's window is inside
      the retention: no tab asks for samples that pruning may have dropped for their age. There is no
      window only when the load is refused; else it is the window of the tab named, or of the first, and the
      retention is the fewest days that cover every tab. */
  method ServeTab(entries: Option<seq<Entry>>, interval: nat, longMax: nat, query: string)
    returns (window: Option<(int, int)>)
    requires longMax >= 0x7fff_ffff && interval <= 3600
    ensures window == None <==> Refused(entries, interval, longMax)
    ensures window.Some? ==> var (secs, days) := window.value; 60 <= secs <= days * 86400 && days <= 3653
    ensures window.Some? ==> var tabs := Tabs(entries, interval, longMax);
                             tabs != [] && window.value.0 == HandlerSeconds(if query in tabs then query else tabs[0], longMax)
    ensures window.Some? ==> var (tabs, days) := (Tabs(entries, interval, longMax), window.value.1);
                             && (forall r :: r in tabs ==> ParseDuration(r, longMax) <= days * 86400)
                             && (exists r :: r in tabs && (days - 1) * 86400 < ParseDuration(r, longMax))
  {
    hide Accepted, Passing, HandlerSeconds, RangeToDays, ParseDuration;
    var loaded := LoadRanges(entries, interval, longMax);
    if loaded == None { return None; }
    var ranges := loaded.value;
    DefaultsAreAccepted(interval, longMax);
    if entries.Some? { PassingIsAccepted(entries.value, interval, longMax); }
    forall i | 0 <= i < |ranges|
      ensures ranges[i] != "" && 1 <= RangeToDays(ranges[i], longMax) <= 3653
      ensures 60 <= HandlerSeconds(ranges[i], longMax) <= RangeToDays(ranges[i], longMax) * 86400
      ensures HandlerSeconds(ranges[i], longMax) == ParseDuration(ranges[i], longMax) > (RangeToDays(ranges[i], longMax) - 1) * 86400
    {
      assert ranges[i] in ranges && Accepted(ranges[i], interval, longMax);
      RangeMeaning(ranges[i], interval, longMax);
    }
    var tab := SelectRange(query, ranges);
    var days := RetentionDays(ranges, longMax);
    assert RangeToDays(ranges[0], longMax) > 0;
    var k :| 0 <= k < |ranges| && ranges[k] == tab;
    return Some((HandlerSeconds(tab, longMax), days));
  }

  /** A sample a tab can ask for survives pruning, except within one widest bucket of the window's
      far end. */
  lemma TabKeepsItsSamples(t: Table, interval: Ladder.pos, clock: nat, now: nat, secs: nat, days: nat, s: Sample)
    requires Buckets.Placed(t, Ladder.LADDER, interval, clock)
    requires secs <= days * 86400 && s in SamplesOf(t) && s.at >= now - secs + 21599
    ensures s in SamplesOf(Runs.Retained(t, Runs.Cutoff(now, days)))
  {
    hide Buckets.Placed;
    Buckets.PruneRespectsAge(t, Ladder.LADDER, interval, clock, Runs.Cutoff(now, days), 21600);
  }

  // --- Charts and cards ---

  const MAX_NAMES: nat := 16
  const CHART_NAMES: seq<string> := ["cpu_load", "cpu_usage", "memory", "swap", "swap_io", "disk", "temp", "net"]
  const CARD_NAMES: seq<string> := CHART_NAMES + ["uptime"]

  /** A list can name every group of values the documents show, and nothing else. */
  lemma GroupsAreKnown(name: string)
    ensures name in CHART_NAMES <==> name in {"cpu_load", "cpu_usage", "memory", "swap", "swap_io", "disk", "temp", "net"}
    ensures name in CARD_NAMES <==> name in CHART_NAMES || name == "uptime"
  {}

  /** The dashboard.charts and dashboard.cards parts of `config_load`: `list` is empty for "show all",
      and `hidden` is the explicit empty array. Known names are kept in order up to the limit; a name
      too long for its field fails the load. */
  method LoadNames(entries: Option<seq<Entry>>, known: seq<string>) returns (list: seq<string>, hidden: bool, tooLong: bool)
    ensures hidden <==> entries == Some([])
    ensures |list| <= 16 && forall n :: n in list ==> n in known && |n| < 16
    ensures tooLong <==> entries.Some? && NameTooLong(entries.value, known)
    ensures list == if entries == None then [] else FirstOf(Known(entries.value, known), 16)
  {
    hide Known, LongAt;
    list, hidden, tooLong := [], entries == Some([]), false;
    if entries == None { return; }
    var es := entries.value;
    NoneKnown(known);
    if hidden { return; }
    assert es[..0] == [];
    var i := 0;
    while i < |es| && |list| < MAX_NAMES
      invariant 0 <= i <= |es| && |list| <= MAX_NAMES
      invariant forall n :: n in list ==> n in known && |n| < 16
      invariant list == Known(es[..i], known)
      invariant tooLong <==> exists k :: 0 <= k < i && LongAt(es, k, known)
    {
      NextName(es, i, known);
      if es[i].Some? {
        if |es[i].value| >= 16 {
          tooLong := true;
        } else if es[i].value in known {
          list := list + [es[i].value];
        }
      }
      i := i + 1;
    }
    ListDone(es, i, known);
  }

  lemma NoneKnown(known: seq<string>)
    ensures Known([], known) == [] && !NameTooLong([], known)
  {}

  lemma NextName(es: seq<Entry>, i: nat, known: seq<string>)
    requires i < |es| && |Known(es[..i], known)| < MAX_NAMES
    ensures LongAt(es, i, known) <==> es[i].Some? && |es[i].value| >= 16
    ensures Known(es[..i + 1], known)
            == Known(es[..i], known) + if es[i].Some? && |es[i].value| < 16 && es[i].value in known then [es[i].value] else []
  {
    assert es[..i + 1][..i] == es[..i];
  }

  /** Nothing after a full list counts. */
  lemma ListDone(es: seq<Entry>, i: nat, known: seq<string>)
    requires i == |es| || (i <= |es| && |Known(es[..i], known)| == MAX_NAMES)
    requires |Known(es[..i], known)| <= MAX_NAMES
    ensures Known(es[..i], known) == FirstOf(Known(es, known), MAX_NAMES)
    ensures forall k :: i <= k < |es| ==> !LongAt(es, k, known)
  {
    hide Known;
    KnownGrows(es, i, known);
    assert es[..|es|] == es;
    forall k | i <= k < |es| ensures !LongAt(es, k, known) {
      KnownGrows(es[..k], i, known);
      assert es[..k][..i] == es[..i];
    }
  }

  function FirstOf(names: seq<string>, n: nat): seq<string> {
    if |names| <= n then names else names[..n]
  }

  /** Entry `k` is too long for its field, and is read: the list was not full before it. */
  predicate LongAt(es: seq<Entry>, k: nat, known: seq<string>)
    requires k < |es|
  {
    es[k].Some? && |es[k].value| >= 16 && |Known(es[..k], known)| < MAX_NAMES
  }

  predicate NameTooLong(es: seq<Entry>, known: seq<string>) {
    exists k :: 0 <= k < |es| && LongAt(es, k, known)
  }

  /** The known names among the entries that fit their field, in order. */
  function Known(es: seq<Entry>, known: seq<string>): seq<string> {
    if es == [] then []
    else
      var e := es[|es| - 1];
      Known(es[..|es| - 1], known) + if e.Some? && |e.value| < 16 && e.value in known then [e.value] else []
  }

  lemma {:induction false} KnownGrows(es: seq<Entry>, i: nat, known: seq<string>)
    requires i <= |es|
    ensures Known(es[..i], known) <= Known(es, known)
  {
    if i < |es| {
      KnownGrows(es[..|es| - 1], i, known);
      assert es[..|es| - 1][..i] == es[..i];
    } else {
      assert es[..i] == es;
    }
  }
}
