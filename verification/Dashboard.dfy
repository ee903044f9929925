/** The dashboard part of the configuration: what `config_load` leaves in the fields the current document
    shows, for every file it reads. */
module Dashboard {
  import opened Rows
  import opened Config
  import opened JsonSizes

  const SIZE_UNITS: seq<string> := ["%", "auto"]
  const TEMP_UNITS: seq<string> := ["%", "c", "f"]
  const LOAD_UNITS: seq<string> := ["%", "abs"]
  const NET_UNITS: seq<string> := ["%", "bytes", "bits"]
  const SWAP_IO_UNITS: seq<string> := ["bytes", "ram"]
  const UPTIME_UNITS: seq<string> := ["auto", "h", "d"]
  const THEMES: seq<string> := ["light", "dark", "auto"]

  /** Allowed values and default of each unit, in the order of UNIT_KEYS. */
  const UNITS: seq<(seq<string>, string)> := [
    (SIZE_UNITS, "%"), (SIZE_UNITS, "auto"), (SIZE_UNITS, "%"), (SIZE_UNITS, "auto"),
    (SWAP_IO_UNITS, "bytes"), (SWAP_IO_UNITS, "bytes"), (SIZE_UNITS, "%"), (SIZE_UNITS, "auto"),
    (TEMP_UNITS, "c"), (TEMP_UNITS, "c"), (NET_UNITS, "bytes"), (NET_UNITS, "bytes"),
    (LOAD_UNITS, "abs"), (LOAD_UNITS, "abs")]

  /** The allowed values and the default, unit by unit. */
  lemma UnitsAre(i: nat)
    requires i < 14
    ensures UNITS[i].1 == ["%", "auto", "%", "auto", "bytes", "bytes", "%", "auto", "c", "c", "bytes", "bytes", "abs", "abs"][i]
    ensures UNITS[i].0 == if i in {4, 5} then ["bytes", "ram"] else if i in {8, 9} then ["%", "c", "f"]
                          else if i in {10, 11} then ["%", "bytes", "bits"] else if i in {12, 13} then ["%", "abs"]
                          else ["%", "auto"]
  {}

  const TITLE_CAP: nat := 128

  /** The values of the file; None where a key is missing or of another type. */
  datatype File = File(units: seq<Entry>, uptimeUnit: Entry, title: Entry, theme: Entry, footer: Option<bool>,
                       ranges: Option<seq<Entry>>, charts: Option<seq<Entry>>, cards: Option<seq<Entry>>)

  /** `str_copy`: a value that does not fit is an error and the field keeps its default. */
  method StrCopy(dst: string, cap: nat, v: Entry) returns (field: string, tooLong: bool)
    ensures tooLong <==> v.Some? && |v.value| >= cap
    ensures field == if v.Some? && !tooLong then v.value else dst
  {
    if v == None { return dst, false; }
    if |v.value| >= cap { return dst, true; }
    return v.value, false;
  }

  /** `unit_copy`: a value that is not allowed leaves the default. */
  method UnitCopy(dst: string, v: Entry, allowed: seq<string>) returns (field: string)
    ensures field == if v.Some? && v.value in allowed then v.value else dst
  {
    if v == None { return dst; }
    for i := 0 to |allowed|
      invariant v.value !in allowed[..i]
    {
      if v.value == allowed[i] { return v.value; }
      assert allowed[..i + 1] == allowed[..i] + [allowed[i]];
    }
    assert allowed[..|allowed|] == allowed;
    return dst;
  }

  /** A unit that loads is a short plain word. */
  lemma AllowedAreWords(unit: string)
    requires unit in SIZE_UNITS || unit in TEMP_UNITS || unit in LOAD_UNITS || unit in NET_UNITS
             || unit in SWAP_IO_UNITS || unit in THEMES
    ensures Word(unit, 5)
  {}

  lemma UptimeAreWords(unit: string)
    requires unit in UPTIME_UNITS
    ensures Word(unit, 4)
  {}

  lemma DefaultsAreAllowed(i: nat)
    requires i < 14
    ensures UNITS[i].1 in UNITS[i].0
    ensures forall u :: u in UNITS[i].0 ==> Word(u, 5)
  {
    forall u | u in UNITS[i].0 ensures Word(u, 5) { AllowedAreWords(u); }
  }

  method LoadUnits(entries: seq<Entry>) returns (units: seq<string>)
    requires |entries| == 14
    ensures |units| == 14
    ensures forall i :: 0 <= i < 14 ==>
              units[i] == if entries[i].Some? && entries[i].value in UNITS[i].0 then entries[i].value else UNITS[i].1
    ensures forall i :: 0 <= i < 14 ==> Word(units[i], 5)
  {
    hide Word;
    units := [];
    for i := 0 to 14
      invariant |units| == i
      invariant forall j :: 0 <= j < i ==>
                  units[j] == (if entries[j].Some? && entries[j].value in UNITS[j].0 then entries[j].value else UNITS[j].1)
                  && Word(units[j], 5)
    {
      DefaultsAreAllowed(i);
      var unit := UnitCopy(UNITS[i].1, entries[i], UNITS[i].0);
      units := units + [unit];
    }
  }

  /** The dashboard part of `config_load`; None when the load is refused. Whatever the file says, a
      configuration that loads has short plain units and names, a title of at most 127 bytes and at most
      eight ranges of at most seven: all the current document needs to fit. */
  method LoadSettings(f: File, interval: nat, longMax: nat) returns (c: Option<Settings>)
    requires |f.units| == 14
    ensures c.Some? ==> Loaded(c.value)
    ensures c.Some? ==> c.value.title == if f.title.Some? then f.title.value else "minimoni"
    ensures c.Some? ==> c.value.theme == if f.theme.Some? && f.theme.value in ["light", "dark", "auto"] then f.theme.value else "auto"
    ensures c.Some? ==> c.value.uptimeUnit == if f.uptimeUnit.Some? && f.uptimeUnit.value in ["auto", "h", "d"] then f.uptimeUnit.value else "auto"
    ensures c.Some? ==> (c.value.footer <==> f.footer != Some(false))
    ensures c.Some? ==> |c.value.units| == 14
                        && forall i :: 0 <= i < 14 ==>
                             c.value.units[i] == if f.units[i].Some? && f.units[i].value in UNITS[i].0 then f.units[i].value else UNITS[i].1
    ensures c.Some? ==> c.value.pct == Percent(c.value.units[0] == "%", c.value.units[2] == "%", c.value.units[6] == "%")
    ensures c.Some? ==> c.value.charts == ShownOf(f.charts, CHART_NAMES) && c.value.cards == ShownOf(f.cards, CARD_NAMES)
    ensures c == None <==> Refused(f.ranges, interval, longMax)
                           || (f.title.Some? && |f.title.value| >= 128)
                           || (f.charts.Some? && NameTooLong(f.charts.value, CHART_NAMES))
                           || (f.cards.Some? && NameTooLong(f.cards.value, CARD_NAMES))
    ensures c.Some? ==> c.value.ranges == Tabs(f.ranges, interval, longMax)
  {
    hide Word, NamesLoaded, Known, FirstOf, NameTooLong, Refused, Tabs, Loaded, ShownOf;
    var title, longTitle := StrCopy("minimoni", TITLE_CAP, f.title);
    var theme := UnitCopy("auto", f.theme, THEMES);
    AllowedAreWords(theme);
    var units := LoadUnits(f.units);
    var uptime := UnitCopy("auto", f.uptimeUnit, UPTIME_UNITS);
    UptimeAreWords(uptime);
    var charts, longChart := LoadShown(f.charts, CHART_NAMES);
    var cards, longCard := LoadShown(f.cards, CARD_NAMES);
    var ranges := LoadTabs(f.ranges, interval, longMax);
    if ranges == None || longTitle || longChart || longCard { return None; }
    var settings := Settings(cards, charts, Percent(units[0] == "%", units[2] == "%", units[6] == "%"), units, title, theme,
                             if f.footer.Some? then f.footer.value else true, uptime, ranges.value);
    ShortTitle();
    FieldsLoaded(settings);
    return Some(settings);
  }

  lemma ShortTitle()
    ensures |"minimoni"| == 8
  {}

  lemma FieldsLoaded(c: Settings)
    requires |c.units| == 14 && (forall i :: 0 <= i < 14 ==> Word(c.units[i], 5))
    requires |c.title| <= 127 && Word(c.theme, 5) && Word(c.uptimeUnit, 4)
    requires |c.ranges| <= MAX_RANGES && (forall r :: r in c.ranges ==> |r| <= 7)
    requires NamesLoaded(c.cards, CARD_NAMES) && NamesLoaded(c.charts, CHART_NAMES)
    ensures Loaded(c)
  {
    hide Word, NamesLoaded;
  }

  /** The ranges part: the tabs, unless the load is refused. */
  method LoadTabs(entries: Option<seq<Entry>>, interval: nat, longMax: nat) returns (ranges: Option<seq<string>>)
    ensures ranges == if Refused(entries, interval, longMax) then None else Some(Tabs(entries, interval, longMax))
    ensures ranges.Some? ==> |ranges.value| <= MAX_RANGES && forall r :: r in ranges.value ==> |r| <= 7
  {
    hide Passing;
    ranges := LoadRanges(entries, interval, longMax);
    if ranges.Some? { RangesFit(entries, interval, longMax); }
  }

  /** The ranges of a load that is not refused fit their fields. */
  lemma RangesFit(entries: Option<seq<Entry>>, interval: nat, longMax: nat)
    requires !Refused(entries, interval, longMax)
    ensures |Tabs(entries, interval, longMax)| <= MAX_RANGES
    ensures forall r :: r in Tabs(entries, interval, longMax) ==> |r| <= 7
  {
    hide Passes;
    if entries.Some? { PassingIsAccepted(entries.value, interval, longMax); }
  }
}
