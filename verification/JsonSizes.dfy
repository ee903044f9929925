/** The API documents as the serializers write them, and why each fits its buffer. */
module JsonSizes {
  import opened Rows
  import opened JsonText
  import opened JsonWriter
  import Config

  // --- Pieces of a document ---

  /** What a serializer writes between the braces: a field, literal text behind its comma, or an array
      of strings. */
  datatype Piece = Write(f: Field) | Literal(text: string) | List(name: string, elems: seq<string>)

  /** The piece complete, with every element of an array. */
  function Whole(p: Piece): string {
    match p
    case Write(f) => Printed(f)
    case Literal(text) => text
    case List(name, elems) => "\"" + name + "\":[" + Quoted(elems) + "]"
  }

  function PutElements(d: Doc, elems: seq<string>): (Doc, bool) {
    if elems == [] then (d, false)
    else
      var (before, emitted) := PutElements(d, elems[..|elems| - 1]);
      PutElement(before, elems[|elems| - 1], emitted)
  }

  function PutPiece(d: Doc, p: Piece): Doc {
    match p
    case Write(f) => Put(d, f)
    case Literal(text) => PutRaw(PutSep(d), text)
    case List(name, elems) => PutRaw(PutElements(PutRaw(PutSep(d), "\"" + name + "\":["), elems).0, "]")
  }

  function PutPieces(d: Doc, ps: seq<Piece>): Doc {
    if ps == [] then d else PutPiece(PutPieces(d, ps[..|ps| - 1]), ps[|ps| - 1])
  }

  /** The pieces one after another, each behind a comma but a first one that needs none. */
  function Glued(ps: seq<Piece>, comma: bool): string {
    if ps == [] then ""
    else Glued(ps[..|ps| - 1], comma) + (if comma || |ps| > 1 then "," else "") + Whole(ps[|ps| - 1])
  }

  /** The piece fits the small buffers it is made in. */
  predicate Sound(p: Piece) {
    match p
    case Write(f) => Short(f)
    case Literal(_) => true
    case List(_, elems) => forall i :: 0 <= i < |elems| ==> |Escape(elems[i])| <= 96 - 1
  }

  function Budget(ps: seq<Piece>): nat {
    if ps == [] then 0 else Budget(ps[..|ps| - 1]) + 1 + |Whole(ps[|ps| - 1])|
  }

  // --- Enough room means everything is written ---

  lemma {:induction false} ElementsFit(d: Doc, elems: seq<string>)
    requires forall i :: 0 <= i < |elems| ==> |Escape(elems[i])| <= 95
    requires |d.text| + |Quoted(elems)| < d.cap
    ensures PutElements(d, elems) == (d.(text := d.text + Quoted(elems)), elems != [])
  {
    hide Escape;
    if elems == [] {
      assert d.text + "" == d.text;
    } else {
      var rest, last := elems[..|elems| - 1], elems[|elems| - 1];
      ElementsFit(d, rest);
      var element := (if |elems| > 1 then "," else "") + "\"" + Escape(last) + "\"";
      assert Quoted(elems) == Quoted(rest) + element;
      assert (rest != []) == (|elems| > 1);
      assert d.text + Quoted(rest) + element == d.text + Quoted(elems);
    }
  }

  lemma PieceFits(d: Doc, p: Piece)
    requires !d.overflow && Sound(p) && |d.text| + 1 + |Whole(p)| < d.cap
    ensures PutPiece(d, p) == d.(text := d.text + Comma(d) + Whole(p), comma := true)
  {
    hide Escape, Printed, Quoted, PutElements;
    match p
    case Write(f) => FieldFits(d, f);
    case Literal(text) =>
    case List(name, elems) => ListFits(d, name, elems);
  }

  lemma ListFits(d: Doc, name: string, elems: seq<string>)
    requires !d.overflow && Sound(List(name, elems)) && |d.text| + 1 + |Whole(List(name, elems))| < d.cap
    ensures PutPiece(d, List(name, elems)) == d.(text := d.text + Comma(d) + Whole(List(name, elems)), comma := true)
  {
    hide Escape, Quoted, PutElements;
    var head := "\"" + name + "\":[";
    var headed := d.(text := d.text + Comma(d) + head, comma := true);
    TextFits(d, head);
    hide PutSep;
    ElementsFit(headed, elems);
    assert headed.text + Quoted(elems) + "]" == d.text + Comma(d) + (head + Quoted(elems) + "]");
  }

  lemma TextFits(d: Doc, text: string)
    requires |d.text| + |Comma(d)| + |text| < d.cap
    ensures PutRaw(PutSep(d), text) == d.(text := d.text + Comma(d) + text, comma := true)
  {}

  lemma FieldFits(d: Doc, f: Field)
    requires Short(f) && |d.text| + 1 + |Printed(f)| < d.cap
    ensures Put(d, f) == d.(text := d.text + Comma(d) + Printed(f), comma := true)
  {
    hide Escape;
    if f.StrField? { assert |Printed(f)| == |Escape(f.key)| + |Escape(f.val)| + 5; }
  }

  /** With room for the budget, every piece is written complete and nothing overflows: no field and no
      list element is dropped. */
  lemma {:induction false} PiecesFit(d: Doc, ps: seq<Piece>)
    requires !d.overflow && (forall i :: 0 <= i < |ps| ==> Sound(ps[i]))
    requires |d.text| + Budget(ps) < d.cap
    ensures PutPieces(d, ps) == d.(text := d.text + Glued(ps, d.comma), comma := d.comma || ps != [])
    ensures |Glued(ps, d.comma)| <= Budget(ps)
  {
    hide Sound, Whole, PutPiece;
    if ps == [] {
      assert d.text + "" == d.text;
    } else {
      var rest, last := ps[..|ps| - 1], ps[|ps| - 1];
      PiecesFit(d, rest);
      var before := PutPieces(d, rest);
      PieceFits(before, last);
      assert (rest != []) == (|ps| > 1);
      assert before.text + Comma(before) + Whole(last) == d.text + Glued(ps, d.comma);
    }
  }

  /** An object of the pieces in a buffer of `cap` bytes. */
  function Document(cap: nat, ps: seq<Piece>): Doc {
    PutEnd(PutPieces(PutBegin(Doc("", cap, false, false)), ps))
  }

  lemma DocumentFits(cap: nat, ps: seq<Piece>)
    requires forall i :: 0 <= i < |ps| ==> Sound(ps[i])
    requires Budget(ps) + 2 < cap
    ensures !Document(cap, ps).overflow && Document(cap, ps).text == "{" + Glued(ps, false) + "}"
    ensures |Document(cap, ps).text| <= Budget(ps) + 2
  {
    hide Sound, PutPieces;
    var begun := PutBegin(Doc("", cap, false, false));
    assert begun == Doc("{", cap, false, false);
    PiecesFit(begun, ps);
  }

  // --- Adding up ---

  lemma {:induction false} BudgetAdds(a: seq<Piece>, b: seq<Piece>)
    ensures Budget(a + b) == Budget(a) + Budget(b)
  {
    hide Whole;
    if b == [] {
      assert a + b == a;
    } else {
      BudgetAdds(a, b[..|b| - 1]);
      assert (a + b)[..|a + b| - 1] == a + b[..|b| - 1] && (a + b)[|a + b| - 1] == b[|b| - 1];
    }
  }

  /** Pieces that fit their buffers and are each at most `w` bytes with a comma. */
  predicate Within(ps: seq<Piece>, w: nat) {
    forall i :: 0 <= i < |ps| ==> Sound(ps[i]) && 1 + |Whole(ps[i])| <= w
  }

  lemma {:induction false} WithinBudget(ps: seq<Piece>, w: nat)
    requires Within(ps, w)
    ensures Budget(ps) <= w * |ps|
  {
    hide Sound, Whole;
    if ps != [] {
      WithinBudget(ps[..|ps| - 1], w);
      assert w * |ps| == w * (|ps| - 1) + w;
    }
  }

  lemma WithinAdds(a: seq<Piece>, b: seq<Piece>, w: nat)
    requires Within(a, w) && Within(b, w)
    ensures Within(a + b, w)
  {
    hide Sound, Whole;
  }

  // --- Plain text ---

  /** Characters the escaper passes through. */
  predicate Plain(s: string) {
    forall i :: 0 <= i < |s| ==> PlainChar(s[i])
  }

  predicate PlainChar(c: char) { (c as int) >= 0x20 && c != '"' && c != '\\' }

  lemma {:induction false} PlainEscape(s: string)
    requires Plain(s)
    ensures Escape(s) == s
  {
    if s != "" {
      var c := s[|s| - 1];
      PlainEscape(s[..|s| - 1]);
      assert PlainChar(c);
      assert EscapeChar(c) == [c];
      hide EscapeChar;
      assert s == s[..|s| - 1] + [c];
    }
  }

  // --- What the serializers are given ---

  /** A charts or cards setting: everything, nothing, or a list. */
  datatype Shown = All | Nothing | Only(names: seq<string>)

  /** `config_has` */
  predicate Has(s: Shown, name: string)
    ensures Has(s, name) <==> s == All || (s.Only? && name in s.names)
  {
    match s
    case All => true
    case Nothing => false
    case Only(names) => name in names
  }

  /** Which optional groups of the row have values. */
  datatype Flags = Flags(cpu: bool, temp: bool, net: bool, swap: bool, swapIo: bool)

  /** Whether memory, swap and disk are shown in percent. */
  datatype Percent = Percent(memory: bool, swap: bool, disk: bool)

  /** The %.4g text of the value a field carries; None when it is not finite. */
  type Tokens = string -> Option<string>

  /** "-1.234e+308" is as long as %.4g gets. */
  ghost predicate ShortTokens(tok: Tokens) {
    forall k :: tok(k).Some? ==> IsNumber(tok(k).value) && |tok(k).value| <= 11
  }

  function Value(tok: Tokens, key: string): Piece { Write(RealField(key, tok(key))) }

  function ValueIf(tok: Tokens, valid: bool, key: string): Piece {
    if valid then Value(tok, key) else Write(NullField(key))
  }

  /** A value field under a key of at most 18 bytes takes at most 33 with its comma. */
  lemma ValueWidth(tok: Tokens, valid: bool, key: string, w: nat)
    requires ShortTokens(tok) && |key| <= 18 && |key| + 15 <= w
    ensures Sound(ValueIf(tok, valid, key)) && 1 + |Whole(ValueIf(tok, valid, key))| <= w
  {
    hide IsNumber;
  }

  // --- /api/metrics points ---

  function Three(tok: Tokens, valid: bool, a: string, b: string, c: string): seq<Piece> {
    [ValueIf(tok, valid, a), ValueIf(tok, valid, b), ValueIf(tok, valid, c)]
  }

  function Two(tok: Tokens, valid: bool, a: string, b: string): seq<Piece> {
    [ValueIf(tok, valid, a), ValueIf(tok, valid, b)]
  }

  /** The share alone in percent, else the share and the total. */
  function Sized(tok: Tokens, valid: bool, pct: bool, share: string, total: string): seq<Piece> {
    if pct then [ValueIf(tok, valid, share)] else Two(tok, valid, share, total)
  }

  function When(shown: bool, ps: seq<Piece>): seq<Piece> { if shown then ps else [] }

  /** The value fields both documents share in layout, under the keys `k`. */
  datatype Keys = Keys(load: seq<string>, cpu: seq<string>, memory: seq<string>, swap: seq<string>,
                       swapIo: seq<string>, disk: seq<string>, temp: string, net: seq<string>)

  predicate KeysFit(k: Keys, n: nat) {
    && |k.load| == |k.cpu| == 3 && |k.memory| == |k.swap| == |k.swapIo| == |k.disk| == |k.net| == 2
    && (forall i :: 0 <= i < 3 ==> |k.load[i]| <= n && |k.cpu[i]| <= n)
    && (forall i :: 0 <= i < 2 ==> |k.memory[i]| <= n && |k.swap[i]| <= n && |k.swapIo[i]| <= n && |k.disk[i]| <= n && |k.net[i]| <= n)
    && |k.temp| <= n
  }

  function Groups(k: Keys, shown: Shown, pct: Percent, row: Flags, tok: Tokens): seq<Piece>
    requires KeysFit(k, 18)
  {
    LoadToSwap(k, shown, pct, row, tok) + SwapIoToNet(k, shown, pct, row, tok)
  }

  function LoadToSwap(k: Keys, shown: Shown, pct: Percent, row: Flags, tok: Tokens): seq<Piece>
    requires KeysFit(k, 18)
  {
    When(Has(shown, "cpu_load"), Three(tok, true, k.load[0], k.load[1], k.load[2]))
    + When(Has(shown, "cpu_usage"), Three(tok, row.cpu, k.cpu[0], k.cpu[1], k.cpu[2]))
    + When(Has(shown, "memory"), Sized(tok, true, pct.memory, k.memory[0], k.memory[1]))
    + When(Has(shown, "swap"), Sized(tok, row.swap, pct.swap, k.swap[0], k.swap[1]))
  }

  function SwapIoToNet(k: Keys, shown: Shown, pct: Percent, row: Flags, tok: Tokens): seq<Piece>
    requires KeysFit(k, 18)
  {
    When(Has(shown, "swap_io"), Two(tok, row.swapIo, k.swapIo[0], k.swapIo[1]))
    + When(Has(shown, "disk"), Sized(tok, true, pct.disk, k.disk[0], k.disk[1]))
    + When(Has(shown, "temp"), [ValueIf(tok, row.temp, k.temp)])
    + When(Has(shown, "net"), Two(tok, row.net, k.net[0], k.net[1]))
  }

  lemma ThreeWidth(shown: bool, tok: Tokens, valid: bool, a: string, b: string, c: string, w: nat)
    requires ShortTokens(tok) && |a| <= 18 && |b| <= 18 && |c| <= 18 && |a| + 15 <= w && |b| + 15 <= w && |c| + 15 <= w
    ensures Within(When(shown, Three(tok, valid, a, b, c)), w) && |When(shown, Three(tok, valid, a, b, c))| <= 3
  {
    hide Sound, Whole, ValueIf;
    ValueWidth(tok, valid, a, w);
    ValueWidth(tok, valid, b, w);
    ValueWidth(tok, valid, c, w);
  }

  lemma SizedWidth(shown: bool, tok: Tokens, valid: bool, pct: bool, a: string, b: string, w: nat)
    requires ShortTokens(tok) && |a| <= 18 && |b| <= 18 && |a| + 15 <= w && |b| + 15 <= w
    ensures Within(When(shown, Sized(tok, valid, pct, a, b)), w) && |When(shown, Sized(tok, valid, pct, a, b))| <= 2
    ensures Within(When(shown, Two(tok, valid, a, b)), w) && |When(shown, Two(tok, valid, a, b))| <= 2
    ensures Within(When(shown, [ValueIf(tok, valid, a)]), w)
  {
    hide Sound, Whole, ValueIf;
    ValueWidth(tok, valid, a, w);
    ValueWidth(tok, valid, b, w);
  }

  lemma FourAdd(a: seq<Piece>, b: seq<Piece>, c: seq<Piece>, d: seq<Piece>, w: nat)
    requires Within(a, w) && Within(b, w) && Within(c, w) && Within(d, w)
    ensures Within(a + b + c + d, w) && |a + b + c + d| == |a| + |b| + |c| + |d|
  {
    hide Within;
    WithinAdds(a, b, w);
    WithinAdds(a + b, c, w);
    WithinAdds(a + b + c, d, w);
  }

  lemma LoadToSwapWidth(k: Keys, n: nat, shown: Shown, pct: Percent, row: Flags, tok: Tokens)
    requires n <= 18 && KeysFit(k, n) && KeysFit(k, 18) && ShortTokens(tok)
    ensures Within(LoadToSwap(k, shown, pct, row, tok), n + 15) && |LoadToSwap(k, shown, pct, row, tok)| <= 10
  {
    hide Within, Three, Two, Sized, Has, When, ShortTokens;
    var w := n + 15;
    ThreeWidth(Has(shown, "cpu_load"), tok, true, k.load[0], k.load[1], k.load[2], w);
    ThreeWidth(Has(shown, "cpu_usage"), tok, row.cpu, k.cpu[0], k.cpu[1], k.cpu[2], w);
    SizedWidth(Has(shown, "memory"), tok, true, pct.memory, k.memory[0], k.memory[1], w);
    SizedWidth(Has(shown, "swap"), tok, row.swap, pct.swap, k.swap[0], k.swap[1], w);
    FourAdd(When(Has(shown, "cpu_load"), Three(tok, true, k.load[0], k.load[1], k.load[2])),
            When(Has(shown, "cpu_usage"), Three(tok, row.cpu, k.cpu[0], k.cpu[1], k.cpu[2])),
            When(Has(shown, "memory"), Sized(tok, true, pct.memory, k.memory[0], k.memory[1])),
            When(Has(shown, "swap"), Sized(tok, row.swap, pct.swap, k.swap[0], k.swap[1])), w);
  }

  lemma SwapIoToNetWidth(k: Keys, n: nat, shown: Shown, pct: Percent, row: Flags, tok: Tokens)
    requires n <= 18 && KeysFit(k, n) && KeysFit(k, 18) && ShortTokens(tok)
    ensures Within(SwapIoToNet(k, shown, pct, row, tok), n + 15) && |SwapIoToNet(k, shown, pct, row, tok)| <= 7
  {
    hide Within, Three, Two, Sized, Has, When, ShortTokens, ValueIf;
    var w := n + 15;
    SizedWidth(Has(shown, "swap_io"), tok, row.swapIo, true, k.swapIo[0], k.swapIo[1], w);
    SizedWidth(Has(shown, "disk"), tok, true, pct.disk, k.disk[0], k.disk[1], w);
    SizedWidth(Has(shown, "temp"), tok, row.temp, true, k.temp, k.temp, w);
    SizedWidth(Has(shown, "net"), tok, row.net, true, k.net[0], k.net[1], w);
    WhenShort(Has(shown, "temp"), [ValueIf(tok, row.temp, k.temp)]);
    FourAdd(When(Has(shown, "swap_io"), Two(tok, row.swapIo, k.swapIo[0], k.swapIo[1])),
            When(Has(shown, "disk"), Sized(tok, true, pct.disk, k.disk[0], k.disk[1])),
            When(Has(shown, "temp"), [ValueIf(tok, row.temp, k.temp)]),
            When(Has(shown, "net"), Two(tok, row.net, k.net[0], k.net[1])), w);
  }

  /** At most 17 fields, each within the key length plus 15. */
  lemma GroupsWidth(k: Keys, n: nat, shown: Shown, pct: Percent, row: Flags, tok: Tokens)
    requires n <= 18 && KeysFit(k, n) && ShortTokens(tok)
    ensures KeysFit(k, 18)
    ensures Within(Groups(k, shown, pct, row, tok), n + 15) && |Groups(k, shown, pct, row, tok)| <= 17
  {
    hide Within, LoadToSwap, SwapIoToNet, ShortTokens;
    LoadToSwapWidth(k, n, shown, pct, row, tok);
    SwapIoToNetWidth(k, n, shown, pct, row, tok);
    WithinAdds(LoadToSwap(k, shown, pct, row, tok), SwapIoToNet(k, shown, pct, row, tok), n + 15);
  }

  lemma WhenShort(shown: bool, ps: seq<Piece>)
    ensures |When(shown, ps)| <= |ps|
  {}

  const POINT_KEYS := Keys(["l1", "l5", "l15"], ["cu", "cs", "ci"], ["ma", "mt"], ["sf", "st"], ["si", "so"], ["da", "dt"], "tp", ["nr", "nt"])

  const POINT_CAP: nat := 512

  /** `json_serialize_point`; `t` is the %ld text of the time, at most 20 bytes. */
  function Point(t: string, charts: Shown, pct: Percent, row: Flags, tok: Tokens): seq<Piece> {
    [Write(LongField("t", t))] + Groups(POINT_KEYS, charts, pct, row, tok) + [Value(tok, "up")]
  }

  /** Every point fits: whatever is configured and whatever the row holds. */
  lemma PointFits(t: string, charts: Shown, pct: Percent, row: Flags, tok: Tokens)
    requires |t| <= 20 && ShortTokens(tok)
    ensures !Document(POINT_CAP, Point(t, charts, pct, row, tok)).overflow
    ensures Document(POINT_CAP, Point(t, charts, pct, row, tok)).text == "{" + Glued(Point(t, charts, pct, row, tok), false) + "}"
  {
    hide Groups, Document, Glued, Budget;
    GroupsWidth(POINT_KEYS, 3, charts, pct, row, tok);
    var head, groups, last := [Write(LongField("t", t))], Groups(POINT_KEYS, charts, pct, row, tok), [Value(tok, "up")];
    assert Within(head, 25);
    ValueWidth(tok, true, "up", 25);
    assert Within(groups, 25);
    assert Within(last, 25);
    WithinAdds(head, groups, 25);
    WithinAdds(head + groups, last, 25);
    WithinBudget(head + groups + last, 25);
    DocumentFits(POINT_CAP, head + groups + last);
  }

  // --- /api/current ---

  const CURRENT_CAP: nat := 4096

  const CURRENT_KEYS := Keys(
    ["load_1m", "load_5m", "load_15m"], ["cpu_user_percent", "cpu_system_percent", "cpu_idle_percent"],
    ["mem_available", "mem_total"], ["swap_free", "swap_total"], ["swap_in", "swap_out"],
    ["disk_available", "disk_total"], "temp", ["net_rx", "net_tx"])

  const UNIT_KEYS: seq<string> := [
    "mem_card_unit", "mem_chart_unit", "swap_card_unit", "swap_chart_unit", "swap_io_card_unit",
    "swap_io_chart_unit", "disk_card_unit", "disk_chart_unit", "temp_card_unit", "temp_chart_unit",
    "net_card_unit", "net_chart_unit", "cpu_load_card_unit", "cpu_load_chart_unit"]

  const THRESHOLDS: seq<(string, string)> := [
    ("cpu_load", "thresh_load"), ("cpu_usage", "thresh_cpu"), ("memory", "thresh_mem"), ("swap", "thresh_swap"),
    ("swap_io", "thresh_swap_io"), ("disk", "thresh_disk"), ("temp", "thresh_temp"), ("net", "thresh_net")]

  /** What the document reads from a loaded configuration. `units` are the fourteen card and chart
      units. */
  datatype Settings = Settings(cards: Shown, charts: Shown, pct: Percent, units: seq<string>, title: string,
                               theme: string, footer: bool, uptimeUnit: string, ranges: seq<string>)

  /** A unit, theme or known name: at most `n` plain characters. */
  predicate Word(s: string, n: nat) { |s| <= n && Plain(s) }

  /** What `config_load` leaves in them: the fixed lists for units, theme and names, a title that fits
      its field, ranges that fit theirs. */
  predicate Loaded(c: Settings) {
    && |c.units| == 14 && (forall i :: 0 <= i < 14 ==> Word(c.units[i], 5))
    && |c.title| <= 127 && Word(c.theme, 5) && Word(c.uptimeUnit, 4)
    && |c.ranges| <= Config.MAX_RANGES && (forall i :: 0 <= i < |c.ranges| ==> |c.ranges[i]| <= 7)
    && NamesLoaded(c.cards, Config.CARD_NAMES) && NamesLoaded(c.charts, Config.CHART_NAMES)
  }

  predicate NamesLoaded(s: Shown, known: seq<string>) {
    s.Only? ==> 0 < |s.names| <= Config.MAX_NAMES && forall i :: 0 <= i < |s.names| ==> s.names[i] in known
  }

  /** What a list in the file shows: an empty one nothing, one without a known name everything. */
  function ShownOf(entries: Option<seq<Config.Entry>>, known: seq<string>): Shown {
    if entries == Some([]) then Nothing
    else if entries == None || Config.Known(entries.value, known) == [] then All
    else Only(Config.FirstOf(Config.Known(entries.value, known), 16))
  }

  /** The setting `config_has` reads out of what `config_load` left: no list shows everything. */
  method LoadShown(entries: Option<seq<Config.Entry>>, known: seq<string>) returns (s: Shown, tooLong: bool)
    ensures NamesLoaded(s, known)
    ensures s == ShownOf(entries, known)
    ensures tooLong <==> entries.Some? && Config.NameTooLong(entries.value, known)
  {
    var list, hidden;
    list, hidden, tooLong := Config.LoadNames(entries, known);
    s := if hidden then Nothing else if list == [] then All else Only(list);
  }

  /** The two %.6g texts of a threshold. */
  type Pairs = string -> (string, string)

  ghost predicate ShortPairs(pairs: Pairs) {
    forall k :: |pairs(k).0| <= 13 && |pairs(k).1| <= 13
  }

  function UnitPieces(units: seq<string>): seq<Piece>
    requires |units| == 14
  {
    seq(14, i requires 0 <= i < 14 => Write(StrField(UNIT_KEYS[i], units[i])))
  }

  function NamePiece(name: string, s: Shown): Piece {
    match s
    case All => Literal("\"" + name + "\":null")
    case Nothing => Literal("\"" + name + "\":[]")
    case Only(names) => List(name, names)
  }

  function ThresholdPieces(cards: Shown, pairs: Pairs, n: nat): seq<Piece>
    requires n <= 8
  {
    if n == 0 then []
    else
      var (card, key) := THRESHOLDS[n - 1];
      ThresholdPieces(cards, pairs, n - 1)
      + When(Has(cards, card), [Write(PairField(key, pairs(key).0, pairs(key).1))])
  }

  /** `json_serialize_current` */
  function Current(c: Settings, timestamp: string, row: Flags, tok: Tokens, pairs: Pairs): seq<Piece>
    requires |c.units| == 14
  {
    Values(c, timestamp, row, tok) + Texts(c) + Lists(c) + ThresholdPieces(c.cards, pairs, 8)
  }

  function Values(c: Settings, timestamp: string, row: Flags, tok: Tokens): seq<Piece> {
    [Write(StrField("timestamp", timestamp))]
    + Groups(CURRENT_KEYS, c.cards, c.pct, row, tok)
    + When(Has(c.cards, "uptime"), [Value(tok, "uptime_seconds")])
  }

  function Texts(c: Settings): seq<Piece>
    requires |c.units| == 14
  {
    UnitPieces(c.units)
    + [Write(StrField("title", c.title)), Write(StrField("theme", c.theme)),
       Literal(if c.footer then "\"show_footer\":true" else "\"show_footer\":false"),
       Write(StrField("uptime_unit", c.uptimeUnit))]
  }

  function Lists(c: Settings): seq<Piece> {
    [List("ranges", c.ranges), NamePiece("charts", c.charts), NamePiece("cards", c.cards)]
  }

  lemma KeysArePlain()
    ensures Plain("timestamp") && Plain("title") && Plain("theme") && Plain("uptime_unit")
    ensures forall i :: 0 <= i < 14 ==> Word(UNIT_KEYS[i], 19)
  {
    forall i | 0 <= i < 14 ensures Word(UNIT_KEYS[i], 19) {
      UnitKeyPlain(i);
    }
  }

  lemma UnitKeyPlain(i: nat)
    requires i < 14
    ensures Word(UNIT_KEYS[i], 19)
  {}

  lemma KnownNamesPlain(name: string)
    requires name in Config.CARD_NAMES
    ensures Word(name, 9)
  {
    var i :| 0 <= i < |Config.CARD_NAMES| && Config.CARD_NAMES[i] == name;
    KnownNamePlain(i);
  }

  lemma KnownNamePlain(i: nat)
    requires i < 9
    ensures Word(Config.CARD_NAMES[i], 9)
  {}

  /** A string field with a plain key: its width, and that it fits its local buffers. */
  lemma StringWidth(key: string, val: string)
    requires Plain(key) && |key| <= 19 && |val| <= 127
    ensures Sound(Write(StrField(key, val))) && |Whole(Write(StrField(key, val)))| <= |key| + 6 * |val| + 5
    ensures Plain(val) ==> |Whole(Write(StrField(key, val)))| == |key| + |val| + 5
  {
    hide Escape;
    PlainEscape(key);
    EscapeLength(val);
    if Plain(val) { PlainEscape(val); }
  }

  lemma {:induction false} QuotedLength(elems: seq<string>, n: nat)
    requires forall i :: 0 <= i < |elems| ==> |Escape(elems[i])| <= n
    ensures |Quoted(elems)| <= (n + 3) * |elems|
  {
    hide Escape;
    if elems != [] {
      QuotedLength(elems[..|elems| - 1], n);
      assert (n + 3) * |elems| == (n + 3) * (|elems| - 1) + (n + 3);
    }
  }

  lemma ValuesBudget(c: Settings, timestamp: string, row: Flags, tok: Tokens)
    requires |timestamp| <= 23 && ShortTokens(tok)
    ensures Budget(Values(c, timestamp, row, tok)) <= 153 + 18 * 33
    ensures forall i :: 0 <= i < |Values(c, timestamp, row, tok)| ==> Sound(Values(c, timestamp, row, tok)[i])
  {
    hide Groups, Whole, Sound, ShortTokens, Has;
    var stamp, groups := [Write(StrField("timestamp", timestamp))], Groups(CURRENT_KEYS, c.cards, c.pct, row, tok);
    var up := When(Has(c.cards, "uptime"), [Value(tok, "uptime_seconds")]);
    KeysArePlain();
    StringWidth("timestamp", timestamp);
    GroupsWidth(CURRENT_KEYS, 18, c.cards, c.pct, row, tok);
    ValueWidth(tok, true, "uptime_seconds", 33);
    assert Within(stamp, 153);
    assert Within(up, 33);
    WithinBudget(stamp, 153);
    WithinBudget(groups, 33);
    WithinBudget(up, 33);
    BudgetAdds(stamp, groups);
    BudgetAdds(stamp + groups, up);
  }

  lemma TextsBudget(c: Settings)
    requires Loaded(c)
    ensures Budget(Texts(c)) <= 14 * 30 + 773 + 3 * 30
    ensures forall i :: 0 <= i < |Texts(c)| ==> Sound(Texts(c)[i])
  {
    hide Whole, Sound, Plain, NamesLoaded, Budget;
    KeysArePlain();
    var units := UnitPieces(c.units);
    forall i | 0 <= i < 14 ensures Sound(units[i]) && 1 + |Whole(units[i])| <= 30 {
      StringWidth(UNIT_KEYS[i], c.units[i]);
    }
    WithinBudget(units, 30);
    var title, theme, uptime := Write(StrField("title", c.title)), Write(StrField("theme", c.theme)), Write(StrField("uptime_unit", c.uptimeUnit));
    StringWidth("title", c.title);
    StringWidth("theme", c.theme);
    StringWidth("uptime_unit", c.uptimeUnit);
    var footer := Literal(if c.footer then "\"show_footer\":true" else "\"show_footer\":false");
    LiteralWidth(footer.text);
    WithinBudget([title], 773);
    assert Within([theme, footer, uptime], 30);
    WithinBudget([theme, footer, uptime], 30);
    BudgetAdds([title], [theme, footer, uptime]);
    assert [title] + [theme, footer, uptime] == [title, theme, footer, uptime];
    BudgetAdds(units, [title, theme, footer, uptime]);
  }

  lemma LiteralWidth(text: string)
    ensures Sound(Literal(text)) && |Whole(Literal(text))| == |text|
  {}

  lemma NamesWidth(name: string, s: Shown)
    requires NamesLoaded(s, Config.CARD_NAMES) && |name| <= 6
    ensures Sound(NamePiece(name, s)) && 1 + |Whole(NamePiece(name, s))| <= 204
  {
    hide Escape, Plain, Quoted;
    if s.Only? {
      forall i | 0 <= i < |s.names| ensures |Escape(s.names[i])| <= 9 {
        KnownNamesPlain(s.names[i]);
        PlainEscape(s.names[i]);
      }
      QuotedLength(s.names, 9);
    }
  }

  lemma ListsBudget(c: Settings)
    requires Loaded(c)
    ensures Budget(Lists(c)) <= 372 + 2 * 204
    ensures forall i :: 0 <= i < |Lists(c)| ==> Sound(Lists(c)[i])
  {
    hide Escape, Plain, Quoted, Word, Budget;
    forall i | 0 <= i < |c.ranges| ensures |Escape(c.ranges[i])| <= 42 {
      EscapeLength(c.ranges[i]);
    }
    QuotedLength(c.ranges, 42);
    NamesWidth("charts", c.charts);
    NamesWidth("cards", c.cards);
    var ranges, charts, cards := List("ranges", c.ranges), NamePiece("charts", c.charts), NamePiece("cards", c.cards);
    assert Within([ranges], 372);
    WithinBudget([ranges], 372);
    assert Within([charts, cards], 204);
    WithinBudget([charts, cards], 204);
    BudgetAdds([ranges], [charts, cards]);
    assert [ranges] + [charts, cards] == Lists(c);
  }

  lemma ThresholdWidth(key: string, warn: string, crit: string)
    requires |key| <= 14 && |warn| <= 13 && |crit| <= 13
    ensures Sound(Write(PairField(key, warn, crit))) && 1 + |Whole(Write(PairField(key, warn, crit)))| <= 47
  {}

  lemma LastThreshold(cards: Shown, pairs: Pairs, n: nat) returns (last: seq<Piece>)
    requires 0 < n <= 8 && ShortPairs(pairs)
    ensures ThresholdPieces(cards, pairs, n) == ThresholdPieces(cards, pairs, n - 1) + last
    ensures Budget(last) <= 47 && forall i :: 0 <= i < |last| ==> Sound(last[i])
  {
    hide Whole, Sound, Has, Budget;
    var (card, key) := THRESHOLDS[n - 1];
    assert |key| <= 14;
    ThresholdWidth(key, pairs(key).0, pairs(key).1);
    last := When(Has(cards, card), [Write(PairField(key, pairs(key).0, pairs(key).1))]);
    assert Within(last, 47) && |last| <= 1;
    WithinBudget(last, 47);
  }

  lemma {:induction false} ThresholdsBudget(cards: Shown, pairs: Pairs, n: nat)
    requires n <= 8 && ShortPairs(pairs)
    ensures Budget(ThresholdPieces(cards, pairs, n)) <= 47 * n
    ensures forall i :: 0 <= i < |ThresholdPieces(cards, pairs, n)| ==> Sound(ThresholdPieces(cards, pairs, n)[i])
  {
    hide Whole, Sound, Has, Budget, ShortPairs;
    if n > 0 {
      ThresholdsBudget(cards, pairs, n - 1);
      var last := LastThreshold(cards, pairs, n);
      BudgetAdds(ThresholdPieces(cards, pairs, n - 1), last);
    } else {
      NoBudget();
    }
  }

  lemma NoBudget()
    ensures Budget([]) == 0
  {}

  /** /api/current and each stream frame fit for every configuration that loads and every row: nothing
      overflows, and no range, chart or card name is dropped from its list. */
  lemma CurrentFits(c: Settings, timestamp: string, row: Flags, tok: Tokens, pairs: Pairs)
    requires Loaded(c) && |timestamp| <= 23 && ShortTokens(tok) && ShortPairs(pairs)
    ensures var ps := Current(c, timestamp, row, tok, pairs);
            && !Document(CURRENT_CAP, ps).overflow
            && Document(CURRENT_CAP, ps).text == "{" + Glued(ps, false) + "}"
  {
    hide Budget, Sound, Values, Texts, Lists, ThresholdPieces, Document, Glued, ShortTokens, ShortPairs, NamesLoaded, Word;
    ValuesBudget(c, timestamp, row, tok);
    TextsBudget(c);
    ListsBudget(c);
    ThresholdsBudget(c.cards, pairs, 8);
    var a, b, l, h := Values(c, timestamp, row, tok), Texts(c), Lists(c), ThresholdPieces(c.cards, pairs, 8);
    BudgetAdds(a, b);
    BudgetAdds(a + b, l);
    BudgetAdds(a + b + l, h);
    DocumentFits(CURRENT_CAP, a + b + l + h);
  }

  // --- The units at the end of /api/metrics ---

  const UNITS_CAP: nat := 256
  const DIGITS_MAX: real := 9999.0

  /** What the largest-value scan reads of a row. */
  datatype Amounts = Amounts(mem: (real, real), swap: Option<(real, real)>, swapIo: Option<(real, real)>,
                             disk: (real, real), net: Option<(real, real)>)

  function Max2(a: real, b: real): real { if a > b then a else b }

  /** The largest of the pairs a selection finds, and of 0. */
  function Peak(rows: seq<Amounts>, pick: Amounts -> Option<(real, real)>): (p: real)
    ensures p >= 0.0
    ensures forall i :: 0 <= i < |rows| && pick(rows[i]).Some? ==> pick(rows[i]).value.0 <= p && pick(rows[i]).value.1 <= p
    ensures p == 0.0 || exists i :: 0 <= i < |rows| && pick(rows[i]).Some?
                                    && (pick(rows[i]).value.0 == p || pick(rows[i]).value.1 == p)
  {
    if rows == [] then 0.0
    else
      var before, last := Peak(rows[..|rows| - 1], pick), pick(rows[|rows| - 1]);
      if last.Some? then Max2(before, Max2(last.value.0, last.value.1)) else before
  }

  datatype Peaks = Peaks(mem: real, swap: real, swapIo: real, disk: real, net: real)

  /** The largest value of each unit over all rows. */
  function PeaksOf(rows: seq<Amounts>): Peaks {
    Peaks(Peak(rows, (r: Amounts) => Some(r.mem)), Peak(rows, (r: Amounts) => r.swap),
          Peak(rows, (r: Amounts) => r.swapIo), Peak(rows, (r: Amounts) => Some(r.disk)),
          Peak(rows, (r: Amounts) => r.net))
  }

  /** The loop of `json_serialize_units`. */
  method ScanPeaks(rows: seq<Amounts>) returns (p: Peaks)
    ensures p == PeaksOf(rows)
  {
    p := Peaks(0.0, 0.0, 0.0, 0.0, 0.0);
    for i := 0 to |rows|
      invariant p == PeaksOf(rows[..i])
    {
      assert rows[..i + 1][..i] == rows[..i];
      var r := rows[i];
      p := p.(mem := Max2(p.mem, Max2(r.mem.0, r.mem.1)), disk := Max2(p.disk, Max2(r.disk.0, r.disk.1)));
      if r.swap.Some? { p := p.(swap := Max2(p.swap, Max2(r.swap.value.0, r.swap.value.1))); }
      if r.swapIo.Some? { p := p.(swapIo := Max2(p.swapIo, Max2(r.swapIo.value.0, r.swapIo.value.1))); }
      if r.net.Some? { p := p.(net := Max2(p.net, Max2(r.net.value.0, r.net.value.1))); }
    }
    assert rows[..|rows|] == rows;
  }

  function Power(x: real, n: nat): real { if n == 0 then 1.0 else x * Power(x, n - 1) }

  /** Rung `i`: the first on which the value is at most 9999, or the last; -1 when there is nothing to
      show. */
  ghost predicate IsRung(max: real, steps: nat, factor: real, i: int) {
    && -1 <= i < steps
    && (i == -1 <==> max <= 0.0)
    && (i >= 0 ==> (forall k :: 0 <= k < i ==> max > 9999.0 * Power(factor, k))
                   && (i < steps - 1 ==> max <= 9999.0 * Power(factor, i)))
  }

  /** `unit_step` */
  method UnitStep(max: real, steps: nat, factor: real) returns (i: int)
    requires steps > 0 && factor > 0.0
    ensures IsRung(max, steps, factor, i)
  {
    if !(max > 0.0) { return -1; }
    i := 0;
    PowerPositive(factor, 0);
    while i < steps - 1 && max / Power(factor, i) > DIGITS_MAX
      invariant 0 <= i < steps
      invariant Power(factor, i) > 0.0
      invariant forall k :: 0 <= k < i ==> max > DIGITS_MAX * Power(factor, k)
      decreases steps - i
    {
      OverIff(max, Power(factor, i));
      i := i + 1;
      PowerPositive(factor, i);
    }
    OverIff(max, Power(factor, i));
  }

  lemma OverIff(max: real, p: real)
    requires p > 0.0
    ensures max / p > DIGITS_MAX <==> max > DIGITS_MAX * p
  {
    assert max / p * p == max;
    if max / p > DIGITS_MAX {
      assert (max / p - DIGITS_MAX) * p > 0.0;
    } else {
      assert (DIGITS_MAX - max / p) * p >= 0.0;
    }
  }

  lemma {:induction false} PowerPositive(x: real, n: nat)
    requires x > 0.0
    ensures Power(x, n) > 0.0
  {
    if n > 0 { PowerPositive(x, n - 1); }
  }

  /** One entry of the units: its key, symbols, whether its numbers are bits in powers of 1000, and the
      exponent of its first rung. */
  datatype Ladder = Ladder(key: string, symbols: seq<string>, bits: bool, base: nat)

  const LADDERS: seq<Ladder> := [
    Ladder("mem", ["MB", "GB", "TB"], false, 0),
    Ladder("swap", ["MB", "GB", "TB"], false, 0),
    Ladder("swap_io", ["KB/s", "MB/s", "GB/s"], false, 1),
    Ladder("disk", ["GB", "TB", "PB"], false, 0)]

  const NET_BYTES := Ladder("net", ["KB/s", "MB/s", "GB/s"], false, 1)
  const NET_BITS := Ladder("net", ["Kbps", "Mbps", "Gbps"], true, 1)

  /** The %g text of 1024 or 1000 to the power `e`. */
  function DivText(bits: bool, e: nat): string
    requires e <= 3
  {
    if bits then ["1", "1000", "1e+06", "1e+09"][e] else ["1", "1024", "1.04858e+06", "1.07374e+09"][e]
  }

  /** `unit_entry`, on the rung chosen. */
  function Entry(l: Ladder, step: nat): string
    requires step < 3 && |l.symbols| == 3 && l.base <= 1
  {
    "\"" + l.key + "\":{\"sym\":\"" + l.symbols[step] + "\",\"mul\":" + (if l.bits then "8" else "1")
    + ",\"div\":" + DivText(l.bits, step + l.base) + "}"
  }

  /** The entry of a chart whose unit has rungs, when it has something to show. */
  function EntryIf(shown: bool, l: Ladder, step: int): seq<Piece>
    requires -1 <= step < 3 && |l.symbols| == 3 && l.base <= 1
  {
    if shown && step >= 0 then [Literal(Entry(l, step))] else []
  }

  /** Which units have rungs, whether the network shows bits, and the rung of each. */
  datatype Rungs = Rungs(shown: seq<bool>, bits: bool, steps: seq<int>)

  predicate ValidRungs(r: Rungs) {
    |r.shown| == |r.steps| == 5 && forall i :: 0 <= i < 5 ==> -1 <= r.steps[i] < 3
  }

  function Entries(r: Rungs): seq<Piece>
    requires ValidRungs(r)
  {
    EntryIf(r.shown[0], LADDERS[0], r.steps[0]) + EntryIf(r.shown[1], LADDERS[1], r.steps[1])
    + EntryIf(r.shown[2], LADDERS[2], r.steps[2]) + EntryIf(r.shown[3], LADDERS[3], r.steps[3])
    + EntryIf(r.shown[4], if r.bits then NET_BITS else NET_BYTES, r.steps[4])
  }

  /** `json_serialize_units` on an empty buffer. */
  function Units(cap: nat, r: Rungs): Doc
    requires ValidRungs(r)
  {
    var begun := PutRaw(PutSep(Doc("", cap, false, false)), "\"units\":{").(comma := false);
    PutRaw(PutPieces(begun, Entries(r)), "}").(comma := true)
  }

  lemma EntryWidth(l: Ladder, step: nat)
    requires step < 3 && |l.symbols| == 3 && l.base <= 1 && |l.symbols[step]| <= 4
    ensures |Entry(l, step)| == |l.key| + |l.symbols[step]| + |DivText(l.bits, step + l.base)| + 28
    ensures |DivText(l.bits, step + l.base)| <= if l.bits then 5 else 11
  {}

  lemma EntryBudget(shown: bool, l: Ladder, step: int, w: nat)
    requires -1 <= step < 3 && |l.symbols| == 3 && l.base <= 1
    requires forall i :: 0 <= i < 3 ==> |l.symbols[i]| + |l.key| + 40 <= w && |l.symbols[i]| <= 4
    ensures Budget(EntryIf(shown, l, step)) <= w
    ensures forall i :: 0 <= i < |EntryIf(shown, l, step)| ==> Sound(EntryIf(shown, l, step)[i])
  {
    if shown && step >= 0 {
      EntryWidth(l, step);
      assert Within(EntryIf(shown, l, step), w);
      WithinBudget(EntryIf(shown, l, step), w);
    }
  }

  lemma {:induction false} FirstTakesNoComma(ps: seq<Piece>)
    ensures |Glued(ps, false)| == if ps == [] then 0 else Budget(ps) - 1
  {
    hide Whole;
    if |ps| == 1 {
      assert ps[..0] == [];
      assert Glued(ps[..0], false) == "" && Budget(ps[..0]) == 0;
    } else if ps != [] {
      FirstTakesNoComma(ps[..|ps| - 1]);
    }
  }

  lemma EntriesBudget(r: Rungs)
    requires ValidRungs(r)
    ensures Budget(Entries(r)) <= 235
    ensures forall i :: 0 <= i < |Entries(r)| ==> Sound(Entries(r)[i])
  {
    hide Budget, Sound, EntryIf;
    var net := if r.bits then NET_BITS else NET_BYTES;
    var a, b := EntryIf(r.shown[0], LADDERS[0], r.steps[0]), EntryIf(r.shown[1], LADDERS[1], r.steps[1]);
    var c, d := EntryIf(r.shown[2], LADDERS[2], r.steps[2]), EntryIf(r.shown[3], LADDERS[3], r.steps[3]);
    var e := EntryIf(r.shown[4], net, r.steps[4]);
    EntryBudget(r.shown[0], LADDERS[0], r.steps[0], 45);
    EntryBudget(r.shown[1], LADDERS[1], r.steps[1], 46);
    EntryBudget(r.shown[2], LADDERS[2], r.steps[2], 51);
    EntryBudget(r.shown[3], LADDERS[3], r.steps[3], 46);
    EntryBudget(r.shown[4], net, r.steps[4], 47);
    BudgetAdds(a, b);
    BudgetAdds(a + b, c);
    BudgetAdds(a + b + c, d);
    BudgetAdds(a + b + c + d, e);
  }

  /** The units fit for every configuration and every magnitude, in at most 244 of the 255 bytes. */
  lemma UnitsFit(r: Rungs)
    requires ValidRungs(r)
    ensures !Units(UNITS_CAP, r).overflow
    ensures Units(UNITS_CAP, r).text == "\"units\":{" + Glued(Entries(r), false) + "}"
    ensures |Units(UNITS_CAP, r).text| <= 244
  {
    hide Entries, Budget, Sound, Glued, PutPieces;
    EntriesBudget(r);
    var begun := PutRaw(PutSep(Doc("", UNITS_CAP, false, false)), "\"units\":{").(comma := false);
    assert begun == Doc("\"units\":{", UNITS_CAP, false, false);
    PiecesFit(begun, Entries(r));
    FirstTakesNoComma(Entries(r));
  }

  /** A rate on its first rung. */
  function Kilobytes(bps: real): (k: real)
    ensures k * 1024.0 == bps
  {
    bps / 1024.0
  }

  function Kilobits(bps: real): (k: real)
    ensures k * 1000.0 == bps * 8.0
  {
    bps * 8.0 / 1000.0
  }

  /** The rungs `json_serialize_units` picks: each unit's from the largest of its values over all rows,
      so the whole answer is read on one scale; and what is written from them fits. */
  method ChooseRungs(rows: seq<Amounts>, shown: seq<bool>, bits: bool) returns (r: Rungs)
    requires |shown| == 5
    ensures ValidRungs(r) && r.shown == shown && r.bits == bits
    ensures var p := PeaksOf(rows);
            r.steps == [RungOf(p.mem, 1024.0), RungOf(p.swap, 1024.0), RungOf(Kilobytes(p.swapIo), 1024.0), RungOf(p.disk, 1024.0),
                        if bits then RungOf(Kilobits(p.net), 1000.0) else RungOf(Kilobytes(p.net), 1024.0)]
    ensures !Units(UNITS_CAP, r).overflow
  {
    hide PeaksOf, Units, IsRung, RungOf, Kilobytes, Kilobits;
    var p := ScanPeaks(rows);
    var mem := Rung(p.mem, 1024.0);
    var swap := Rung(p.swap, 1024.0);
    var swapIo := Rung(Kilobytes(p.swapIo), 1024.0);
    var disk := Rung(p.disk, 1024.0);
    var net;
    if bits { net := Rung(Kilobits(p.net), 1000.0); } else { net := Rung(Kilobytes(p.net), 1024.0); }
    r := Rungs(shown, bits, [mem, swap, swapIo, disk, net]);
    UnitsFit(r);
  }

  method Rung(max: real, factor: real) returns (i: int)
    requires factor > 0.0
    ensures -1 <= i < 3 && IsRung(max, 3, factor, i)
    ensures i == RungOf(max, factor)
  {
    i := UnitStep(max, 3, factor);
    assert Power(factor, 0) == 1.0 && Power(factor, 1) == factor;
  }

  /** Of three rungs: none for nothing, the first up to 9999, the second up to 9999 of its own, else the third. */
  function RungOf(max: real, factor: real): int {
    if max <= 0.0 then -1 else if max <= 9999.0 then 0 else if max <= 9999.0 * factor then 1 else 2
  }

  /** And 244 are needed: every magnitude at the top of its ladder. */
  lemma UnitsFitIsTight()
    ensures var r := Rungs([true, true, true, true, true], false, [2, 2, 2, 2, 2]);
            ValidRungs(r) && |Units(UNITS_CAP, r).text| == 244
  {
    var r := Rungs([true, true, true, true, true], false, [2, 2, 2, 2, 2]);
    UnitsFit(r);
    FirstTakesNoComma(Entries(r));
    TopBudget(r);
  }

  lemma TopBudget(r: Rungs)
    requires r == Rungs([true, true, true, true, true], false, [2, 2, 2, 2, 2])
    ensures Budget(Entries(r)) == 235
  {
    hide Entry, DivText;
    var a, b, c := [Literal(Entry(LADDERS[0], 2))], [Literal(Entry(LADDERS[1], 2))], [Literal(Entry(LADDERS[2], 2))];
    var d, e := [Literal(Entry(LADDERS[3], 2))], [Literal(Entry(NET_BYTES, 2))];
    TopEntry(LADDERS[0]);
    TopEntry(LADDERS[1]);
    TopEntry(LADDERS[2]);
    TopEntry(LADDERS[3]);
    TopEntry(NET_BYTES);
    BudgetAdds(a, b);
    BudgetAdds(a + b, c);
    BudgetAdds(a + b + c, d);
    BudgetAdds(a + b + c + d, e);
  }

  lemma TopEntry(l: Ladder)
    requires |l.symbols| == 3 && l.base <= 1 && !l.bits && |l.symbols[2]| <= 4
    ensures Budget([Literal(Entry(l, 2))]) == |l.key| + |l.symbols[2]| + 40
  {
    EntryWidth(l, 2);
    assert [Literal(Entry(l, 2))][..0] == [];
    assert Budget([Literal(Entry(l, 2))][..0]) == 0;
  }
}
