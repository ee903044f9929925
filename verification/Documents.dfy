/** The documents a client receives, read back: the reader of JsonText gets every key and value the
    serializers were given, in order. */
module Documents {
  import Rows
  import opened JsonText
  import opened JsonWriter
  import opened JsonSizes

  const FOOTER := "\"show_footer\":true"
  const NO_FOOTER := "\"show_footer\":false"

  /** The member a piece stands for. */
  function Meaning(p: Piece): Member {
    match p
    case Write(f) => MemberOf(f)
    case List(name, elems) => Member(name, Strings(elems))
    case Literal(text) =>
      if text == FOOTER || text == NO_FOOTER then Member("show_footer", Bool(text == FOOTER))
      else if text == "\"charts\":null" then Member("charts", Null)
      else if text == "\"cards\":null" then Member("cards", Null)
      else if text == "\"charts\":[]" then Member("charts", Strings([]))
      else Member("cards", Strings([]))
  }

  function Meanings(ps: seq<Piece>): (ms: seq<Member>)
    ensures |ms| == |ps|
  {
    seq(|ps|, i requires 0 <= i < |ps| => Meaning(ps[i]))
  }

  /** The piece is printed as the member it stands for. */
  ghost predicate Readable(p: Piece) {
    Whole(p) == Render(Meaning(p)) && ValidValue(Meaning(p).value)
  }

  ghost predicate AllReadable(ps: seq<Piece>) {
    forall i :: 0 <= i < |ps| ==> Readable(ps[i])
  }

  lemma ReadableAdds(a: seq<Piece>, b: seq<Piece>)
    requires AllReadable(a) && AllReadable(b)
    ensures AllReadable(a + b)
  {
    hide Readable;
  }

  lemma {:induction false} GluedIsJoin(ps: seq<Piece>)
    requires AllReadable(ps)
    ensures Glued(ps, false) == Join(Meanings(ps))
  {
    hide Whole, Render, Meaning;
    if ps != [] {
      var n := |ps| - 1;
      GluedIsJoin(ps[..n]);
      assert Meanings(ps)[..n] == Meanings(ps[..n]);
      assert Readable(ps[n]);
    }
  }

  /** A document of readable pieces that fits is read back whole. */
  lemma DocumentReads(cap: nat, ps: seq<Piece>)
    requires AllReadable(ps) && Document(cap, ps).text == "{" + Glued(ps, false) + "}"
    ensures ReadObject(Document(cap, ps).text) == Got(Meanings(ps), "")
  {
    hide Document, Glued, Join, ReadObject, Whole, Render, Meaning, ValidValue;
    GluedIsJoin(ps);
    forall i | 0 <= i < |Meanings(ps)| ensures ValidValue(Meanings(ps)[i].value) { assert Readable(ps[i]); }
    ObjectRoundTrip(Meanings(ps));
  }

  // --- Pieces ---

  lemma FieldReadable(f: Field)
    requires Plain(f.key) && ValidValue(MemberOf(f).value)
    ensures Readable(Write(f))
  {
    hide Escape, ValidValue;
    PlainEscape(f.key);
  }

  lemma ListReadable(name: string, elems: seq<string>)
    requires Plain(name)
    ensures Readable(List(name, elems))
  {
    hide Escape, Quoted;
    PlainEscape(name);
    assert "\"" + name + "\":[" + Quoted(elems) + "]" == "\"" + name + "\":" + ("[" + Quoted(elems) + "]");
  }

  lemma LiteralsReadable()
    ensures Readable(Literal(FOOTER)) && Readable(Literal(NO_FOOTER))
  {
    hide Escape;
    assert Plain("show_footer");
    PlainEscape("show_footer");
    assert FOOTER == "\"" + "show_footer" + "\":" + "true";
    assert NO_FOOTER == "\"" + "show_footer" + "\":" + "false";
  }

  lemma NameReadable(name: string, s: Shown)
    requires name == "charts" || name == "cards"
    ensures Readable(NamePiece(name, s))
  {
    hide Escape;
    assert Plain("charts") && Plain("cards");
    PlainEscape(name);
    if s.Only? {
      ListReadable(name, s.names);
    } else {
      EmptyList();
      assert "charts"[1] == 'h' && "cards"[1] == 'a';
      LiteralNames(name);
    }
  }

  lemma EmptyList()
    ensures Quoted([]) == ""
  {}

  lemma LiteralNames(name: string)
    requires name == "charts" || name == "cards"
    ensures Meaning(Literal("\"" + name + "\":null")) == Member(name, Null)
    ensures Meaning(Literal("\"" + name + "\":[]")) == Member(name, Strings([]))
  {
    var a, b := "\"" + name + "\":null", "\"" + name + "\":[]";
    assert a[1] == 'c' && b[1] == 'c' && FOOTER[1] == 's' && NO_FOOTER[1] == 's';
    if name == "charts" {
      assert a == "\"charts\":null" && b == "\"charts\":[]";
    } else {
      assert a == "\"cards\":null" && b == "\"cards\":[]";
    }
    assert "\"charts\":null"[3] == 'a' && "\"charts\":[]"[3] == 'a' && "\"cards\":null"[3] == 'r' && "\"cards\":[]"[3] == 'r';
    assert |"\"charts\":null"| == 13 && |"\"charts\":[]"| == 11 && |"\"cards\":null"| == 12 && |"\"cards\":[]"| == 10;
  }

  // --- Value fields ---

  lemma ValueReadable(tok: Tokens, valid: bool, key: string)
    requires ShortTokens(tok) && Plain(key)
    ensures Readable(ValueIf(tok, valid, key))
  {
    hide Readable, Plain, IsNumber;
    if valid { FieldReadable(RealField(key, tok(key))); } else { FieldReadable(NullField(key)); }
  }

  predicate PlainKeys(k: Keys) {
    && |k.load| == |k.cpu| == 3 && |k.memory| == |k.swap| == |k.swapIo| == |k.disk| == |k.net| == 2
    && (forall i :: 0 <= i < 3 ==> Plain(k.load[i]) && Plain(k.cpu[i]))
    && (forall i :: 0 <= i < 2 ==> Plain(k.memory[i]) && Plain(k.swap[i]) && Plain(k.swapIo[i]) && Plain(k.disk[i]) && Plain(k.net[i]))
    && Plain(k.temp)
  }

  lemma ThreeReadable(shown: bool, tok: Tokens, valid: bool, a: string, b: string, c: string)
    requires ShortTokens(tok) && Plain(a) && Plain(b) && Plain(c)
    ensures AllReadable(When(shown, Three(tok, valid, a, b, c)))
  {
    hide Readable, Plain, ShortTokens, ValueIf;
    ValueReadable(tok, valid, a);
    ValueReadable(tok, valid, b);
    ValueReadable(tok, valid, c);
  }

  lemma SizedReadable(shown: bool, tok: Tokens, valid: bool, pct: bool, a: string, b: string)
    requires ShortTokens(tok) && Plain(a) && Plain(b)
    ensures AllReadable(When(shown, Sized(tok, valid, pct, a, b))) && AllReadable(When(shown, Two(tok, valid, a, b)))
    ensures AllReadable(When(shown, [ValueIf(tok, valid, a)]))
  {
    hide Readable, Plain, ShortTokens, ValueIf;
    ValueReadable(tok, valid, a);
    ValueReadable(tok, valid, b);
  }

  lemma GroupsReadable(k: Keys, shown: Shown, pct: Percent, row: Flags, tok: Tokens)
    requires KeysFit(k, 18) && PlainKeys(k) && ShortTokens(tok)
    ensures AllReadable(Groups(k, shown, pct, row, tok))
  {
    hide AllReadable, Plain, ShortTokens, Three, Two, Sized, When, Has, ValueIf;
    ThreeReadable(Has(shown, "cpu_load"), tok, true, k.load[0], k.load[1], k.load[2]);
    ThreeReadable(Has(shown, "cpu_usage"), tok, row.cpu, k.cpu[0], k.cpu[1], k.cpu[2]);
    SizedReadable(Has(shown, "memory"), tok, true, pct.memory, k.memory[0], k.memory[1]);
    SizedReadable(Has(shown, "swap"), tok, row.swap, pct.swap, k.swap[0], k.swap[1]);
    SizedReadable(Has(shown, "swap_io"), tok, row.swapIo, true, k.swapIo[0], k.swapIo[1]);
    SizedReadable(Has(shown, "disk"), tok, true, pct.disk, k.disk[0], k.disk[1]);
    SizedReadable(Has(shown, "temp"), tok, row.temp, true, k.temp, k.temp);
    SizedReadable(Has(shown, "net"), tok, row.net, true, k.net[0], k.net[1]);
    FourReadable(When(Has(shown, "cpu_load"), Three(tok, true, k.load[0], k.load[1], k.load[2])),
                 When(Has(shown, "cpu_usage"), Three(tok, row.cpu, k.cpu[0], k.cpu[1], k.cpu[2])),
                 When(Has(shown, "memory"), Sized(tok, true, pct.memory, k.memory[0], k.memory[1])),
                 When(Has(shown, "swap"), Sized(tok, row.swap, pct.swap, k.swap[0], k.swap[1])));
    FourReadable(When(Has(shown, "swap_io"), Two(tok, row.swapIo, k.swapIo[0], k.swapIo[1])),
                 When(Has(shown, "disk"), Sized(tok, true, pct.disk, k.disk[0], k.disk[1])),
                 When(Has(shown, "temp"), [ValueIf(tok, row.temp, k.temp)]),
                 When(Has(shown, "net"), Two(tok, row.net, k.net[0], k.net[1])));
    ReadableAdds(LoadToSwap(k, shown, pct, row, tok), SwapIoToNet(k, shown, pct, row, tok));
  }

  lemma FourReadable(a: seq<Piece>, b: seq<Piece>, c: seq<Piece>, d: seq<Piece>)
    requires AllReadable(a) && AllReadable(b) && AllReadable(c) && AllReadable(d)
    ensures AllReadable(a + b + c + d)
  {
    hide AllReadable;
    ReadableAdds(a, b);
    ReadableAdds(a + b, c);
    ReadableAdds(a + b + c, d);
  }

  // --- The members, key by key ---

  /** What a value is sent as: null when its group is not valid or the number is not finite. */
  function Sent(valid: bool, token: Rows.Option<string>): Value {
    if valid && token.Some? then Num(token.value) else Null
  }

  /** The members of a group that is shown; of one that is not, none. */
  function SentThree(shown: bool, tok: Tokens, valid: bool, a: string, b: string, c: string): seq<Member> {
    if shown then [Member(a, Sent(valid, tok(a))), Member(b, Sent(valid, tok(b))), Member(c, Sent(valid, tok(c)))] else []
  }

  function SentTwo(shown: bool, tok: Tokens, valid: bool, a: string, b: string): seq<Member> {
    if shown then [Member(a, Sent(valid, tok(a))), Member(b, Sent(valid, tok(b)))] else []
  }

  function SentOne(shown: bool, tok: Tokens, valid: bool, a: string): seq<Member> {
    if shown then [Member(a, Sent(valid, tok(a)))] else []
  }

  /** In percent the total is not sent. */
  function SentSized(shown: bool, tok: Tokens, valid: bool, pct: bool, share: string, total: string): seq<Member> {
    if shown && pct then [Member(share, Sent(valid, tok(share)))]
    else if shown then [Member(share, Sent(valid, tok(share))), Member(total, Sent(valid, tok(total)))]
    else []
  }

  /** The members of a point: every key of each chart shown. */
  function PointMembers(t: string, charts: Shown, pct: Percent, row: Flags, tok: Tokens): seq<Member> {
    [Member("t", Num(t))]
    + ((SentThree(Has(charts, "cpu_load"), tok, true, "l1", "l5", "l15")
        + SentThree(Has(charts, "cpu_usage"), tok, row.cpu, "cu", "cs", "ci")
        + SentSized(Has(charts, "memory"), tok, true, pct.memory, "ma", "mt")
        + SentSized(Has(charts, "swap"), tok, row.swap, pct.swap, "sf", "st"))
       + (SentTwo(Has(charts, "swap_io"), tok, row.swapIo, "si", "so")
          + SentSized(Has(charts, "disk"), tok, true, pct.disk, "da", "dt")
          + SentOne(Has(charts, "temp"), tok, row.temp, "tp")
          + SentTwo(Has(charts, "net"), tok, row.net, "nr", "nt")))
    + SentOne(true, tok, true, "up")
  }

  /** The values of the current document: every key of each card shown. */
  function ValueMembers(cards: Shown, timestamp: string, pct: Percent, row: Flags, tok: Tokens): seq<Member> {
    [Member("timestamp", Str(timestamp))]
    + ((SentThree(Has(cards, "cpu_load"), tok, true, "load_1m", "load_5m", "load_15m")
        + SentThree(Has(cards, "cpu_usage"), tok, row.cpu, "cpu_user_percent", "cpu_system_percent", "cpu_idle_percent")
        + SentSized(Has(cards, "memory"), tok, true, pct.memory, "mem_available", "mem_total")
        + SentSized(Has(cards, "swap"), tok, row.swap, pct.swap, "swap_free", "swap_total"))
       + (SentTwo(Has(cards, "swap_io"), tok, row.swapIo, "swap_in", "swap_out")
          + SentSized(Has(cards, "disk"), tok, true, pct.disk, "disk_available", "disk_total")
          + SentOne(Has(cards, "temp"), tok, row.temp, "temp")
          + SentTwo(Has(cards, "net"), tok, row.net, "net_rx", "net_tx")))
    + SentOne(Has(cards, "uptime"), tok, true, "uptime_seconds")
  }

  /** The settings a dashboard reads from the current document: the fourteen units, */
  function UnitMembers(units: seq<string>): seq<Member>
    requires |units| == 14
  {
    [Member("mem_card_unit", Str(units[0])), Member("mem_chart_unit", Str(units[1])),
     Member("swap_card_unit", Str(units[2])), Member("swap_chart_unit", Str(units[3])),
     Member("swap_io_card_unit", Str(units[4])), Member("swap_io_chart_unit", Str(units[5])),
     Member("disk_card_unit", Str(units[6])), Member("disk_chart_unit", Str(units[7])),
     Member("temp_card_unit", Str(units[8])), Member("temp_chart_unit", Str(units[9])),
     Member("net_card_unit", Str(units[10])), Member("net_chart_unit", Str(units[11])),
     Member("cpu_load_card_unit", Str(units[12])), Member("cpu_load_chart_unit", Str(units[13]))]
  }

  /** the texts, */
  function TextMembers(c: Settings): seq<Member> {
    [Member("title", Str(c.title)), Member("theme", Str(c.theme)), Member("show_footer", Bool(c.footer)),
     Member("uptime_unit", Str(c.uptimeUnit))]
  }

  /** and the lists. */
  function ListMembers(c: Settings): seq<Member> {
    [Member("ranges", Strings(c.ranges)), Member("charts", NamesSent(c.charts)), Member("cards", NamesSent(c.cards))]
  }

  /** null for everything, else the names. */
  function NamesSent(s: Shown): Value {
    match s
    case All => Null
    case Nothing => Strings([])
    case Only(names) => Strings(names)
  }

  function PairIf(shown: bool, key: string, pairs: Pairs): seq<Member> {
    if shown then [Member(key, Pair(pairs(key).0, pairs(key).1))] else []
  }

  /** The thresholds of the cards shown. */
  function ThresholdMembers(cards: Shown, pairs: Pairs): seq<Member> {
    PairIf(Has(cards, "cpu_load"), "thresh_load", pairs) + PairIf(Has(cards, "cpu_usage"), "thresh_cpu", pairs)
    + PairIf(Has(cards, "memory"), "thresh_mem", pairs) + PairIf(Has(cards, "swap"), "thresh_swap", pairs)
    + PairIf(Has(cards, "swap_io"), "thresh_swap_io", pairs) + PairIf(Has(cards, "disk"), "thresh_disk", pairs)
    + PairIf(Has(cards, "temp"), "thresh_temp", pairs) + PairIf(Has(cards, "net"), "thresh_net", pairs)
  }

  function CurrentMembers(c: Settings, timestamp: string, row: Flags, tok: Tokens, pairs: Pairs): seq<Member>
    requires |c.units| == 14
  {
    ValueMembers(c.cards, timestamp, c.pct, row, tok) + (UnitMembers(c.units) + TextMembers(c)) + ListMembers(c)
    + ThresholdMembers(c.cards, pairs)
  }

  lemma MeaningsAdd(a: seq<Piece>, b: seq<Piece>)
    ensures Meanings(a + b) == Meanings(a) + Meanings(b)
  {
    hide Meaning;
  }

  lemma FourMeanings(a: seq<Piece>, b: seq<Piece>, c: seq<Piece>, d: seq<Piece>)
    ensures Meanings(a + b + c + d) == Meanings(a) + Meanings(b) + Meanings(c) + Meanings(d)
  {
    hide Meanings;
    MeaningsAdd(a, b);
    MeaningsAdd(a + b, c);
    MeaningsAdd(a + b + c, d);
  }

  lemma ThreeMeanings(shown: bool, tok: Tokens, valid: bool, a: string, b: string, c: string)
    ensures Meanings(When(shown, Three(tok, valid, a, b, c))) == SentThree(shown, tok, valid, a, b, c)
  {}

  lemma SizedMeanings(shown: bool, tok: Tokens, valid: bool, pct: bool, a: string, b: string)
    ensures Meanings(When(shown, Sized(tok, valid, pct, a, b))) == SentSized(shown, tok, valid, pct, a, b)
    ensures Meanings(When(shown, Two(tok, valid, a, b))) == SentTwo(shown, tok, valid, a, b)
    ensures Meanings(When(shown, [ValueIf(tok, valid, a)])) == SentOne(shown, tok, valid, a)
  {}

  /** The groups of either document, under its keys. */
  lemma GroupsMean(k: Keys, shown: Shown, pct: Percent, row: Flags, tok: Tokens)
    requires KeysFit(k, 18)
    ensures Meanings(Groups(k, shown, pct, row, tok))
            == (SentThree(Has(shown, "cpu_load"), tok, true, k.load[0], k.load[1], k.load[2])
                + SentThree(Has(shown, "cpu_usage"), tok, row.cpu, k.cpu[0], k.cpu[1], k.cpu[2])
                + SentSized(Has(shown, "memory"), tok, true, pct.memory, k.memory[0], k.memory[1])
                + SentSized(Has(shown, "swap"), tok, row.swap, pct.swap, k.swap[0], k.swap[1]))
               + (SentTwo(Has(shown, "swap_io"), tok, row.swapIo, k.swapIo[0], k.swapIo[1])
                  + SentSized(Has(shown, "disk"), tok, true, pct.disk, k.disk[0], k.disk[1])
                  + SentOne(Has(shown, "temp"), tok, row.temp, k.temp)
                  + SentTwo(Has(shown, "net"), tok, row.net, k.net[0], k.net[1]))
  {
    hide Meanings, Three, Two, Sized, When, Has, ValueIf, SentThree, SentTwo, SentSized, SentOne;
    ThreeMeanings(Has(shown, "cpu_load"), tok, true, k.load[0], k.load[1], k.load[2]);
    ThreeMeanings(Has(shown, "cpu_usage"), tok, row.cpu, k.cpu[0], k.cpu[1], k.cpu[2]);
    SizedMeanings(Has(shown, "memory"), tok, true, pct.memory, k.memory[0], k.memory[1]);
    SizedMeanings(Has(shown, "swap"), tok, row.swap, pct.swap, k.swap[0], k.swap[1]);
    SizedMeanings(Has(shown, "swap_io"), tok, row.swapIo, true, k.swapIo[0], k.swapIo[1]);
    SizedMeanings(Has(shown, "disk"), tok, true, pct.disk, k.disk[0], k.disk[1]);
    SizedMeanings(Has(shown, "temp"), tok, row.temp, true, k.temp, k.temp);
    SizedMeanings(Has(shown, "net"), tok, row.net, true, k.net[0], k.net[1]);
    FourMeanings(When(Has(shown, "cpu_load"), Three(tok, true, k.load[0], k.load[1], k.load[2])),
                 When(Has(shown, "cpu_usage"), Three(tok, row.cpu, k.cpu[0], k.cpu[1], k.cpu[2])),
                 When(Has(shown, "memory"), Sized(tok, true, pct.memory, k.memory[0], k.memory[1])),
                 When(Has(shown, "swap"), Sized(tok, row.swap, pct.swap, k.swap[0], k.swap[1])));
    FourMeanings(When(Has(shown, "swap_io"), Two(tok, row.swapIo, k.swapIo[0], k.swapIo[1])),
                 When(Has(shown, "disk"), Sized(tok, true, pct.disk, k.disk[0], k.disk[1])),
                 When(Has(shown, "temp"), [ValueIf(tok, row.temp, k.temp)]),
                 When(Has(shown, "net"), Two(tok, row.net, k.net[0], k.net[1])));
    MeaningsAdd(LoadToSwap(k, shown, pct, row, tok), SwapIoToNet(k, shown, pct, row, tok));
  }

  lemma PointMeans(t: string, charts: Shown, pct: Percent, row: Flags, tok: Tokens)
    ensures Meanings(Point(t, charts, pct, row, tok)) == PointMembers(t, charts, pct, row, tok)
  {
    hide Meanings, Groups, Has, Sent, SentThree, SentTwo, SentOne, SentSized, ValueIf, JsonSizes.Value;
    var head, groups, last := [Write(LongField("t", t))], Groups(POINT_KEYS, charts, pct, row, tok), [JsonSizes.Value(tok, "up")];
    GroupsMean(POINT_KEYS, charts, pct, row, tok);
    MeaningsAdd(head, groups);
    MeaningsAdd(head + groups, last);
    OneMeans(head[0]);
    SizedMeanings(true, tok, true, true, "up", "up");
    ValueAlways(tok, "up");
  }

  lemma OneMeans(p: Piece)
    ensures Meanings([p]) == [Meaning(p)]
  {}

  lemma ValueAlways(tok: Tokens, key: string)
    ensures JsonSizes.Value(tok, key) == ValueIf(tok, true, key)
  {}

  lemma ValuesMean(c: Settings, timestamp: string, row: Flags, tok: Tokens)
    ensures Meanings(Values(c, timestamp, row, tok)) == ValueMembers(c.cards, timestamp, c.pct, row, tok)
  {
    hide Meanings, Groups, Has, Sent, SentThree, SentTwo, SentOne, SentSized, ValueIf, JsonSizes.Value;
    var stamp, groups := [Write(StrField("timestamp", timestamp))], Groups(CURRENT_KEYS, c.cards, c.pct, row, tok);
    var up := When(Has(c.cards, "uptime"), [JsonSizes.Value(tok, "uptime_seconds")]);
    GroupsMean(CURRENT_KEYS, c.cards, c.pct, row, tok);
    MeaningsAdd(stamp, groups);
    MeaningsAdd(stamp + groups, up);
    OneMeans(stamp[0]);
    SizedMeanings(Has(c.cards, "uptime"), tok, true, true, "uptime_seconds", "uptime_seconds");
    ValueAlways(tok, "uptime_seconds");
  }

  lemma UnitsMean(units: seq<string>)
    requires |units| == 14
    ensures Meanings(UnitPieces(units)) == UnitMembers(units)
  {
    forall i | 0 <= i < 14 ensures Meanings(UnitPieces(units))[i] == UnitMembers(units)[i] {
      assert UnitMembers(units)[i] == Member(UNIT_KEYS[i], Str(units[i]));
    }
  }

  lemma TextsMean(c: Settings)
    requires |c.units| == 14
    ensures Meanings(Texts(c)) == UnitMembers(c.units) + TextMembers(c)
  {
    hide Meaning, UnitPieces, UnitMembers;
    var title, theme, footer := Write(StrField("title", c.title)), Write(StrField("theme", c.theme)), FooterPiece(c.footer);
    var texts := [title, theme, footer, Write(StrField("uptime_unit", c.uptimeUnit))];
    UnitsMean(c.units);
    FooterMeans(c.footer);
    StringMeans("title", c.title);
    StringMeans("theme", c.theme);
    StringMeans("uptime_unit", c.uptimeUnit);
    MeaningsAdd(UnitPieces(c.units), texts);
  }

  function FooterPiece(footer: bool): Piece {
    Literal(if footer then "\"show_footer\":true" else "\"show_footer\":false")
  }

  lemma StringMeans(key: string, val: string)
    ensures Meaning(Write(StrField(key, val))) == Member(key, Str(val))
  {}

  lemma FooterMeans(footer: bool)
    ensures Meaning(FooterPiece(footer)) == Member("show_footer", Bool(footer))
  {
    assert |FOOTER| != |NO_FOOTER|;
  }

  lemma ListsMean(c: Settings)
    ensures Meanings(Lists(c)) == ListMembers(c)
  {
    NamesMean("charts", c.charts);
    NamesMean("cards", c.cards);
  }

  lemma NamesMean(name: string, s: Shown)
    requires name == "charts" || name == "cards"
    ensures Meaning(NamePiece(name, s)) == Member(name, NamesSent(s))
  {
    hide Meaning;
    if s.Only? { ListMeans(name, s.names); } else { LiteralNames(name); }
  }

  lemma ListMeans(name: string, elems: seq<string>)
    ensures Meaning(List(name, elems)) == Member(name, Strings(elems))
  {}

  lemma ThresholdMeans(cards: Shown, pairs: Pairs, n: nat)
    requires 0 < n <= 8
    ensures Meanings(ThresholdPieces(cards, pairs, n))
            == Meanings(ThresholdPieces(cards, pairs, n - 1)) + PairIf(Has(cards, THRESHOLDS[n - 1].0), THRESHOLDS[n - 1].1, pairs)
  {
    hide Meanings, Has;
    var (card, key) := THRESHOLDS[n - 1];
    var last := Write(PairField(key, pairs(key).0, pairs(key).1));
    MeaningsAdd(ThresholdPieces(cards, pairs, n - 1), When(Has(cards, card), [last]));
    OneMeans(last);
    NothingMeans();
  }

  lemma NothingMeans()
    ensures Meanings([]) == []
  {}

  lemma HalfThresholdsMean(cards: Shown, pairs: Pairs)
    ensures Meanings(ThresholdPieces(cards, pairs, 4))
            == PairIf(Has(cards, "cpu_load"), "thresh_load", pairs) + PairIf(Has(cards, "cpu_usage"), "thresh_cpu", pairs)
               + PairIf(Has(cards, "memory"), "thresh_mem", pairs) + PairIf(Has(cards, "swap"), "thresh_swap", pairs)
  {
    hide Meanings, Has, PairIf, ThresholdPieces;
    assert ThresholdPieces(cards, pairs, 0) == [] by { NoThresholds(cards, pairs); }
    NothingMeans();
    ThresholdMeans(cards, pairs, 1);
    ThresholdMeans(cards, pairs, 2);
    ThresholdMeans(cards, pairs, 3);
    ThresholdMeans(cards, pairs, 4);
  }

  lemma ThresholdsMean(cards: Shown, pairs: Pairs)
    ensures Meanings(ThresholdPieces(cards, pairs, 8)) == ThresholdMembers(cards, pairs)
  {
    hide Meanings, Has, PairIf, ThresholdPieces;
    HalfThresholdsMean(cards, pairs);
    ThresholdMeans(cards, pairs, 5);
    ThresholdMeans(cards, pairs, 6);
    ThresholdMeans(cards, pairs, 7);
    ThresholdMeans(cards, pairs, 8);
  }

  lemma NoThresholds(cards: Shown, pairs: Pairs)
    ensures ThresholdPieces(cards, pairs, 0) == []
  {}

  /** The pieces of the current document stand for those members, in that order. */
  lemma CurrentMeans(c: Settings, timestamp: string, row: Flags, tok: Tokens, pairs: Pairs)
    requires |c.units| == 14
    ensures Meanings(Current(c, timestamp, row, tok, pairs)) == CurrentMembers(c, timestamp, row, tok, pairs)
  {
    hide Meanings, Values, Texts, Lists, ThresholdPieces, ValueMembers, UnitMembers, TextMembers, ListMembers, ThresholdMembers;
    ValuesMean(c, timestamp, row, tok);
    TextsMean(c);
    ListsMean(c);
    ThresholdsMean(c.cards, pairs);
    FourMeanings(Values(c, timestamp, row, tok), Texts(c), Lists(c), ThresholdPieces(c.cards, pairs, 8));
  }

  // --- /api/metrics points ---

  lemma PointKeysPlain()
    ensures PlainKeys(POINT_KEYS) && Plain("t") && Plain("up")
  {}

  /** Every point is read back: whatever is configured and whatever the row holds. */
  lemma PointReads(t: string, charts: Shown, pct: Percent, row: Flags, tok: Tokens)
    requires |t| <= 20 && IsNumber(t) && ShortTokens(tok)
    ensures var ps := Point(t, charts, pct, row, tok);
            ReadObject(Document(POINT_CAP, ps).text) == Got(Meanings(ps), "")
  {
    hide Groups, Document, Glued, AllReadable, Readable, ReadObject, Meanings, IsNumber, ShortTokens, Plain;
    PointKeysPlain();
    GroupsWidth(POINT_KEYS, 3, charts, pct, row, tok);
    GroupsReadable(POINT_KEYS, charts, pct, row, tok);
    FieldReadable(LongField("t", t));
    ValueReadable(tok, true, "up");
    var head, groups, last := [Write(LongField("t", t))], Groups(POINT_KEYS, charts, pct, row, tok), [JsonSizes.Value(tok, "up")];
    OneReadable(head[0]);
    OneReadable(last[0]);
    ReadableAdds(head, groups);
    ReadableAdds(head + groups, last);
    PointFits(t, charts, pct, row, tok);
    DocumentReads(POINT_CAP, Point(t, charts, pct, row, tok));
  }

  lemma OneReadable(p: Piece)
    requires Readable(p)
    ensures AllReadable([p])
  {
    hide Readable;
  }

  // --- /api/current ---

  lemma LoadKeysPlain()
    ensures Plain("load_1m") && Plain("load_5m") && Plain("load_15m")
    ensures Plain("cpu_user_percent") && Plain("cpu_system_percent") && Plain("cpu_idle_percent")
    ensures Plain("temp") && Plain("uptime_seconds")
  {}

  lemma SizeKeysPlain()
    ensures Plain("mem_available") && Plain("mem_total") && Plain("swap_free") && Plain("swap_total")
    ensures Plain("swap_in") && Plain("swap_out") && Plain("disk_available") && Plain("disk_total")
    ensures Plain("net_rx") && Plain("net_tx")
  {}

  lemma CurrentKeysPlain()
    ensures PlainKeys(CURRENT_KEYS)
  {
    hide Plain;
    LoadKeysPlain();
    SizeKeysPlain();
  }

  lemma ThresholdKeyPlain(i: nat)
    requires i < 8
    ensures Plain(THRESHOLDS[i].1)
  {}

  /** The %.6g texts are numbers. */
  ghost predicate NumberPairs(pairs: Pairs) {
    forall k :: IsNumber(pairs(k).0) && IsNumber(pairs(k).1)
  }

  lemma {:induction false} ThresholdsReadable(cards: Shown, pairs: Pairs, n: nat)
    requires n <= 8 && NumberPairs(pairs)
    ensures AllReadable(ThresholdPieces(cards, pairs, n))
  {
    hide Readable, Has, IsNumber, Plain;
    if n > 0 {
      ThresholdsReadable(cards, pairs, n - 1);
      var (card, key) := THRESHOLDS[n - 1];
      ThresholdKeyPlain(n - 1);
      FieldReadable(PairField(key, pairs(key).0, pairs(key).1));
      var last := When(Has(cards, card), [Write(PairField(key, pairs(key).0, pairs(key).1))]);
      assert AllReadable(last);
      ReadableAdds(ThresholdPieces(cards, pairs, n - 1), last);
    }
  }

  lemma ValuesReadable(c: Settings, timestamp: string, row: Flags, tok: Tokens)
    requires ShortTokens(tok)
    ensures AllReadable(Values(c, timestamp, row, tok))
  {
    hide Groups, AllReadable, Readable, ShortTokens, Plain, Has;
    KeysArePlain();
    CurrentKeysPlain();
    LoadKeysPlain();
    GroupsWidth(CURRENT_KEYS, 18, c.cards, c.pct, row, tok);
    GroupsReadable(CURRENT_KEYS, c.cards, c.pct, row, tok);
    FieldReadable(StrField("timestamp", timestamp));
    SizedReadable(Has(c.cards, "uptime"), tok, true, true, "uptime_seconds", "uptime_seconds");
    var stamp, groups := [Write(StrField("timestamp", timestamp))], Groups(CURRENT_KEYS, c.cards, c.pct, row, tok);
    OneReadable(stamp[0]);
    ReadableAdds(stamp, groups);
    ReadableAdds(stamp + groups, When(Has(c.cards, "uptime"), [JsonSizes.Value(tok, "uptime_seconds")]));
  }

  lemma TextsReadable(c: Settings)
    requires |c.units| == 14
    ensures AllReadable(Texts(c))
  {
    hide Readable, Plain;
    KeysArePlain();
    LiteralsReadable();
    forall i | 0 <= i < 14 ensures Readable(UnitPieces(c.units)[i]) {
      assert Word(UNIT_KEYS[i], 19);
      FieldReadable(StrField(UNIT_KEYS[i], c.units[i]));
    }
    FieldReadable(StrField("title", c.title));
    FieldReadable(StrField("theme", c.theme));
    FieldReadable(StrField("uptime_unit", c.uptimeUnit));
  }

  lemma ListsReadable(c: Settings)
    ensures AllReadable(Lists(c))
  {
    hide Readable;
    assert Plain("ranges");
    ListReadable("ranges", c.ranges);
    NameReadable("charts", c.charts);
    NameReadable("cards", c.cards);
  }

  /** The current document is read back: for every configuration that loads and every row, a client gets
      every key with its value, in order, and every element of every list. */
  lemma CurrentReads(c: Settings, timestamp: string, row: Flags, tok: Tokens, pairs: Pairs)
    requires Loaded(c) && |timestamp| <= 23 && ShortTokens(tok) && ShortPairs(pairs) && NumberPairs(pairs)
    ensures var ps := Current(c, timestamp, row, tok, pairs);
            ReadObject(Document(CURRENT_CAP, ps).text) == Got(Meanings(ps), "")
  {
    hide Values, Texts, Lists, ThresholdPieces, Document, Glued, AllReadable, ReadObject, Meanings, ShortTokens, ShortPairs,
         NumberPairs, Loaded;
    assert |c.units| == 14 by { UnitsLoaded(c); }
    ValuesReadable(c, timestamp, row, tok);
    TextsReadable(c);
    ListsReadable(c);
    ThresholdsReadable(c.cards, pairs, 8);
    FourReadable(Values(c, timestamp, row, tok), Texts(c), Lists(c), ThresholdPieces(c.cards, pairs, 8));
    CurrentFits(c, timestamp, row, tok, pairs);
    DocumentReads(CURRENT_CAP, Current(c, timestamp, row, tok, pairs));
  }

  lemma UnitsLoaded(c: Settings)
    requires Loaded(c)
    ensures |c.units| == 14
  {}

  // --- Through the buffer ---

  method WriteElements(j: JBuf, elems: seq<string>)
    requires j.Valid()
    modifies j, j.buf
    ensures j.Valid() && j.Contents() == PutElements(old(j.Contents()), elems).0
  {
    hide PutElement;
    var emitted := false;
    NoElements(j.Contents());
    assert elems[..0] == [];
    for i := 0 to |elems|
      invariant j.Valid() && (j.Contents(), emitted) == PutElements(old(j.Contents()), elems[..i])
    {
      assert elems[..i + 1][..i] == elems[..i];
      emitted := j.Element(elems[i], emitted);
    }
    assert elems[..|elems|] == elems;
  }

  lemma NoElements(d: Doc)
    ensures PutElements(d, []) == (d, false)
  {}

  method WritePiece(j: JBuf, p: Piece)
    requires j.Valid()
    modifies j, j.buf
    ensures j.Valid() && j.Contents() == PutPiece(old(j.Contents()), p)
  {
    hide Put, PutRaw, PutSep, PutElements;
    match p {
      case Write(f) => j.Write(f);
      case Literal(text) =>
        j.Sep();
        j.Raw(text);
      case List(name, elems) =>
        j.Sep();
        j.Raw("\"" + name + "\":[");
        WriteElements(j, elems);
        j.Raw("]");
    }
  }

  method WritePieces(j: JBuf, ps: seq<Piece>)
    requires j.Valid()
    modifies j, j.buf
    ensures j.Valid() && j.Contents() == PutPieces(old(j.Contents()), ps)
  {
    hide PutPiece;
    assert ps[..0] == [];
    for i := 0 to |ps|
      invariant j.Valid() && j.Contents() == PutPieces(old(j.Contents()), ps[..i])
    {
      assert ps[..i + 1][..i] == ps[..i];
      WritePiece(j, ps[i]);
    }
    assert ps[..|ps|] == ps;
  }

  method WriteDocument(j: JBuf, ps: seq<Piece>)
    requires j.Valid() && j.Contents() == Doc("", j.buf.Length, false, false)
    modifies j, j.buf
    ensures j.Valid() && j.Contents() == Document(j.buf.Length, ps)
  {
    hide PutPieces, PutBegin, PutEnd;
    j.Begin();
    WritePieces(j, ps);
    j.End();
  }

  /** `json_serialize_current` into its buffer: a reader of the buffer gets the document back. */
  method SerializeCurrent(j: JBuf, c: Settings, timestamp: string, row: Flags, tok: Tokens, pairs: Pairs)
    requires j.Valid() && j.Contents() == Doc("", 4096, false, false)
    requires Loaded(c) && |timestamp| <= 23 && ShortTokens(tok) && ShortPairs(pairs) && NumberPairs(pairs)
    modifies j, j.buf
    ensures j.Valid() && !j.overflow
    ensures ReadObject(j.buf[..j.pos]) == Got(CurrentMembers(c, timestamp, row, tok, pairs), "")
  {
    hide Document, Current, CurrentMembers, Meanings, ReadObject, Loaded, ShortTokens, ShortPairs, NumberPairs;
    UnitsLoaded(c);
    CurrentFits(c, timestamp, row, tok, pairs);
    CurrentReads(c, timestamp, row, tok, pairs);
    CurrentMeans(c, timestamp, row, tok, pairs);
    WriteDocument(j, Current(c, timestamp, row, tok, pairs));
  }

  /** `json_serialize_point` into its buffer. */
  method SerializePoint(j: JBuf, t: string, charts: Shown, pct: Percent, row: Flags, tok: Tokens)
    requires j.Valid() && j.Contents() == Doc("", 512, false, false)
    requires |t| <= 20 && IsNumber(t) && ShortTokens(tok)
    modifies j, j.buf
    ensures j.Valid() && !j.overflow
    ensures ReadObject(j.buf[..j.pos]) == Got(PointMembers(t, charts, pct, row, tok), "")
  {
    hide Document, Point, PointMembers, Meanings, ReadObject, ShortTokens, IsNumber;
    PointFits(t, charts, pct, row, tok);
    PointReads(t, charts, pct, row, tok);
    PointMeans(t, charts, pct, row, tok);
    WriteDocument(j, Point(t, charts, pct, row, tok));
  }

  // --- The units ---

  /** A unit as it is read: its name and the members of its object. */
  datatype Unit = Unit(name: string, members: seq<Member>)

  function ReadUnit(s: string): (r: Read<Unit>)
    ensures r.Got? ==> |r.rest| < |s|
  {
    if s == "" || s[0] != '"' then Fail
    else match ReadString(s[1..])
         case Fail => Fail
         case Got(name, rest) =>
           if |rest| < 2 || rest[..2] != ":{" then Fail
           else match ReadMembers(rest[2..])
                case Fail => Fail
                case Got(ms, after) => Got(Unit(name, ms), after)
  }

  function ReadUnitList(s: string): (r: Read<seq<Unit>>)
    ensures r.Got? ==> |r.rest| < |s|
    decreases |s|
  {
    match ReadUnit(s)
    case Fail => Fail
    case Got(u, rest) =>
      if rest == "" then Fail
      else if rest[0] == '}' then Got([u], rest[1..])
      else if rest[0] != ',' then Fail
      else match ReadUnitList(rest[1..])
           case Fail => Fail
           case Got(us, after) => Got([u] + us, after)
  }

  /** The member `units`: an object of objects. */
  function ReadUnits(s: string): Read<seq<Unit>> {
    if |s| < 10 || s[..9] != "\"units\":{" then Fail
    else if s[9] == '}' then Got([], s[10..])
    else ReadUnitList(s[9..])
  }

  /** The piece is printed as that unit. */
  ghost predicate ReadsAs(p: Piece, u: Unit) {
    && u.members != [] && (forall i :: 0 <= i < |u.members| ==> ValidValue(u.members[i].value))
    && Escape(u.name) == u.name
    && Whole(p) == "\"" + u.name + "\":{" + Join(u.members) + "}"
  }

  lemma UnitRoundTrip(p: Piece, u: Unit, rest: string)
    requires ReadsAs(p, u)
    ensures ReadUnit(Whole(p) + rest) == Got(u, rest) && Whole(p) != "" && Whole(p)[0] == '"'
  {
    hide Escape, Join, ReadString, ReadMembers, ValidValue, Whole;
    var inner := Join(u.members) + "}" + rest;
    EscapeRoundTrip(u.name, ":{" + inner);
    MembersRoundTrip(u.members, rest);
    var text := Whole(p) + rest;
    assert text[0] == '"' && text[1..] == Escape(u.name) + "\"" + (":{" + inner);
    assert (":{" + inner)[..2] == ":{" && (":{" + inner)[2..] == inner;
  }

  lemma {:induction false} GluedFront(ps: seq<Piece>)
    requires |ps| > 1
    ensures Glued(ps, false) == Whole(ps[0]) + "," + Glued(ps[1..], false)
  {
    hide Whole;
    var n := |ps| - 1;
    if n == 1 {
      GluedOne(ps[..1]);
      GluedOne(ps[1..]);
    } else {
      GluedFront(ps[..n]);
      assert ps[..n][1..] == ps[1..][..n - 1] && ps[1..][n - 1] == ps[n];
    }
  }

  lemma GluedOne(ps: seq<Piece>)
    requires |ps| == 1
    ensures Glued(ps, false) == Whole(ps[0])
  {
    hide Whole;
    assert ps[..0] == [];
    assert Glued(ps[..0], false) == "";
  }

  lemma {:induction false} UnitListRoundTrip(ps: seq<Piece>, us: seq<Unit>, rest: string)
    requires |ps| == |us| > 0 && forall i :: 0 <= i < |ps| ==> ReadsAs(ps[i], us[i])
    ensures ReadUnitList(Glued(ps, false) + "}" + rest) == Got(us, rest)
    ensures Glued(ps, false) != "" && Glued(ps, false)[0] == '"'
  {
    hide Whole, Glued, ReadUnit, ReadsAs;
    if |ps| == 1 {
      GluedOne(ps);
      UnitRoundTrip(ps[0], us[0], "}" + rest);
      assert Glued(ps, false) + "}" + rest == Whole(ps[0]) + ("}" + rest);
      assert ("}" + rest)[1..] == rest && us == [us[0]];
    } else {
      GluedFront(ps);
      UnitListRoundTrip(ps[1..], us[1..], rest);
      var tail := Glued(ps[1..], false) + "}" + rest;
      UnitRoundTrip(ps[0], us[0], "," + tail);
      assert Glued(ps, false) + "}" + rest == Whole(ps[0]) + ("," + tail);
      assert ("," + tail)[1..] == tail && [us[0]] + us[1..] == us;
    }
  }

  lemma UnitsRoundTrip(ps: seq<Piece>, us: seq<Unit>, rest: string)
    requires |ps| == |us| && forall i :: 0 <= i < |ps| ==> ReadsAs(ps[i], us[i])
    ensures ReadUnits("\"units\":{" + Glued(ps, false) + "}" + rest) == Got(us, rest)
  {
    hide Whole, Glued, ReadUnitList, ReadsAs;
    var text, body := "\"units\":{" + Glued(ps, false) + "}" + rest, Glued(ps, false) + "}" + rest;
    assert text == "\"units\":{" + body;
    assert text[..9] == "\"units\":{" && text[9..] == body && text[9] == body[0] && text[10..] == body[1..];
    if ps == [] {
      NothingGlued();
      assert body == "}" + rest;
    } else {
      UnitListRoundTrip(ps, us, rest);
    }
  }

  lemma NothingGlued()
    ensures Glued([], false) == ""
  {}

  /** What an entry says: the symbol, and what to multiply and divide by. */
  function UnitOf(l: Ladder, step: nat): Unit
    requires step < 3 && |l.symbols| == 3 && l.base <= 1
  {
    Unit(l.key, [Member("sym", Str(l.symbols[step])), Member("mul", Num(if l.bits then "8" else "1")),
                 Member("div", Num(DivText(l.bits, step + l.base)))])
  }

  function UnitIf(shown: bool, l: Ladder, step: int): seq<Unit>
    requires -1 <= step < 3 && |l.symbols| == 3 && l.base <= 1
  {
    if shown && step >= 0 then [UnitOf(l, step)] else []
  }

  /** The units shown, each on its rung. */
  function UnitsShown(r: Rungs): seq<Unit>
    requires ValidRungs(r)
  {
    UnitIf(r.shown[0], LADDERS[0], r.steps[0]) + UnitIf(r.shown[1], LADDERS[1], r.steps[1])
    + UnitIf(r.shown[2], LADDERS[2], r.steps[2]) + UnitIf(r.shown[3], LADDERS[3], r.steps[3])
    + UnitIf(r.shown[4], if r.bits then NET_BITS else NET_BYTES, r.steps[4])
  }

  /** A unit of a chart that has something to show, by the rung it is on. */
  function UnitOn(shown: bool, step: int, name: string, symbols: seq<string>, mul: string, divs: seq<string>): seq<Unit>
    requires -1 <= step < 3 && |symbols| == |divs| == 3
  {
    if shown && step >= 0
    then [Unit(name, [Member("sym", Str(symbols[step])), Member("mul", Num(mul)), Member("div", Num(divs[step]))])]
    else []
  }

  /** The units, number by number: bytes by powers of 1024, bits by powers of 1000 and eight to a byte, rates
      from the first power on. */
  function UnitTable(r: Rungs): seq<Unit>
    requires ValidRungs(r)
  {
    UnitOn(r.shown[0], r.steps[0], "mem", ["MB", "GB", "TB"], "1", ["1", "1024", "1.04858e+06"])
    + UnitOn(r.shown[1], r.steps[1], "swap", ["MB", "GB", "TB"], "1", ["1", "1024", "1.04858e+06"])
    + UnitOn(r.shown[2], r.steps[2], "swap_io", ["KB/s", "MB/s", "GB/s"], "1", ["1024", "1.04858e+06", "1.07374e+09"])
    + UnitOn(r.shown[3], r.steps[3], "disk", ["GB", "TB", "PB"], "1", ["1", "1024", "1.04858e+06"])
    + if r.bits then UnitOn(r.shown[4], r.steps[4], "net", ["Kbps", "Mbps", "Gbps"], "8", ["1000", "1e+06", "1e+09"])
      else UnitOn(r.shown[4], r.steps[4], "net", ["KB/s", "MB/s", "GB/s"], "1", ["1024", "1.04858e+06", "1.07374e+09"])
  }

  lemma LadderUnits(shown: bool, step: int, i: nat)
    requires -1 <= step < 3 && i < 4
    ensures UnitIf(shown, LADDERS[i], step)
            == UnitOn(shown, step, ["mem", "swap", "swap_io", "disk"][i],
                      [["MB", "GB", "TB"], ["MB", "GB", "TB"], ["KB/s", "MB/s", "GB/s"], ["GB", "TB", "PB"]][i], "1",
                      if i == 2 then ["1024", "1.04858e+06", "1.07374e+09"] else ["1", "1024", "1.04858e+06"])
  {}

  lemma NetUnits(shown: bool, step: int)
    requires -1 <= step < 3
    ensures UnitIf(shown, NET_BITS, step)
            == UnitOn(shown, step, "net", ["Kbps", "Mbps", "Gbps"], "8", ["1000", "1e+06", "1e+09"])
    ensures UnitIf(shown, NET_BYTES, step)
            == UnitOn(shown, step, "net", ["KB/s", "MB/s", "GB/s"], "1", ["1024", "1.04858e+06", "1.07374e+09"])
  {}

  lemma UnitsShownAre(r: Rungs)
    requires ValidRungs(r)
    ensures UnitsShown(r) == UnitTable(r)
  {
    hide UnitIf, UnitOn;
    LadderUnits(r.shown[0], r.steps[0], 0);
    LadderUnits(r.shown[1], r.steps[1], 1);
    LadderUnits(r.shown[2], r.steps[2], 2);
    LadderUnits(r.shown[3], r.steps[3], 3);
    NetUnits(r.shown[4], r.steps[4]);
  }

  predicate PlainLadder(l: Ladder) {
    |l.symbols| == 3 && l.base <= 1 && Plain(l.key) && forall i :: 0 <= i < 3 ==> Plain(l.symbols[i])
  }

  lemma LaddersPlain()
    ensures PlainLadder(LADDERS[0]) && PlainLadder(LADDERS[1]) && PlainLadder(LADDERS[2]) && PlainLadder(LADDERS[3])
    ensures PlainLadder(NET_BYTES) && PlainLadder(NET_BITS)
  {}

  lemma DivIsNumber(bits: bool, e: nat)
    requires e <= 3
    ensures IsNumber(DivText(bits, e)) && IsNumber("8") && IsNumber("1")
  {
    hide IsNumber;
    SmallNumbers();
    match e {
      case 0 =>
      case 1 =>
      case 2 => Millions();
      case 3 => Billions();
    }
  }

  lemma SmallNumbers()
    ensures IsNumber("1") && IsNumber("8") && IsNumber("1000") && IsNumber("1024")
  {
    hide IsNumber;
    WholeNumber("1");
    WholeNumber("8");
    WholeNumber("1000");
    WholeNumber("1024");
  }

  lemma WholeNumber(s: string)
    requires Digits(s) && s[0] != '0'
    ensures IsNumber(s)
  {
    hide IsNumber;
    PrintedIsNumber("", s, "", "");
    assert "" + s + "" + "" == s;
  }

  lemma Millions()
    ensures IsNumber("1e+06") && IsNumber("1.04858e+06")
  {
    hide IsNumber;
    PrintedIsNumber("", "1", "", "e+06");
    PrintedIsNumber("", "1", ".04858", "e+06");
    assert "" + "1" + "" + "e+06" == "1e+06";
    assert "" + "1" + ".04858" + "e+06" == "1.04858e+06";
  }

  lemma Billions()
    ensures IsNumber("1e+09") && IsNumber("1.07374e+09")
  {
    hide IsNumber;
    PrintedIsNumber("", "1", "", "e+09");
    PrintedIsNumber("", "1", ".07374", "e+09");
    assert "" + "1" + "" + "e+09" == "1e+09";
    assert "" + "1" + ".07374" + "e+09" == "1.07374e+09";
  }

  lemma {:induction false} AllDigitRun(s: string, rest: string)
    requires (forall i :: 0 <= i < |s| ==> JsonText.IsDigit(s[i])) && (rest == "" || !JsonText.IsDigit(rest[0]))
    ensures DigitRun(s + rest) == |s|
  {
    if s == "" {
      assert s + rest == rest;
    } else {
      AllDigitRun(s[1..], rest);
      assert (s + rest)[1..] == s[1..] + rest;
    }
  }

  predicate Digits(s: string) { s != "" && forall i :: 0 <= i < |s| ==> JsonText.IsDigit(s[i]) }

  lemma ExponentOf(mark: char, e: string)
    requires Digits(e) && mark in {'+', '-'}
    ensures IsExponent(['e', mark] + e)
  {
    AllDigitRun(e, "");
    assert e + "" == e && (['e', mark] + e)[2..] == e;
  }

  /** An exponent as printf writes it. */
  predicate Exponent(e: string) {
    e == "" || (|e| > 2 && e[0] == 'e' && e[1] in {'+', '-'} && Digits(e[2..]))
  }

  lemma ExponentIs(e: string)
    requires Exponent(e)
    ensures IsExponent(e) && (e == "" || e[0] == 'e')
  {
    if e != "" {
      ExponentOf(e[1], e[2..]);
      assert ['e', e[1]] + e[2..] == e;
    }
  }

  /** What printf makes of a finite number: a sign or none, digits, a fraction or none, an exponent or none. */
  lemma PrintedIsNumber(sign: string, whole: string, fraction: string, exponent: string)
    requires sign in {"", "-"} && Digits(whole) && (whole == "0" || whole[0] != '0')
    requires (fraction == "" || (fraction[0] == '.' && Digits(fraction[1..]))) && Exponent(exponent)
    ensures IsNumber(sign + whole + fraction + exponent)
  {
    hide *;
    ExponentIs(exponent);
    FractionOf(fraction, exponent);
    UnsignedNumber(whole, fraction + exponent);
    SignedNumber(sign, whole + (fraction + exponent));
    assert sign + whole + fraction + exponent == sign + (whole + (fraction + exponent));
  }

  lemma SignedNumber(sign: string, t: string)
    requires sign in {"", "-"} && t != "" && t[0] != '-'
    requires if t[0] == '0' then IsFraction(t[1..]) else DigitRun(t) > 0 && IsFraction(t[DigitRun(t)..])
    ensures IsNumber(sign + t)
  {
    hide IsFraction, DigitRun;
    if sign == "-" {
      assert (sign + t)[0] == '-' && (sign + t)[1..] == t;
    } else {
      assert sign + t == t;
    }
  }

  lemma UnsignedNumber(whole: string, tail: string)
    requires Digits(whole) && (whole == "0" || whole[0] != '0')
    requires IsFraction(tail) && (tail == "" || tail[0] == '.' || tail[0] == 'e')
    ensures var t := whole + tail;
            && t != "" && t[0] != '-'
            && if t[0] == '0' then IsFraction(t[1..]) else DigitRun(t) > 0 && IsFraction(t[DigitRun(t)..])
  {
    hide IsFraction;
    AllDigitRun(whole, tail);
    var t := whole + tail;
    assert t[0] == whole[0] && t[|whole|..] == tail;
    assert JsonText.IsDigit(whole[0]);
  }

  lemma FractionOf(fraction: string, exponent: string)
    requires fraction == "" || (fraction[0] == '.' && Digits(fraction[1..]))
    requires IsExponent(exponent) && (exponent == "" || exponent[0] == 'e')
    ensures IsFraction(fraction + exponent)
    ensures fraction + exponent == "" || (fraction + exponent)[0] in {'.', 'e'}
  {
    hide IsExponent;
    if fraction == "" {
      assert fraction + exponent == exponent;
    } else {
      AllDigitRun(fraction[1..], exponent);
      assert (fraction + exponent)[1..] == fraction[1..] + exponent;
      assert (fraction + exponent)[|fraction|..] == exponent;
    }
  }

  lemma EntryReads(l: Ladder, step: nat)
    requires step < 3 && PlainLadder(l)
    ensures ReadsAs(Literal(Entry(l, step)), UnitOf(l, step))
  {
    hide IsNumber, Plain, DivText, Escape, Join, Render;
    var u := UnitOf(l, step);
    DivIsNumber(l.bits, step + l.base);
    PlainEscape(l.key);
    PlainEscape(l.symbols[step]);
    JoinThree(u.members);
    RenderUnit(l.symbols[step], if l.bits then "8" else "1", DivText(l.bits, step + l.base));
    EntryText(l.key, l.symbols[step], if l.bits then "8" else "1", DivText(l.bits, step + l.base));
  }

  lemma RenderUnit(sym: string, mul: string, div: string)
    requires Escape(sym) == sym
    ensures Render(Member("sym", Str(sym))) == "\"sym\":\"" + sym + "\""
    ensures Render(Member("mul", Num(mul))) == "\"mul\":" + mul
    ensures Render(Member("div", Num(div))) == "\"div\":" + div
  {
    hide Escape;
    MemberKeysPlain();
    PlainEscape("sym");
    PlainEscape("mul");
    PlainEscape("div");
    assert "\"" + "sym" + "\":" == "\"sym\":" && "\"" + "mul" + "\":" == "\"mul\":" && "\"" + "div" + "\":" == "\"div\":";
    assert "\"sym\":" + ("\"" + sym + "\"") == "\"sym\":\"" + sym + "\"";
  }

  lemma EntryText(key: string, sym: string, mul: string, div: string)
    ensures "\"" + key + "\":{\"sym\":\"" + sym + "\",\"mul\":" + mul + ",\"div\":" + div + "}"
            == "\"" + key + "\":{" + ("\"sym\":\"" + sym + "\"" + "," + ("\"mul\":" + mul) + "," + ("\"div\":" + div)) + "}"
  {}

  lemma MemberKeysPlain()
    ensures Plain("sym") && Plain("mul") && Plain("div")
  {}

  lemma JoinThree(ms: seq<Member>)
    requires |ms| == 3
    ensures Join(ms) == Render(ms[0]) + "," + Render(ms[1]) + "," + Render(ms[2])
  {
    hide Render;
    JoinOne(ms[..1]);
    assert ms[..2][..1] == ms[..1];
    assert Join(ms[..2]) == Join(ms[..1]) + "," + Render(ms[1]);
  }

  lemma EntryIfReads(shown: bool, l: Ladder, step: int)
    requires -1 <= step < 3 && PlainLadder(l)
    ensures AllReadAs(EntryIf(shown, l, step), UnitIf(shown, l, step))
  {
    hide ReadsAs, PlainLadder, Entry, UnitOf;
    if shown && step >= 0 {
      assert |l.symbols| == 3 && l.base <= 1 by { LadderShape(l); }
      EntryReads(l, step);
    }
  }

  lemma LadderShape(l: Ladder)
    requires PlainLadder(l)
    ensures |l.symbols| == 3 && l.base <= 1
  {}

  ghost predicate AllReadAs(ps: seq<Piece>, us: seq<Unit>) {
    |ps| == |us| && forall i :: 0 <= i < |ps| ==> ReadsAs(ps[i], us[i])
  }

  lemma ReadAsAdds(a: seq<Piece>, x: seq<Unit>, b: seq<Piece>, y: seq<Unit>)
    requires AllReadAs(a, x) && AllReadAs(b, y)
    ensures AllReadAs(a + b, x + y)
  {
    hide ReadsAs;
  }

  /** The units are read back: for every configuration and every magnitude, each unit shown with its symbol
      and what to multiply and divide by. */
  lemma UnitsRead(r: Rungs, rest: string)
    requires ValidRungs(r)
    ensures ReadUnits(Units(UNITS_CAP, r).text + rest) == Got(UnitsShown(r), rest)
  {
    hide ReadsAs, PlainLadder, EntryIf, UnitIf, Units, Glued, ReadUnits, AllReadAs;
    LaddersPlain();
    UnitsFit(r);
    var net := if r.bits then NET_BITS else NET_BYTES;
    EntryIfReads(r.shown[0], LADDERS[0], r.steps[0]);
    EntryIfReads(r.shown[1], LADDERS[1], r.steps[1]);
    EntryIfReads(r.shown[2], LADDERS[2], r.steps[2]);
    EntryIfReads(r.shown[3], LADDERS[3], r.steps[3]);
    EntryIfReads(r.shown[4], net, r.steps[4]);
    var a, x := EntryIf(r.shown[0], LADDERS[0], r.steps[0]), UnitIf(r.shown[0], LADDERS[0], r.steps[0]);
    var b, y := EntryIf(r.shown[1], LADDERS[1], r.steps[1]), UnitIf(r.shown[1], LADDERS[1], r.steps[1]);
    var c, z := EntryIf(r.shown[2], LADDERS[2], r.steps[2]), UnitIf(r.shown[2], LADDERS[2], r.steps[2]);
    var d, v := EntryIf(r.shown[3], LADDERS[3], r.steps[3]), UnitIf(r.shown[3], LADDERS[3], r.steps[3]);
    ReadAsAdds(a, x, b, y);
    ReadAsAdds(a + b, x + y, c, z);
    ReadAsAdds(a + b + c, x + y + z, d, v);
    ReadAsAdds(a + b + c + d, x + y + z + v, EntryIf(r.shown[4], net, r.steps[4]), UnitIf(r.shown[4], net, r.steps[4]));
    UnitsGiven(Entries(r), UnitsShown(r), rest);
  }

  lemma UnitsGiven(ps: seq<Piece>, us: seq<Unit>, rest: string)
    requires AllReadAs(ps, us)
    ensures ReadUnits("\"units\":{" + Glued(ps, false) + "}" + rest) == Got(us, rest)
  {
    hide ReadsAs, Glued, ReadUnits;
    UnitsRoundTrip(ps, us, rest);
  }

  /** `json_serialize_units` into its buffer. */
  method SerializeUnits(j: JBuf, r: Rungs)
    requires j.Valid() && j.Contents() == Doc("", 256, false, false) && ValidRungs(r)
    modifies j, j.buf
    ensures j.Valid() && !j.overflow
    ensures ReadUnits(j.buf[..j.pos]) == Got(UnitTable(r), "")
  {
    hide PutPieces, Entries, UnitsShown, UnitTable, ReadUnits, Glued;
    UnitsFit(r);
    UnitsRead(r, "");
    UnitsShownAre(r);
    j.Sep();
    j.Raw("\"units\":{");
    j.comma := false;
    WritePieces(j, Entries(r));
    j.Raw("}");
    j.comma := true;
    assert j.Contents() == Units(UNITS_CAP, r);
    assert j.Contents().text + "" == j.buf[..j.pos];
  }
}
