/** JSON text: the escaper, the fields the writer renders, and a reader for them after RFC 8259. A char
    stands for a byte. */
module JsonText {
  import opened Rows

  // --- Strings (section 7 of RFC 8259) ---

  function Hex(d: nat): char
    requires d < 16
  {
    if d < 10 then '0' + d as char else 'a' + (d - 10) as char
  }

  /** What `json_escape` writes for one byte. */
  function EscapeChar(c: char): string {
    if c == '"' then "\\\""
    else if c == '\\' then "\\\\"
    else if c == '\n' then "\\n"
    else if c == '\r' then "\\r"
    else if c == '\t' then "\\t"
    else if c as int == 8 then "\\b"
    else if c as int == 12 then "\\f"
    else if (c as int) < 0x20 then "\\u00" + [Hex(c as int / 16), Hex(c as int % 16)]
    else [c]
  }

  /** Two bytes for the seven characters with a short escape, six for any other control character, else one. */
  lemma EscapeWidths(c: char)
    ensures |EscapeChar(c)| == if c in {'"', '\\', '\n', '\r', '\t', 8 as char, 12 as char} then 2
                               else if (c as int) < 0x20 then 6 else 1
  {}

  function Escape(s: string): string {
    if s == "" then "" else Escape(s[..|s| - 1]) + EscapeChar(s[|s| - 1])
  }

  lemma {:induction false} EscapeFront(s: string)
    requires s != ""
    ensures Escape(s) == EscapeChar(s[0]) + Escape(s[1..])
  {
    hide EscapeChar, Escape;
    var n := |s| - 1;
    EscapeLast(s);
    if n == 0 {
      EscapeNothing();
      assert s[..0] == "" && s[1..] == "";
    } else {
      EscapeFront(s[..n]);
      EscapeLast(s[1..]);
      assert s[..n][1..] == s[1..][..n - 1] && s[1..][n - 1] == s[n];
    }
  }

  lemma EscapeLast(s: string)
    requires s != ""
    ensures Escape(s) == Escape(s[..|s| - 1]) + EscapeChar(s[|s| - 1])
  {}

  lemma EscapeNothing()
    ensures Escape("") == ""
  {}

  /** At worst six bytes for one. */
  lemma {:induction false} EscapeLength(s: string)
    ensures |s| <= |Escape(s)| <= 6 * |s|
  {
    if s != "" { EscapeLength(s[..|s| - 1]); }
  }

  function HexValue(c: char): Option<nat> {
    if '0' <= c <= '9' then Some((c - '0') as nat)
    else if 'a' <= c <= 'f' then Some((c - 'a') as nat + 10)
    else if 'A' <= c <= 'F' then Some((c - 'A') as nat + 10)
    else None
  }

  datatype Read<T> = Fail | Got(value: T, rest: string)

  /** One character of a string: itself, or an escape. */
  function ReadChar(s: string): (r: Read<char>)
    ensures r.Got? ==> |r.rest| < |s|
  {
    if s == "" || s[0] == '"' || (s[0] as int) < 0x20 then Fail
    else if s[0] != '\\' then Got(s[0], s[1..])
    else if |s| < 2 then Fail
    else if s[1] == '"' || s[1] == '\\' || s[1] == '/' then Got(s[1], s[2..])
    else if s[1] == 'n' then Got('\n', s[2..])
    else if s[1] == 'r' then Got('\r', s[2..])
    else if s[1] == 't' then Got('\t', s[2..])
    else if s[1] == 'b' then Got(8 as char, s[2..])
    else if s[1] == 'f' then Got(12 as char, s[2..])
    else if s[1] == 'u' && |s| >= 6 then
      var (a, b, c, d) := (HexValue(s[2]), HexValue(s[3]), HexValue(s[4]), HexValue(s[5]));
      if a == None || b == None || c == None || d == None then Fail
      else
        var v := ((a.value * 16 + b.value) * 16 + c.value) * 16 + d.value;
        if v < 0xD800 then Got(v as char, s[6..]) else Fail
    else Fail
  }

  /** A string after its opening quote, up to and past the closing one. */
  function ReadString(s: string): (r: Read<string>)
    ensures r.Got? ==> |r.rest| < |s|
    decreases |s|
  {
    if s == "" then Fail
    else if s[0] == '"' then Got("", s[1..])
    else match ReadChar(s)
         case Fail => Fail
         case Got(c, rest) =>
           match ReadString(rest)
           case Fail => Fail
           case Got(tail, after) => Got([c] + tail, after)
  }

  lemma ReadEscapedChar(c: char, rest: string)
    ensures ReadChar(EscapeChar(c) + rest) == Got(c, rest)
    ensures EscapeChar(c) != "" && EscapeChar(c)[0] != '"'
  {
    var e := EscapeChar(c) + rest;
    if |EscapeChar(c)| == 6 {
      var v := c as int;
      assert e[2] == '0' && e[3] == '0' && e[4] == Hex(v / 16) && e[5] == Hex(v % 16);
      HexRoundTrip(v / 16);
      HexRoundTrip(v % 16);
      assert e[6..] == rest;
    } else if |EscapeChar(c)| == 2 {
      assert e[2..] == rest;
    } else {
      assert e[1..] == rest;
    }
  }

  lemma HexRoundTrip(d: nat)
    requires d < 16
    ensures HexValue(Hex(d)) == Some(d)
  {}

  /** Reading back what the escaper wrote gives the string, and stops at the quote after it. */
  lemma {:induction false} EscapeRoundTrip(s: string, rest: string)
    ensures ReadString(Escape(s) + "\"" + rest) == Got(s, rest)
    decreases |s|
  {
    hide EscapeChar, ReadChar;
    if s == "" {
      assert Escape(s) + "\"" + rest == "\"" + rest;
      assert ("\"" + rest)[1..] == rest;
    } else {
      var tail := Escape(s[1..]) + "\"" + rest;
      EscapeFront(s);
      ReadEscapedChar(s[0], tail);
      EscapeRoundTrip(s[1..], rest);
      assert Escape(s) + "\"" + rest == EscapeChar(s[0]) + tail;
      assert [s[0]] + s[1..] == s;
    }
  }

  // --- Numbers (section 6) ---

  predicate IsDigit(c: char) { '0' <= c <= '9' }

  predicate NumberChar(c: char) {
    IsDigit(c) || c == '-' || c == '+' || c == '.' || c == 'e' || c == 'E'
  }

  /** The digits at the front of `s`. */
  function DigitRun(s: string): (n: nat)
    ensures n <= |s|
  {
    if s == "" || !IsDigit(s[0]) then 0 else 1 + DigitRun(s[1..])
  }

  /** exp = e [+-] 1*DIGIT, or nothing. */
  predicate IsExponent(s: string) {
    s == "" || ((s[0] == 'e' || s[0] == 'E')
                && var t := if |s| > 1 && (s[1] == '+' || s[1] == '-') then s[2..] else s[1..];
                   |t| > 0 && DigitRun(t) == |t|)
  }

  /** [ frac ] [ exp ] */
  predicate IsFraction(s: string) {
    if s != "" && s[0] == '.' then DigitRun(s[1..]) > 0 && IsExponent(s[1 + DigitRun(s[1..])..]) else IsExponent(s)
  }

  /** number = [ - ] int [ frac ] [ exp ] */
  predicate IsNumber(s: string) {
    var t := if s != "" && s[0] == '-' then s[1..] else s;
    && t != ""
    && if t[0] == '0' then IsFraction(t[1..]) else DigitRun(t) > 0 && IsFraction(t[DigitRun(t)..])
  }

  lemma {:induction false} DigitsAreNumberChars(s: string, n: nat)
    requires n <= DigitRun(s)
    ensures forall i :: 0 <= i < n ==> NumberChar(s[i])
  {
    if n > 0 {
      DigitsAreNumberChars(s[1..], n - 1);
      forall i | 0 <= i < n ensures NumberChar(s[i]) {
        if i > 0 { assert s[i] == s[1..][i - 1]; }
      }
    }
  }

  predicate AllNumberChars(s: string) {
    forall i :: 0 <= i < |s| ==> NumberChar(s[i])
  }

  lemma CharsOfParts(a: string, b: string)
    requires AllNumberChars(a) && AllNumberChars(b)
    ensures AllNumberChars(a + b)
  {}

  lemma ExponentChars(s: string)
    requires IsExponent(s)
    ensures AllNumberChars(s)
  {
    if s != "" {
      if |s| > 1 && (s[1] == '+' || s[1] == '-') {
        DigitsAreNumberChars(s[2..], |s| - 2);
        assert s == [s[0], s[1]] + s[2..];
      } else {
        DigitsAreNumberChars(s[1..], |s| - 1);
        assert s == [s[0]] + s[1..];
      }
    }
  }

  lemma FractionChars(s: string)
    requires IsFraction(s)
    ensures AllNumberChars(s)
  {
    if s != "" && s[0] == '.' {
      var n := DigitRun(s[1..]);
      DigitsAreNumberChars(s[1..], n);
      ExponentChars(s[1 + n..]);
      assert s == [s[0]] + s[1..][..n] + s[1 + n..];
      CharsOfParts([s[0]] + s[1..][..n], s[1 + n..]);
    } else {
      ExponentChars(s);
    }
  }

  /** Every character of a number is one the reader collects. */
  lemma NumberChars(s: string)
    requires IsNumber(s)
    ensures s != "" && AllNumberChars(s)
  {
    hide IsFraction, IsExponent, DigitRun;
    var t := if s[0] == '-' then s[1..] else s;
    if t[0] == '0' {
      FractionChars(t[1..]);
      assert t == t[..1] + t[1..];
      CharsOfParts(t[..1], t[1..]);
    } else {
      var n := DigitRun(t);
      DigitsAreNumberChars(t, n);
      FractionChars(t[n..]);
      assert t == t[..n] + t[n..];
      CharsOfParts(t[..n], t[n..]);
    }
    if s[0] == '-' {
      assert s == s[..1] + t;
      CharsOfParts(s[..1], t);
    }
  }

  /** The longest run of number characters at the front of `s`. */
  function NumberRun(s: string): (n: nat)
    ensures n <= |s|
  {
    if s == "" || !NumberChar(s[0]) then 0 else 1 + NumberRun(s[1..])
  }

  function ReadNumber(s: string): (r: Read<string>)
    ensures r.Got? ==> |r.rest| < |s|
  {
    var n := NumberRun(s);
    if n > 0 && IsNumber(s[..n]) then Got(s[..n], s[n..]) else Fail
  }

  /** Nothing that continues a number. */
  predicate EndsNumber(rest: string) { rest == "" || !NumberChar(rest[0]) }

  lemma {:induction false} RunOf(token: string, rest: string)
    requires AllNumberChars(token) && EndsNumber(rest)
    ensures NumberRun(token + rest) == |token|
  {
    if token == "" {
      assert token + rest == rest;
    } else {
      RunOf(token[1..], rest);
      assert (token + rest)[1..] == token[1..] + rest;
    }
  }

  lemma NumberRoundTrip(token: string, rest: string)
    requires IsNumber(token) && EndsNumber(rest)
    ensures ReadNumber(token + rest) == Got(token, rest)
  {
    hide IsNumber;
    NumberChars(token);
    RunOf(token, rest);
    assert (token + rest)[..|token|] == token && (token + rest)[|token|..] == rest;
  }

  // --- Values and members (section 4) ---

  datatype Value =
    | Str(s: string) | Num(token: string) | Null | Bool(b: bool)
    | Pair(warn: string, crit: string) | Strings(elems: seq<string>)

  datatype Member = Member(key: string, value: Value)

  /** A value the writer is given: numbers are the tokens printf produced. */
  predicate ValidValue(v: Value) {
    match v
    case Str(_) => true
    case Num(t) => IsNumber(t)
    case Null => true
    case Bool(_) => true
    case Pair(w, c) => IsNumber(w) && IsNumber(c)
    case Strings(_) => true
  }

  /** The elements of an array of strings. */
  function Quoted(elems: seq<string>): string {
    if elems == [] then ""
    else Quoted(elems[..|elems| - 1]) + (if |elems| > 1 then "," else "") + "\"" + Escape(elems[|elems| - 1]) + "\""
  }

  function RenderValue(v: Value): string {
    match v
    case Str(s) => "\"" + Escape(s) + "\""
    case Num(t) => t
    case Null => "null"
    case Bool(b) => if b then "true" else "false"
    case Pair(w, c) => "[" + w + "," + c + "]"
    case Strings(elems) => "[" + Quoted(elems) + "]"
  }

  function Render(m: Member): string {
    "\"" + Escape(m.key) + "\":" + RenderValue(m.value)
  }

  /** The members with a comma between each two. */
  function Join(ms: seq<Member>): string {
    if ms == [] then ""
    else Join(ms[..|ms| - 1]) + (if |ms| > 1 then "," else "") + Render(ms[|ms| - 1])
  }

  /** Two numbers after an opening bracket, up to and past the closing one. */
  function ReadPair(s: string): (r: Read<Value>)
    ensures r.Got? ==> |r.rest| < |s|
  {
    match ReadNumber(s)
    case Fail => Fail
    case Got(w, rest) =>
      if rest == "" || rest[0] != ',' then Fail
      else match ReadNumber(rest[1..])
           case Fail => Fail
           case Got(c, last) => if last == "" || last[0] != ']' then Fail else Got(Pair(w, c), last[1..])
  }

  /** The elements of an array of strings, up to and past the closing bracket. */
  function ReadStrings(s: string): (r: Read<seq<string>>)
    ensures r.Got? ==> |r.rest| < |s|
    decreases |s|
  {
    if s == "" || s[0] != '"' then Fail
    else match ReadString(s[1..])
         case Fail => Fail
         case Got(e, rest) =>
           if rest == "" then Fail
           else if rest[0] == ']' then Got([e], rest[1..])
           else if rest[0] != ',' then Fail
           else match ReadStrings(rest[1..])
                case Fail => Fail
                case Got(es, after) => Got([e] + es, after)
  }

  /** An array, after its opening bracket: of strings, empty, or of two numbers. */
  function ReadArray(s: string): (r: Read<Value>)
    ensures r.Got? ==> |r.rest| < |s|
  {
    if s == "" then Fail
    else if s[0] == ']' then Got(Strings([]), s[1..])
    else if s[0] == '"' then
      match ReadStrings(s)
      case Fail => Fail
      case Got(es, rest) => Got(Strings(es), rest)
    else ReadPair(s)
  }

  function ReadValue(s: string): (r: Read<Value>)
    ensures r.Got? ==> |r.rest| < |s|
  {
    if s == "" then Fail
    else if s[0] == '"' then
      match ReadString(s[1..])
      case Fail => Fail
      case Got(v, rest) => Got(Str(v), rest)
    else if |s| >= 4 && s[..4] == "null" then Got(Null, s[4..])
    else if |s| >= 4 && s[..4] == "true" then Got(Bool(true), s[4..])
    else if |s| >= 5 && s[..5] == "false" then Got(Bool(false), s[5..])
    else if s[0] == '[' then ReadArray(s[1..])
    else match ReadNumber(s)
         case Fail => Fail
         case Got(t, rest) => Got(Num(t), rest)
  }

  function ReadMember(s: string): (r: Read<Member>)
    ensures r.Got? ==> |r.rest| < |s|
  {
    if s == "" || s[0] != '"' then Fail
    else match ReadString(s[1..])
         case Fail => Fail
         case Got(key, rest) =>
           if rest == "" || rest[0] != ':' then Fail
           else match ReadValue(rest[1..])
                case Fail => Fail
                case Got(v, after) => Got(Member(key, v), after)
  }

  /** member *( "," member ) "}" */
  function ReadMembers(s: string): (r: Read<seq<Member>>)
    ensures r.Got? ==> |r.rest| < |s|
    decreases |s|
  {
    match ReadMember(s)
    case Fail => Fail
    case Got(m, rest) =>
      if rest == "" then Fail
      else if rest[0] == '}' then Got([m], rest[1..])
      else if rest[0] != ',' then Fail
      else match ReadMembers(rest[1..])
           case Fail => Fail
           case Got(ms, after) => Got([m] + ms, after)
  }

  /** An object, without insignificant whitespace. */
  function ReadObject(s: string): Read<seq<Member>> {
    if s == "" || s[0] != '{' then Fail
    else if |s| >= 2 && s[1] == '}' then Got([], s[2..])
    else ReadMembers(s[1..])
  }

  // --- Reading back what was rendered ---

  predicate EndsValue(rest: string) { rest != "" && (rest[0] == ',' || rest[0] == '}') }

  lemma PairRoundTrip(w: string, c: string, rest: string)
    requires IsNumber(w) && IsNumber(c)
    ensures ReadPair(w + ("," + (c + ("]" + rest)))) == Got(Pair(w, c), rest)
  {
    hide IsNumber, ReadNumber;
    var second := c + ("]" + rest);
    NumberRoundTrip(w, "," + second);
    NumberRoundTrip(c, "]" + rest);
    assert ("," + second)[1..] == second;
    assert ("]" + rest)[1..] == rest;
  }

  /** What a value is read as follows from its first character. */
  lemma ReadByFirst(s: string)
    requires s != ""
    ensures s[0] == '"' ==> ReadValue(s) == match ReadString(s[1..]) { case Fail => Fail case Got(v, rest) => Got(Str(v), rest) }
    ensures s[0] == '[' ==> ReadValue(s) == ReadArray(s[1..])
    ensures NumberChar(s[0]) ==> ReadValue(s) == match ReadNumber(s) { case Fail => Fail case Got(t, rest) => Got(Num(t), rest) }
  {
    hide ReadString, ReadArray, ReadNumber;
    if |s| >= 4 { assert s[..4][0] == s[0]; }
    if |s| >= 5 { assert s[..5][0] == s[0]; }
  }

  lemma NumRoundTrip(t: string, rest: string)
    requires IsNumber(t) && EndsValue(rest)
    ensures ReadValue(t + rest) == Got(Num(t), rest)
  {
    hide IsNumber, ReadNumber, ReadValue;
    NumberChars(t);
    NumberRoundTrip(t, rest);
    assert (t + rest)[0] == t[0] && NumberChar(t[0]);
    ReadByFirst(t + rest);
  }

  lemma StrRoundTrip(v: string, rest: string)
    ensures ReadValue("\"" + Escape(v) + "\"" + rest) == Got(Str(v), rest)
  {
    hide ReadString, ReadValue, Escape;
    EscapeRoundTrip(v, rest);
    var text := "\"" + Escape(v) + "\"" + rest;
    assert text[0] == '"' && text[1..] == Escape(v) + "\"" + rest;
    ReadByFirst(text);
  }

  lemma WordRoundTrip(rest: string)
    ensures ReadValue("null" + rest) == Got(Null, rest)
    ensures ReadValue("true" + rest) == Got(Bool(true), rest)
    ensures ReadValue("false" + rest) == Got(Bool(false), rest)
  {
    hide IsNumber, ReadNumber, ReadString, ReadArray;
    var n, t, f := "null" + rest, "true" + rest, "false" + rest;
    assert n[0] == 'n' && n[..4] == "null" && n[4..] == rest;
    assert t[0] == 't' && t[..4] == "true" && t[4..] == rest;
    assert f[0] == 'f' && f[..4][0] == 'f' && f[..5] == "false" && f[5..] == rest;
  }

  lemma ArrayRoundTrip(w: string, c: string, rest: string)
    requires IsNumber(w) && IsNumber(c)
    ensures ReadValue("[" + w + "," + c + "]" + rest) == Got(Pair(w, c), rest)
  {
    hide IsNumber, ReadNumber, ReadStrings, ReadPair, ReadValue;
    PairRoundTrip(w, c, rest);
    NumberChars(w);
    var text := "[" + w + "," + c + "]" + rest;
    var tail := w + ("," + (c + ("]" + rest)));
    assert text[0] == '[' && text[1..] == tail;
    assert tail[0] == w[0] && NumberChar(w[0]);
    ReadByFirst(text);
  }

  lemma QuotedOne(elems: seq<string>)
    requires |elems| == 1
    ensures Quoted(elems) == "\"" + Escape(elems[0]) + "\""
  {
    hide Escape;
    assert elems[..0] == [];
    assert Quoted(elems[..0]) == "";
  }

  lemma {:induction false} QuotedFront(elems: seq<string>)
    requires |elems| > 1
    ensures Quoted(elems) == "\"" + Escape(elems[0]) + "\"" + "," + Quoted(elems[1..])
  {
    hide Escape;
    var n := |elems| - 1;
    if n == 1 {
      QuotedOne(elems[..1]);
      QuotedOne(elems[1..]);
    } else {
      QuotedFront(elems[..n]);
      assert elems[..n][1..] == elems[1..][..n - 1] && elems[1..][n - 1] == elems[n];
    }
  }

  lemma {:induction false} StringsRoundTrip(elems: seq<string>, rest: string)
    requires elems != []
    ensures ReadStrings(Quoted(elems) + "]" + rest) == Got(elems, rest)
    ensures Quoted(elems) != "" && Quoted(elems)[0] == '"'
  {
    hide Escape, ReadString, Quoted;
    if |elems| == 1 {
      QuotedOne(elems);
      EscapeRoundTrip(elems[0], "]" + rest);
      var text := Quoted(elems) + "]" + rest;
      assert text[0] == '"' && text[1..] == Escape(elems[0]) + "\"" + ("]" + rest);
      assert ("]" + rest)[1..] == rest && elems == [elems[0]];
    } else {
      QuotedFront(elems);
      StringsRoundTrip(elems[1..], rest);
      var tail := Quoted(elems[1..]) + "]" + rest;
      EscapeRoundTrip(elems[0], "," + tail);
      var text := Quoted(elems) + "]" + rest;
      assert text[0] == '"' && text[1..] == Escape(elems[0]) + "\"" + ("," + tail);
      assert ("," + tail)[1..] == tail && [elems[0]] + elems[1..] == elems;
    }
  }

  lemma ListRoundTrip(elems: seq<string>, rest: string)
    ensures ReadValue("[" + Quoted(elems) + "]" + rest) == Got(Strings(elems), rest)
  {
    hide ReadStrings, ReadPair, ReadValue, Quoted;
    var text, tail := "[" + Quoted(elems) + "]" + rest, Quoted(elems) + "]" + rest;
    assert text[0] == '[' && text[1..] == tail;
    ReadByFirst(text);
    if elems == [] {
      NothingQuoted();
      assert tail == "]" + rest && tail[1..] == rest;
    } else {
      StringsRoundTrip(elems, rest);
    }
  }

  lemma NothingQuoted()
    ensures Quoted([]) == ""
  {}

  lemma ValueRoundTrip(v: Value, rest: string)
    requires ValidValue(v) && EndsValue(rest)
    ensures ReadValue(RenderValue(v) + rest) == Got(v, rest)
  {
    hide IsNumber, ReadValue, Quoted;
    match v
    case Str(s) => StrRoundTrip(s, rest);
    case Num(t) => NumRoundTrip(t, rest);
    case Null => WordRoundTrip(rest);
    case Bool(_) => WordRoundTrip(rest);
    case Pair(w, c) => ArrayRoundTrip(w, c, rest);
    case Strings(elems) => ListRoundTrip(elems, rest);
  }

  lemma MemberRoundTrip(m: Member, rest: string)
    requires ValidValue(m.value) && EndsValue(rest)
    ensures ReadMember(Render(m) + rest) == Got(m, rest)
  {
    hide ReadString, ReadValue, ValidValue, RenderValue, Escape;
    var after := RenderValue(m.value) + rest;
    EscapeRoundTrip(m.key, ":" + after);
    ValueRoundTrip(m.value, rest);
    assert (Render(m) + rest)[0] == '"';
    assert (Render(m) + rest)[1..] == Escape(m.key) + "\"" + (":" + after);
    assert (":" + after)[1..] == after;
  }

  lemma {:induction false} JoinFront(ms: seq<Member>)
    requires |ms| > 1
    ensures Join(ms) == Render(ms[0]) + "," + Join(ms[1..])
  {
    hide Render;
    var n := |ms| - 1;
    if n == 1 {
      JoinOne(ms[..1]);
      JoinOne(ms[1..]);
    } else {
      JoinFront(ms[..n]);
      assert ms[..n][1..] == ms[1..][..n - 1] && ms[1..][n - 1] == ms[n];
    }
  }

  lemma JoinOne(ms: seq<Member>)
    requires |ms| == 1
    ensures Join(ms) == Render(ms[0])
  {
    assert ms[..0] == [];
    assert Join(ms[..0]) == "";
  }

  lemma {:induction false} MembersRoundTrip(ms: seq<Member>, rest: string)
    requires ms != [] && forall i :: 0 <= i < |ms| ==> ValidValue(ms[i].value)
    ensures ReadMembers(Join(ms) + "}" + rest) == Got(ms, rest)
  {
    hide Render, Join, ReadMember, ValidValue;
    if |ms| == 1 {
      JoinOne(ms);
      MemberRoundTrip(ms[0], "}" + rest);
      assert Join(ms) + "}" + rest == Render(ms[0]) + ("}" + rest);
      assert ("}" + rest)[1..] == rest;
      assert ms == [ms[0]];
    } else {
      var tail := Join(ms[1..]) + "}" + rest;
      JoinFront(ms);
      MembersRoundTrip(ms[1..], rest);
      MemberRoundTrip(ms[0], "," + tail);
      assert Join(ms) + "}" + rest == Render(ms[0]) + ("," + tail);
      assert ("," + tail)[1..] == tail;
      assert [ms[0]] + ms[1..] == ms;
    }
  }

  /** The reader undoes the printer: any ordered members come back as they were. */
  lemma ObjectRoundTrip(ms: seq<Member>)
    requires forall i :: 0 <= i < |ms| ==> ValidValue(ms[i].value)
    ensures ReadObject("{" + Join(ms) + "}") == Got(ms, "")
  {
    hide ValidValue, Render, ReadMembers, Join, ReadObject;
    var body := Join(ms) + "}";
    OpenObject(body);
    assert "{" + Join(ms) + "}" == "{" + body;
    if ms == [] {
      EmptyJoin();
    } else {
      MembersRoundTrip(ms, "");
      StartsWithQuote(ms);
      assert body + "" == body;
    }
  }

  lemma OpenObject(body: string)
    ensures body == "}" ==> ReadObject("{" + body) == Got([], "")
    ensures body != "" && body[0] != '}' ==> ReadObject("{" + body) == ReadMembers(body)
  {
    hide ReadMembers;
    assert ("{" + body)[1..] == body;
  }

  lemma EmptyJoin()
    ensures Join([]) == ""
  {}

  lemma {:induction false} StartsWithQuote(ms: seq<Member>)
    requires ms != []
    ensures Join(ms) != "" && Join(ms)[0] == '"'
  {
    if |ms| == 1 { JoinOne(ms); } else { JoinFront(ms); }
  }

  // --- How much text a value takes ---

  /** The least number of characters a value is read from. */
  function LeastText(v: Value): nat {
    match v
    case Str(s) => |s| + 2
    case Num(t) => |t|
    case Null => 4
    case Bool(_) => 4
    case Pair(w, c) => |w| + |c| + 3
    case Strings(_) => 2
  }

  lemma {:induction false} StringTakes(s: string)
    ensures ReadString(s).Got? ==> |s| >= |ReadString(s).rest| + |ReadString(s).value| + 1
    decreases |s|
  {
    hide ReadChar;
    if s != "" && s[0] != '"' && ReadChar(s).Got? { StringTakes(ReadChar(s).rest); }
  }

  lemma ArrayTakes(s: string)
    ensures ReadArray(s).Got? ==> |s| + 1 >= |ReadArray(s).rest| + LeastText(ReadArray(s).value)
  {
    hide IsNumber, NumberRun, ReadStrings;
  }

  lemma ValueTakes(s: string)
    ensures ReadValue(s).Got? ==> |s| >= |ReadValue(s).rest| + LeastText(ReadValue(s).value)
  {
    hide ReadString, IsNumber, NumberRun, ReadArray;
    if s != "" && s[0] == '"' { StringTakes(s[1..]); }
    if s != "" && s[0] == '[' { ArrayTakes(s[1..]); }
  }

  lemma MemberTakes(s: string)
    ensures ReadMember(s).Got? ==> var m := ReadMember(s).value;
                                   |s| >= |ReadMember(s).rest| + |m.key| + 3 + LeastText(m.value)
  {
    hide ReadString, ReadValue;
    if s != "" && s[0] == '"' {
      StringTakes(s[1..]);
      if ReadString(s[1..]).Got? && ReadString(s[1..]).rest != "" { ValueTakes(ReadString(s[1..]).rest[1..]); }
    }
  }

  lemma {:induction false} MembersTake(s: string)
    ensures ReadMembers(s).Got? ==> var r := ReadMembers(s);
                                    && r.value != []
                                    && |s| >= |r.rest| + |r.value[0].key| + 4 + LeastText(r.value[0].value)
    decreases |s|
  {
    hide ReadMember;
    MemberTakes(s);
    var m := ReadMember(s);
    if m.Got? && m.rest != "" && m.rest[0] == ',' { MembersTake(m.rest[1..]); }
  }

  /** An object is at least as long as its first member needs. */
  lemma ObjectTakes(s: string)
    ensures ReadObject(s).Got? && ReadObject(s).value != [] ==>
              var m := ReadObject(s).value[0]; |s| >= |m.key| + 5 + LeastText(m.value)
  {
    hide ReadMembers;
    if s != "" { MembersTake(s[1..]); }
  }
}
