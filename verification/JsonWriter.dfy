/** The bounded JSON writer: an object built in a caller's buffer, fields whole or not at all. */
module JsonWriter {
  import opened Rows
  import opened JsonText

  const NUL: char := '\0'

  /** What a buffer holds: its text, its size, whether a comma comes first, whether something was
      dropped. */
  datatype Doc = Doc(text: string, cap: nat, comma: bool, overflow: bool)

  function PutRaw(d: Doc, s: string): Doc {
    if |d.text| + |s| >= d.cap then d.(overflow := true) else d.(text := d.text + s)
  }

  function PutSep(d: Doc): Doc {
    (if d.comma then PutRaw(d, ",") else d).(comma := true)
  }

  function PutBegin(d: Doc): Doc { PutRaw(d, "{").(comma := false) }

  function PutEnd(d: Doc): Doc { PutRaw(d, "}") }

  function Comma(d: Doc): string { if d.comma then "," else "" }

  /** The whole field with its comma, or nothing. */
  function PutField(d: Doc, field: string): Doc {
    if |d.text| + |Comma(d)| + |field| >= d.cap then d.(overflow := true)
    else d.(text := d.text + Comma(d) + field, comma := true)
  }

  // --- Fields ---

  /** A field write; numbers come as the tokens printf makes of them, None when not finite. */
  datatype Field =
    | StrField(key: string, val: string)
    | RealField(key: string, token: Option<string>)
    | LongField(key: string, digits: string)
    | NullField(key: string)
    | PairField(key: string, warn: string, crit: string)

  function MemberOf(f: Field): Member {
    match f
    case StrField(k, v) => Member(k, Str(v))
    case RealField(k, t) => Member(k, if t.Some? then Num(t.value) else Null)
    case LongField(k, t) => Member(k, Num(t))
    case NullField(k) => Member(k, Null)
    case PairField(k, w, c) => Member(k, Pair(w, c))
  }

  /** snprintf into a buffer of `cap` bytes. */
  function Cut(s: string, cap: nat): string
    requires cap > 0
  {
    if |s| < cap then s else s[..cap - 1]
  }

  /** The text of a field before it is cut to its local buffer. Only string fields escape the key. */
  function Printed(f: Field): string {
    match f
    case StrField(k, v) => "\"" + Escape(k) + "\":\"" + Escape(v) + "\""
    case RealField(k, t) => "\"" + k + "\":" + (if t.Some? then t.value else "null")
    case LongField(k, t) => "\"" + k + "\":" + t
    case NullField(k) => "\"" + k + "\":null"
    case PairField(k, w, c) => "\"" + k + "\":[" + w + "," + c + "]"
  }

  function LocalCap(f: Field): nat
    ensures LocalCap(f) > 0
  {
    match f
    case StrField(_, _) => 1152
    case RealField(_, t) => if t.Some? then 128 else 64
    case LongField(_, _) => 64
    case NullField(_) => 64
    case PairField(_, _, _) => 128
  }

  function Put(d: Doc, f: Field): Doc {
    if f.StrField? && (|Escape(f.key)| >= 64 || |Escape(f.val)| >= 1024) then d.(overflow := true)
    else PutField(d, Cut(Printed(f), LocalCap(f)))
  }

  /** The field fits the local buffers it is made in. */
  predicate Short(f: Field) {
    if f.StrField? then |Escape(f.key)| < 64 && |Escape(f.val)| < 1024 else |Printed(f)| < LocalCap(f)
  }

  /** The key needs no escaping: it reads the same escaped. */
  predicate PlainKey(f: Field) { f.StrField? || Escape(f.key) == f.key }

  /** A short field with a plain key is written as the member it stands for, when it fits. */
  lemma PutIsRender(d: Doc, f: Field)
    requires Short(f) && PlainKey(f)
    ensures Put(d, f) == PutField(d, Render(MemberOf(f)))
  {
    hide Escape, PutField;
    PrintedIsRender(f);
  }

  lemma PrintedIsRender(f: Field)
    requires PlainKey(f)
    ensures Printed(f) == Render(MemberOf(f))
  {
    hide Escape;
    match f
    case StrField(k, v) => StrText(Escape(k), Escape(v));
    case PairField(k, w, c) => PairText(k, w, c);
    case NullField(k) => NullText(k);
    case _ =>
  }

  lemma StrText(k: string, v: string)
    ensures "\"" + k + "\":\"" + v + "\"" == "\"" + k + "\":" + ("\"" + v + "\"")
  {}

  lemma NullText(k: string)
    ensures "\"" + k + "\":null" == "\"" + k + "\":" + "null"
  {}

  lemma PairText(k: string, w: string, c: string)
    ensures "\"" + k + "\":[" + w + "," + c + "]" == "\"" + k + "\":" + ("[" + w + "," + c + "]")
  {}

  // --- Sequences of fields ---

  function PutAll(d: Doc, fs: seq<Field>): Doc {
    if fs == [] then d else Put(PutAll(d, fs[..|fs| - 1]), fs[|fs| - 1])
  }

  /** The fields that found room, in order. */
  function Kept(d: Doc, fs: seq<Field>): seq<Member> {
    if fs == [] then []
    else
      var before, f := PutAll(d, fs[..|fs| - 1]), fs[|fs| - 1];
      Kept(d, fs[..|fs| - 1]) + if Put(before, f).text != before.text then [MemberOf(f)] else []
  }

  predicate Writable(fs: seq<Field>) {
    forall i :: 0 <= i < |fs| ==> Short(fs[i]) && PlainKey(fs[i])
  }

  lemma JoinMore(ms: seq<Member>, m: Member)
    ensures Join(ms + [m]) == Join(ms) + (if ms != [] then "," else "") + Render(m)
  {
    assert (ms + [m])[..|ms|] == ms;
  }

  /** The text is what was there followed by whole fields with single commas. */
  ghost predicate WholeFields(d: Doc, fs: seq<Field>, e: Doc, kept: seq<Member>) {
    && e.text == d.text + Join(kept) && e.cap == d.cap
    && (e.comma <==> kept != [])
    && (e.overflow <==> d.overflow || |kept| < |fs|)
    && |kept| <= |fs|
    && (|kept| == |fs| ==> kept == Members(fs))
  }

  /** With or without overflow, fields are whole; overflow is set exactly when some field was dropped. */
  lemma {:induction false} FieldsAreWhole(d: Doc, fs: seq<Field>)
    requires Writable(fs) && !d.comma
    ensures WholeFields(d, fs, PutAll(d, fs), Kept(d, fs))
  {
    hide Put, Render, Short, PlainKey, WholeFields;
    if fs == [] {
      NoFields(d);
    } else {
      var rest, f := fs[..|fs| - 1], fs[|fs| - 1];
      FieldsAreWhole(d, rest);
      var before := PutAll(d, rest);
      PutIsRender(before, f);
      FieldKept(before, Render(MemberOf(f)));
      RenderNotEmpty(MemberOf(f));
      if Put(before, f).text != before.text {
        OneMoreField(d, rest, before, Kept(d, rest), f);
      } else {
        OneDropped(d, rest, before, Kept(d, rest), f);
        assert Kept(d, rest) + [] == Kept(d, rest);
      }
      assert rest + [f] == fs;
    }
  }

  lemma NoFields(d: Doc)
    requires !d.comma
    ensures WholeFields(d, [], d, [])
  {
    assert Join([]) == "" && d.text + "" == d.text;
  }

  lemma OneMoreField(d: Doc, rest: seq<Field>, before: Doc, kept: seq<Member>, f: Field)
    requires WholeFields(d, rest, before, kept)
    ensures WholeFields(d, rest + [f],
                        before.(text := before.text + Comma(before) + Render(MemberOf(f)), comma := true),
                        kept + [MemberOf(f)])
  {
    hide Render, Join;
    JoinMore(kept, MemberOf(f));
    if |kept| == |rest| {
      assert kept + [MemberOf(f)] == Members(rest + [f]);
    }
  }

  lemma OneDropped(d: Doc, rest: seq<Field>, before: Doc, kept: seq<Member>, f: Field)
    requires WholeFields(d, rest, before, kept)
    ensures WholeFields(d, rest + [f], before.(overflow := true), kept)
  {
    hide Join;
  }

  lemma FieldKept(d: Doc, field: string)
    ensures var e := PutField(d, field);
            && e.cap == d.cap
            && (e.text != d.text ==> e == d.(text := d.text + Comma(d) + field, comma := true))
            && (e.text == d.text && field != "" ==> e == d.(overflow := true))
  {
    if field != "" { assert |d.text + Comma(d) + field| > |d.text|; }
  }

  lemma RenderNotEmpty(m: Member)
    ensures Render(m) != ""
  {}

  function Members(fs: seq<Field>): seq<Member> {
    seq(|fs|, i requires 0 <= i < |fs| => MemberOf(fs[i]))
  }

  /** What an empty buffer of `cap` bytes is after an object is written to it. */
  function Object(cap: nat, fs: seq<Field>): Doc {
    PutEnd(PutAll(PutBegin(Doc("", cap, false, false)), fs))
  }

  predicate ValidNumbers(fs: seq<Field>) {
    forall i :: 0 <= i < |fs| ==> ValidValue(MemberOf(fs[i]).value)
  }

  /** An object that did not overflow reads back as the same ordered keys and values. */
  lemma NoOverflowRoundTrip(cap: nat, fs: seq<Field>)
    requires Writable(fs) && ValidNumbers(fs)
    requires !Object(cap, fs).overflow
    ensures ReadObject(Object(cap, fs).text) == Got(Members(fs), "")
  {
    hide Short, PlainKey, ReadObject, Join, ValidValue;
    var begun := PutBegin(Doc("", cap, false, false));
    FieldsAreWhole(begun, fs);
    assert !PutAll(begun, fs).overflow && !begun.overflow;
    assert begun.text == "{";
    assert Object(cap, fs).text == "{" + Join(Members(fs)) + "}";
    ObjectRoundTrip(Members(fs));
  }

  // --- Fields that do not fit their local buffer ---

  /** Whatever the size of the buffer: if nothing overflowed, the object of this one field reads back. */
  ghost predicate ReadsBack(f: Field) {
    forall cap: nat :: ReadsBackIn(cap, f)
  }

  ghost predicate ReadsBackIn(cap: nat, f: Field) {
    !Object(cap, [f]).overflow ==> ReadObject(Object(cap, [f]).text) == Got([MemberOf(f)], "")
  }

  lemma OneField(cap: nat, f: Field)
    ensures Object(cap, [f]) == PutEnd(Put(PutBegin(Doc("", cap, false, false)), f))
    ensures Members([f]) == [MemberOf(f)]
  {
    hide Put;
    var begun := PutBegin(Doc("", cap, false, false));
    assert [f][..0] == [];
    assert PutAll(begun, [f][..0]) == begun;
  }

  /** A string field that is not short overflows any buffer; so does what follows. */
  lemma LongStringOverflows(cap: nat, f: Field)
    requires f.StrField? && (|Escape(f.key)| >= 64 || |Escape(f.val)| >= 1024)
    ensures Object(cap, [f]).overflow
  {
    hide Escape;
    OneField(cap, f);
  }

  /** Any other field that is not short is cut without a sign, and no reader gets it back: the text left
      is shorter than the member needs. */
  lemma CutFieldIsLost(cap: nat, f: Field)
    requires !f.StrField? && !Short(f)
    ensures Object(cap, [f]).text == "{" + Cut(Printed(f), LocalCap(f)) + "}" ==>
              ReadObject(Object(cap, [f]).text) != Got([MemberOf(f)], "")
  {
    hide ReadObject, Object;
    var text := "{" + Cut(Printed(f), LocalCap(f)) + "}";
    ObjectTakes(text);
    assert |Printed(f)| == |f.key| + 3 + LeastText(MemberOf(f).value);
    assert |text| == LocalCap(f) + 1 < |Printed(f)| + 2;
  }

  lemma ShortIs(f: Field)
    ensures !f.StrField? ==>
              (Short(f) <==> match f
                             case StrField(_, _) => true
                             case RealField(k, t) => if t.Some? then |k| + |t.value| + 3 < 128 else |k| + 7 < 64
                             case LongField(k, t) => |k| + |t| + 3 < 64
                             case NullField(k) => |k| + 7 < 64
                             case PairField(k, w, c) => |k| + |w| + |c| + 6 < 128)
  {}

  lemma NotShort(f: Field)
    requires f.StrField? && !Short(f)
    ensures |Escape(f.key)| >= 64 || |Escape(f.val)| >= 1024
  {}

  lemma RoomForCut(f: Field)
    requires !f.StrField?
    ensures var cap := LocalCap(f) + 3;
            !Object(cap, [f]).overflow && Object(cap, [f]).text == "{" + Cut(Printed(f), LocalCap(f)) + "}"
  {
    hide Printed;
    OneField(LocalCap(f) + 3, f);
  }

  /** When does a field that does not overflow read back? A string field always; any other exactly when
      it fits its local buffer, of 64 or 128 bytes, because it is cut there and overflow is not set. */
  lemma ReadsBackIffShort(f: Field)
    requires PlainKey(f) && ValidValue(MemberOf(f).value)
    ensures ReadsBack(f) <==> match f
                              case StrField(_, _) => true
                              case RealField(k, t) => if t.Some? then |k| + |t.value| + 3 < 128 else |k| + 7 < 64
                              case LongField(k, t) => |k| + |t| + 3 < 64
                              case NullField(k) => |k| + 7 < 64
                              case PairField(k, w, c) => |k| + |w| + |c| + 6 < 128
  {
    ShortIs(f);
    hide Object, ReadObject, Short, PlainKey, ValidValue;
    if f.StrField? || Short(f) {
      forall cap: nat ensures ReadsBackIn(cap, f) {
        if Short(f) {
          OneField(cap, f);
          if !Object(cap, [f]).overflow { NoOverflowRoundTrip(cap, [f]); }
        } else {
          NotShort(f);
          LongStringOverflows(cap, f);
        }
      }
    } else {
      RoomForCut(f);
      CutFieldIsLost(LocalCap(f) + 3, f);
      assert !ReadsBackIn(LocalCap(f) + 3, f);
    }
  }

  /** One such field: a NULL under a key of sixty letters. */
  lemma LongNullIsLost()
    ensures var f := NullField(seq(60, _ => 'k'));
            PlainKey(f) && !ReadsBack(f)
  {
    var f := NullField(seq(60, _ => 'k'));
    Repeated('k', 60);
    assert |Printed(f)| == 67;
    ReadsBackIffShort(f);
  }

  lemma {:induction false} Repeated(c: char, n: nat)
    requires EscapeChar(c) == [c]
    ensures Escape(seq(n, _ => c)) == seq(n, _ => c)
  {
    if n > 0 {
      var s := seq(n, _ => c);
      Repeated(c, n - 1);
      assert s[..n - 1] == seq(n - 1, _ => c);
      assert s == s[..n - 1] + [c];
    }
  }

  // --- Array elements ---

  /** One element of an open array of strings; it is dropped, and nothing says so, when its escape does
      not fit its buffer or the element does not fit the text. */
  function PutElement(d: Doc, s: string, emitted: bool): (Doc, bool) {
    var element := (if emitted then "," else "") + "\"" + Escape(s) + "\"";
    if |Escape(s)| >= 96 || |element| >= 112 || |d.text| + |element| >= d.cap then (d, emitted)
    else (d.(text := d.text + element), true)
  }

  // --- json_escape ---

  lemma {:induction false} EscapePrefix(s: string, i: nat)
    requires i <= |s|
    ensures |Escape(s[..i])| <= |Escape(s)|
  {
    if i < |s| {
      EscapePrefix(s[..|s| - 1], i);
      assert s[..|s| - 1][..i] == s[..i];
    } else {
      assert s[..i] == s;
    }
  }

  lemma EscapeNext(s: string, i: nat)
    requires i < |s|
    ensures Escape(s[..i + 1]) == Escape(s[..i]) + EscapeChar(s[i])
  {
    hide EscapeChar;
    assert s[..i + 1][..i] == s[..i];
  }

  /** memcpy behind the first `at` characters. */
  method CopyTo(dst: array<char>, at: nat, text: string)
    requires at + |text| <= dst.Length
    modifies dst
    ensures dst[..at + |text|] == old(dst[..at]) + text
  {
    for k := 0 to |text|
      invariant dst[..at] == old(dst[..at])
      invariant dst[at..at + k] == text[..k]
    {
      dst[at + k] := text[k];
    }
    assert dst[..at + |text|] == dst[..at] + dst[at..at + |text|];
  }

  /** Escape `src` into `dst`: the length written, or -1 if it does not fit with its NUL. */
  method JsonEscape(dst: array<char>, src: string) returns (o: int)
    modifies dst
    ensures o == if |Escape(src)| < dst.Length then |Escape(src)| else -1
    ensures o >= 0 ==> dst[..o] == Escape(src) && dst[o] == NUL
  {
    hide EscapeChar, Escape;
    EscapeNothing();
    assert src[..0] == "";
    if dst.Length == 0 { return -1; }
    o := 0;
    for i := 0 to |src|
      invariant 0 <= o < dst.Length && dst[..o] == Escape(src[..i])
    {
      EscapeNext(src, i);
      EscapePrefix(src, i + 1);
      var rep := EscapeChar(src[i]);
      if o + |rep| >= dst.Length { return -1; }
      CopyTo(dst, o, rep);
      o := o + |rep|;
    }
    assert src[..|src|] == src;
    dst[o] := NUL;
  }

  // --- The buffer ---

  class JBuf {
    const buf: array<char>
    var pos: nat
    var comma: bool
    var overflow: bool

    /** A NUL closes the text, inside the buffer. */
    ghost predicate Valid()
      reads this, buf
    {
      if buf.Length == 0 then pos == 0 else pos < buf.Length && buf[pos] == NUL
    }

    ghost function Contents(): Doc
      requires Valid()
      reads this, buf
    {
      Doc(buf[..pos], buf.Length, comma, overflow)
    }

    /** `jbuf_init` */
    constructor (buf: array<char>)
      modifies buf
      ensures this.buf == buf && Valid() && Contents() == Doc("", buf.Length, false, false)
    {
      this.buf := buf;
      pos, comma, overflow := 0, false, false;
      new;
      if buf.Length > 0 { buf[0] := NUL; }
    }

    method Raw(s: string)
      requires Valid()
      modifies this`pos, this`overflow, buf
      ensures Valid() && Contents() == PutRaw(old(Contents()), s)
    {
      if pos + |s| >= buf.Length {
        overflow := true;
        return;
      }
      CopyTo(buf, pos, s);
      pos := pos + |s|;
      buf[pos] := NUL;
      assert buf[..pos] == old(buf[..pos]) + s;
    }

    method Sep()
      requires Valid()
      modifies this, buf
      ensures Valid() && Contents() == PutSep(old(Contents()))
    {
      if comma { Raw(","); }
      comma := true;
    }

    method Begin()
      requires Valid()
      modifies this, buf
      ensures Valid() && Contents() == PutBegin(old(Contents()))
    {
      Raw("{");
      comma := false;
    }

    method End()
      requires Valid()
      modifies this, buf
      ensures Valid() && Contents() == PutEnd(old(Contents()))
    {
      Raw("}");
    }

    /** `jbuf_field` */
    method FieldText(field: string) returns (rc: int)
      requires Valid()
      modifies this, buf
      ensures Valid() && Contents() == PutField(old(Contents()), field)
      ensures rc == 0 || (rc == -1 && overflow)
    {
      if pos + (if comma then 1 else 0) + |field| >= buf.Length {
        overflow := true;
        return -1;
      }
      Sep();
      Raw(field);
      return 0;
    }

    /** `jbuf_str`, `jbuf_real`, `jbuf_long`, `jbuf_null` and `jbuf_pair`. */
    method Write(f: Field)
      requires Valid()
      modifies this, buf
      ensures Valid() && Contents() == Put(old(Contents()), f)
    {
      hide Escape, PutField;
      if f.StrField? {
        var ekey, eval := new char[64](_ => NUL), new char[1024](_ => NUL);
        var k := JsonEscape(ekey, f.key);
        var v := -1;
        if k >= 0 { v := JsonEscape(eval, f.val); }
        if k < 0 || v < 0 {
          overflow := true;
          return;
        }
        var tmp := "\"" + ekey[..k] + "\":\"" + eval[..v] + "\"";
        assert tmp == Printed(f);
        var rc := FieldText(tmp);
        if rc != 0 { overflow := true; }
      } else {
        var rc := FieldText(Cut(Printed(f), LocalCap(f)));
      }
    }

    /** `jbuf_array_str` */
    method Element(s: string, emitted: bool) returns (now: bool)
      requires Valid()
      modifies this, buf
      ensures Valid() && (Contents(), now) == PutElement(old(Contents()), s, emitted)
    {
      hide Escape;
      var esc := new char[96](_ => NUL);
      var n := JsonEscape(esc, s);
      if n < 0 { return emitted; }
      var tmp := (if emitted then "," else "") + "\"" + esc[..n] + "\"";
      if |tmp| >= 112 || pos + |tmp| >= buf.Length { return emitted; }
      Raw(tmp);
      return true;
    }

    /** One object of the given fields, in a fresh buffer. When nothing overflowed, a reader gets the
        same ordered keys and values back; either way the text is closed by its NUL. */
    method WriteObject(fs: seq<Field>)
      requires Valid() && Contents() == Doc("", buf.Length, false, false)
      modifies this, buf
      ensures Valid() && Contents() == Object(buf.Length, fs)
      ensures !overflow && Writable(fs) && ValidNumbers(fs) ==> ReadObject(buf[..pos]) == Got(Members(fs), "")
    {
      hide Put, ReadObject, Writable, ValidNumbers;
      Begin();
      for i := 0 to |fs|
        invariant Valid() && Contents() == PutAll(PutBegin(old(Contents())), fs[..i])
      {
        assert fs[..i + 1][..i] == fs[..i];
        Write(fs[i]);
      }
      assert fs[..|fs|] == fs;
      End();
      if !overflow && Writable(fs) && ValidNumbers(fs) {
        NoOverflowRoundTrip(buf.Length, fs);
      }
    }
  }
}
