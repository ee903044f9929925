/** The did-you-mean hint for unknown configuration keys. */
module KeyHints {
  import opened Rows

  // --- Edit distance, by definition ---

  /** One step of rewriting a key: a character kept, replaced, dropped or added. */
  datatype Edit = Keep(c: char) | Replace(c: char, d: char) | Drop(c: char) | Add(d: char)

  function Source(script: seq<Edit>): string {
    if script == [] then ""
    else
      var e := script[|script| - 1];
      Source(script[..|script| - 1]) + if e.Add? then "" else [e.c]
  }

  function Target(script: seq<Edit>): string {
    if script == [] then ""
    else
      var e := script[|script| - 1];
      Target(script[..|script| - 1]) + if e.Drop? then "" else if e.Keep? then [e.c] else [e.d]
  }

  function Cost(script: seq<Edit>): nat {
    if script == [] then 0 else Cost(script[..|script| - 1]) + if script[|script| - 1].Keep? then 0 else 1
  }

  // --- Levenshtein's recurrence ---

  function Min(a: nat, b: nat): nat { if a < b then a else b }

  function Lev(a: string, b: string): nat
    decreases |a|, |b|
  {
    if a == "" then |b|
    else if b == "" then |a|
    else
      var a', b' := a[..|a| - 1], b[..|b| - 1];
      Min(Lev(a', b') + (if a[|a| - 1] == b[|b| - 1] then 0 else 1), Min(Lev(a', b) + 1, Lev(a, b') + 1))
  }

  lemma LevEmpty(a: string)
    ensures Lev(a, "") == |a| && Lev("", a) == |a|
  {}

  lemma LevExtend(a: string, b: string, c: char, d: char)
    ensures Lev(a + [c], b + [d]) <= Lev(a, b) + if c == d then 0 else 1
    ensures Lev(a + [c], b) <= Lev(a, b) + 1
    ensures Lev(a, b + [d]) <= Lev(a, b) + 1
  {
    assert (a + [c])[..|a|] == a && (b + [d])[..|b|] == b;
    if a != "" { assert a == a[..|a| - 1] + [a[|a| - 1]]; }
  }

  /** No script that rewrites one key to the other is cheaper. */
  lemma {:induction false} LevIsLowerBound(script: seq<Edit>)
    ensures Lev(Source(script), Target(script)) <= Cost(script)
  {
    if script != [] {
      var before, e := script[..|script| - 1], script[|script| - 1];
      LevIsLowerBound(before);
      var a, b := Source(before), Target(before);
      match e
      case Keep(c) => LevExtend(a, b, c, c);
      case Replace(c, d) => LevExtend(a, b, c, d);
      case Drop(c) =>
        LevExtend(a, b, c, c);
        assert b + "" == b;
      case Add(d) =>
        LevExtend(a, b, d, d);
        assert a + "" == a;
    }
  }

  /** Some script costs exactly that. */
  lemma {:induction false} LevIsAttained(a: string, b: string) returns (script: seq<Edit>)
    ensures Source(script) == a && Target(script) == b && Cost(script) == Lev(a, b)
    decreases |a|, |b|
  {
    if a == "" && b == "" {
      return [];
    }
    hide Source, Target, Cost;
    if a == "" {
      LevEmpty(b);
      LevEmpty(b[..|b| - 1]);
      hide Lev;
      var before := LevIsAttained(a, b[..|b| - 1]);
      script := Longer(before, Add(b[|b| - 1]), a, b);
    } else if b == "" {
      LevEmpty(a);
      LevEmpty(a[..|a| - 1]);
      hide Lev;
      var before := LevIsAttained(a[..|a| - 1], b);
      script := Longer(before, Drop(a[|a| - 1]), a, b);
    } else {
      var a', b', c, d := a[..|a| - 1], b[..|b| - 1], a[|a| - 1], b[|b| - 1];
      LevLast(a, b);
      hide Lev;
      if Lev(a, b) == Lev(a', b') + (if c == d then 0 else 1) {
        var before := LevIsAttained(a', b');
        script := Longer(before, if c == d then Keep(c) else Replace(c, d), a, b);
      } else if Lev(a, b) == Lev(a', b) + 1 {
        var before := LevIsAttained(a', b);
        script := Longer(before, Drop(c), a, b);
      } else {
        var before := LevIsAttained(a, b');
        script := Longer(before, Add(d), a, b);
      }
    }
  }

  /** A script one edit longer, when the edit accounts for the last characters. */
  lemma Longer(before: seq<Edit>, e: Edit, a: string, b: string) returns (script: seq<Edit>)
    requires if e.Add? then Source(before) == a else a != "" && Source(before) == a[..|a| - 1] && e.c == a[|a| - 1]
    requires if e.Drop? then Target(before) == b
             else b != "" && Target(before) == b[..|b| - 1] && b[|b| - 1] == if e.Keep? then e.c else e.d
    ensures Source(script) == a && Target(script) == b
    ensures Cost(script) == Cost(before) + if e.Keep? then 0 else 1
  {
    script := before + [e];
    assert script[..|script| - 1] == before;
    assert a + "" == a && b + "" == b;
  }

  lemma LevLast(a: string, b: string)
    requires a != "" && b != ""
    ensures var a', b' := a[..|a| - 1], b[..|b| - 1];
            || Lev(a, b) == Lev(a', b') + (if a[|a| - 1] == b[|b| - 1] then 0 else 1)
            || Lev(a, b) == Lev(a', b) + 1
            || Lev(a, b) == Lev(a, b') + 1
  {}

  // --- key_distance ---

  /** The distance the hint works with; 99 for a name too long for the one row. */
  function Distance(a: string, b: string): nat {
    if |b| >= 64 then 99 else Lev(a, b)
  }

  /** The distance of the first `i` characters of `a` to the first `j` of `b`. */
  ghost function Cell(a: string, b: string, i: nat, j: nat): nat
    requires i <= |a| && j <= |b|
  {
    Lev(a[..i], b[..j])
  }

  lemma CellStep(a: string, b: string, i: nat, j: nat)
    requires 0 < i <= |a| && 0 < j <= |b|
    ensures Cell(a, b, i, j)
            == Min(Cell(a, b, i - 1, j - 1) + (if a[i - 1] == b[j - 1] then 0 else 1),
                   Min(Cell(a, b, i - 1, j) + 1, Cell(a, b, i, j - 1) + 1))
  {
    assert a[..i][..i - 1] == a[..i - 1] && b[..j][..j - 1] == b[..j - 1];
  }

  lemma CellEdges(a: string, b: string, i: nat, j: nat)
    requires i <= |a| && j <= |b|
    ensures Cell(a, b, i, 0) == i && Cell(a, b, 0, j) == j
  {
    LevEmpty(a[..i]);
    LevEmpty(b[..j]);
    assert a[..0] == "" && b[..0] == "";
  }

  /** One row of the table, updated in place: row[j] is the distance of the processed prefix of `a`
      to the first j characters of `b`. */
  method KeyDistance(a: string, b: string) returns (d: nat)
    ensures d == Distance(a, b)
  {
    if |b| >= 64 { return 99; }
    var row := new nat[64](_ => 0);
    for j := 0 to |b| + 1
      invariant forall k :: 0 <= k < j ==> row[k] == Cell(a, b, 0, k)
    {
      CellEdges(a, b, 0, j);
      row[j] := j;
    }
    for i := 1 to |a| + 1
      invariant forall k :: 0 <= k <= |b| ==> row[k] == Cell(a, b, i - 1, k)
    {
      NextRow(a, b, i, row);
    }
    assert a[..|a|] == a && b[..|b|] == b;
    return row[|b|];
  }

  /** The inner loop: row `i` from row `i - 1`. */
  method NextRow(a: string, b: string, i: nat, row: array<nat>)
    requires 0 < i <= |a| && |b| < row.Length
    requires forall k :: 0 <= k <= |b| ==> row[k] == Cell(a, b, i - 1, k)
    modifies row
    ensures forall k :: 0 <= k <= |b| ==> row[k] == Cell(a, b, i, k)
  {
    hide Cell;
    var diag := row[0];
    row[0] := i;
    CellEdges(a, b, i, 0);
    for j := 1 to |b| + 1
      invariant diag == Cell(a, b, i - 1, j - 1)
      invariant forall k :: 0 <= k < j ==> row[k] == Cell(a, b, i, k)
      invariant forall k :: j <= k <= |b| ==> row[k] == Cell(a, b, i - 1, k)
    {
      CellStep(a, b, i, j);
      var cur := row[j];
      var best := diag + if a[i - 1] == b[j - 1] then 0 else 1;
      if row[j] + 1 < best { best := row[j] + 1; }
      if row[j - 1] + 1 < best { best := row[j - 1] + 1; }
      row[j] := best;
      diag := cur;
    }
  }

  // --- warn_unknown_in ---

  /** `hint` is the first known key at the least distance from `key`, if that is at most 2. */
  ghost predicate IsHint(key: string, known: seq<string>, hint: Option<string>) {
    match hint
    case None => forall j :: 0 <= j < |known| ==> Distance(key, known[j]) > 2
    case Some(close) => exists j :: 0 <= j < |known| && close == known[j] && FirstNearest(key, known, j)
  }

  ghost predicate FirstNearest(key: string, known: seq<string>, j: nat)
    requires j < |known|
  {
    && Distance(key, known[j]) <= 2
    && forall k :: 0 <= k < |known| ==>
         && Distance(key, known[j]) <= Distance(key, known[k])
         && (k < j ==> Distance(key, known[j]) < Distance(key, known[k]))
  }

  method Hint(key: string, known: seq<string>) returns (hint: Option<string>)
    ensures IsHint(key, known, hint)
  {
    hide Distance;
    var best: nat := 3;
    ghost var at: nat := 0;
    hint := None;
    for j := 0 to |known|
      invariant hint == None ==> best == 3
      invariant hint.Some? ==> at < j && hint.value == known[at] && best == Distance(key, known[at]) <= 2
      invariant forall k :: 0 <= k < j ==> best <= Distance(key, known[k])
      invariant hint.Some? ==> forall k :: 0 <= k < at ==> best < Distance(key, known[k])
    {
      var d := KeyDistance(key, known[j]);
      if d < best {
        best, at, hint := d, j, Some(known[j]);
      }
    }
    if hint.Some? {
      assert FirstNearest(key, known, at);
    }
  }

  /** The keys of a table that are not known, in order. */
  function Unknown(keys: seq<string>, known: seq<string>): seq<string> {
    if keys == [] then []
    else
      var k := keys[|keys| - 1];
      Unknown(keys[..|keys| - 1], known) + if k in known then [] else [k]
  }

  /** One warning per unknown key, in order, each with its hint; returns their number. */
  method WarnUnknown(keys: seq<string>, known: seq<string>) returns (unknown: nat, hints: seq<Option<string>>)
    ensures unknown == |hints| == |Unknown(keys, known)|
    ensures forall i :: 0 <= i < |hints| ==> IsHint(Unknown(keys, known)[i], known, hints[i])
  {
    hide IsHint;
    unknown, hints := 0, [];
    for i := 0 to |keys|
      invariant unknown == |hints| == |Unknown(keys[..i], known)|
      invariant forall j :: 0 <= j < |hints| ==> IsHint(Unknown(keys[..i], known)[j], known, hints[j])
    {
      assert keys[..i + 1][..i] == keys[..i];
      var found := false;
      for j := 0 to |known|
        invariant found <==> keys[i] in known[..j]
      {
        assert known[..j + 1] == known[..j] + [known[j]];
        if !found { found := keys[i] == known[j]; }
      }
      assert known[..|known|] == known;
      if found { continue; }
      unknown := unknown + 1;
      var hint := Hint(keys[i], known);
      hints := hints + [hint];
    }
    assert keys[..|keys|] == keys;
  }

  /** A hint is within two edits of the key, and a key that is known needs none: its distance is 0 only
      from itself. */
  lemma {:induction false} ZeroDistance(a: string, b: string)
    ensures Lev(a, b) == 0 <==> a == b
    decreases |a|, |b|
  {
    if a != "" && b != "" {
      ZeroDistance(a[..|a| - 1], b[..|b| - 1]);
      assert a == a[..|a| - 1] + [a[|a| - 1]] && b == b[..|b| - 1] + [b[|b| - 1]];
      if a == b { assert a[..|a| - 1] == b[..|b| - 1]; }
    }
  }
}
