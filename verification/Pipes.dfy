/** Draining the two pipes of a child: the poll loop as one process among two, over bounded pipes. */
module Pipes {

  newtype byte = b: int | 0 <= b < 256

  type pos = n: nat | n > 0 witness 1

  datatype Stream = Out | Err

  /** One byte the child writes, and where. */
  datatype Write = Write(to: Stream, value: byte)

  /** What the child has yet to put on a stream, in order. */
  function Bytes(script: seq<Write>, to: Stream): seq<byte> {
    if script == [] then []
    else (if script[0].to == to then [script[0].value] else []) + Bytes(script[1..], to)
  }

  // --- One captured stream ---

  /** How many bytes `sink_read` asks for: what is left of the buffer before its NUL, else a scratch
      buffer's worth to drop. */
  function Wanted(kept: seq<byte>, cap: nat): pos {
    if |kept| + 1 < cap then cap - 1 - |kept| else 1024
  }

  /** The kept bytes after reading a chunk. */
  function Keep(kept: seq<byte>, cap: nat, chunk: seq<byte>): seq<byte> {
    if |kept| + 1 < cap then kept + chunk else kept
  }

  /** The first cap - 1 bytes of what was read. */
  function Prefix(got: seq<byte>, cap: nat): seq<byte> {
    if cap == 0 then [] else if |got| < cap then got else got[..cap - 1]
  }

  lemma PrefixIs(got: seq<byte>, cap: nat)
    ensures Prefix(got, cap) <= got
    ensures |Prefix(got, cap)| == if cap == 0 then 0 else if |got| < cap then |got| else cap - 1
  {}

  /** A chunk no longer than wanted keeps the prefix a prefix. */
  lemma KeepIsPrefix(got: seq<byte>, cap: nat, chunk: seq<byte>)
    requires |chunk| <= Wanted(Prefix(got, cap), cap)
    ensures Keep(Prefix(got, cap), cap, chunk) == Prefix(got + chunk, cap)
  {}

  class Sink {
    const buf: array<byte>
    var len: nat
    ghost var got: seq<byte>

    ghost predicate Valid()
      reads this, buf
    {
      len <= buf.Length && (buf.Length > 0 ==> len < buf.Length) && buf[..len] == Prefix(got, buf.Length)
    }

    constructor (buf: array<byte>)
      ensures this.buf == buf && Valid() && got == []
    {
      this.buf := buf;
      len := 0;
      got := [];
    }

    /** `sink_read` on a pipe that delivers `chunk`, empty at end of stream. */
    method Read(chunk: seq<byte>) returns (more: bool)
      requires Valid() && |chunk| <= Wanted(Prefix(got, buf.Length), buf.Length)
      modifies this, buf
      ensures Valid() && got == old(got) + chunk
      ensures more <==> chunk != []
    {
      KeepIsPrefix(got, buf.Length, chunk);
      if |chunk| == 0 {
        assert got + chunk == got;
        return false;
      }
      if len + 1 < buf.Length {
        for i := 0 to |chunk|
          invariant len == old(len) && got == old(got)
          invariant buf[..len] == old(buf[..len])
          invariant buf[len..len + i] == chunk[..i]
        {
          buf[len + i] := chunk[i];
        }
        assert buf[..len + |chunk|] == buf[..len] + buf[len..len + |chunk|];
        len := len + |chunk|;
      }
      got := got + chunk;
      return true;
    }

    /** The NUL `drain_both` writes last. */
    method Terminate()
      requires Valid()
      modifies buf
      ensures Valid() && (buf.Length > 0 ==> buf[len] == 0)
      ensures buf[..len] == Prefix(got, buf.Length)
    {
      if buf.Length > 0 {
        buf[len] := 0;
      }
    }
  }

  // --- The protocol ---

  /** One pipe and the reader's end of it: bytes in flight, bytes read, what the sink keeps of them,
      and whether the reader still polls it. */
  datatype Lane = Lane(room: pos, pipe: seq<byte>, got: seq<byte>, kept: seq<byte>, cap: nat, open: bool)

  /** Where the poll loop is: about to poll, or serving the descriptors a poll reported. */
  datatype Pc = Polling | ServingOut(outReady: bool, errReady: bool) | ServingErr(ready: bool) | Done

  datatype State = State(left: seq<Write>, exited: bool, outLane: Lane, errLane: Lane, pc: Pc)

  function LaneOf(s: State, i: Stream): Lane {
    if i == Out then s.outLane else s.errLane
  }

  function WithLane(s: State, i: Stream, l: Lane): State {
    if i == Out then s.(outLane := l) else s.(errLane := l)
  }

  function Start(script: seq<Write>, outRoom: pos, errRoom: pos, outCap: nat, errCap: nat): State {
    State(script, false, Lane(outRoom, [], [], [], outCap, true), Lane(errRoom, [], [], [], errCap, true), Polling)
  }

  /** POLLIN or POLLHUP on a descriptor still polled. */
  predicate Ready(s: State, i: Stream) {
    LaneOf(s, i).open && (LaneOf(s, i).pipe != [] || s.exited)
  }

  /** The child puts its next byte on a pipe with room; otherwise the write blocks. */
  predicate ChildWrites(s: State, s': State) {
    && !s.exited && s.left != []
    && var l := LaneOf(s, s.left[0].to);
       |l.pipe| < l.room
       && s' == WithLane(s, s.left[0].to, l.(pipe := l.pipe + [s.left[0].value])).(left := s.left[1..])
  }

  predicate ChildExits(s: State, s': State) {
    !s.exited && s.left == [] && s' == s.(exited := true)
  }

  /** One `sink_read`: some of the bytes in the pipe, or the end of the stream. It blocks on an empty
      pipe the child can still write to. */
  predicate Reads(s: State, i: Stream, s': State, n: nat) {
    var l := LaneOf(s, i);
    if l.pipe == [] then s.exited && n == 0 && s' == WithLane(s, i, l.(open := false))
    else
      && 0 < n <= |l.pipe| && n <= Wanted(l.kept, l.cap)
      && s' == WithLane(s, i, l.(pipe := l.pipe[n..], got := l.got + l.pipe[..n],
                                 kept := Keep(l.kept, l.cap, l.pipe[..n])))
  }

  predicate Polls(s: State, s': State) {
    && s.pc == Polling
    && if !s.outLane.open && !s.errLane.open then s' == s.(pc := Done)
       else (Ready(s, Out) || Ready(s, Err)) && s' == s.(pc := ServingOut(Ready(s, Out), Ready(s, Err)))
  }

  /** Serving one descriptor: a read if the poll reported it, else nothing. */
  ghost predicate Serves(s: State, i: Stream, ready: bool, m: State) {
    if ready then exists n: nat :: Reads(s, i, m, n) else m == s
  }

  ghost predicate ServesOut(s: State, s': State) {
    s.pc.ServingOut? && exists m :: Serves(s, Out, s.pc.outReady, m) && s' == m.(pc := ServingErr(s.pc.errReady))
  }

  ghost predicate ServesErr(s: State, s': State) {
    s.pc.ServingErr? && exists m :: Serves(s, Err, s.pc.ready, m) && s' == m.(pc := Polling)
  }

  /** One step of either process. */
  ghost predicate Next(s: State, s': State) {
    ChildWrites(s, s') || ChildExits(s, s') || Polls(s, s') || ServesOut(s, s') || ServesErr(s, s')
  }

  // --- What every state keeps ---

  ghost predicate LaneInv(l: Lane, s: State, total: seq<byte>, i: Stream) {
    && l.got + l.pipe + Bytes(s.left, i) == total
    && l.kept == Prefix(l.got, l.cap)
    && (!l.open ==> s.exited && l.pipe == [])
  }

  ghost predicate Inv(s: State, script: seq<Write>) {
    && LaneInv(s.outLane, s, Bytes(script, Out), Out)
    && LaneInv(s.errLane, s, Bytes(script, Err), Err)
    && (s.exited ==> s.left == [])
    && (s.pc.ServingOut? ==> (s.pc.outReady ==> Ready(s, Out)) && (s.pc.errReady ==> Ready(s, Err)) && (s.pc.outReady || s.pc.errReady))
    && (s.pc.ServingErr? && s.pc.ready ==> Ready(s, Err))
    && (s.pc == Done ==> !s.outLane.open && !s.errLane.open)
  }

  lemma StartInv(script: seq<Write>, outRoom: pos, errRoom: pos, outCap: nat, errCap: nat)
    ensures Inv(Start(script, outRoom, errRoom, outCap, errCap), script)
  {}

  lemma ReadKeepsLane(s: State, i: Stream, s': State, n: nat, total: seq<byte>)
    requires LaneInv(LaneOf(s, i), s, total, i) && Reads(s, i, s', n)
    ensures LaneInv(LaneOf(s', i), s', total, i)
  {
    var l, l' := LaneOf(s, i), LaneOf(s', i);
    if l.pipe != [] {
      hide Prefix, Keep, Wanted, Bytes;
      KeepIsPrefix(l.got, l.cap, l.pipe[..n]);
      Regroup(l.got, l.pipe, n, Bytes(s.left, i));
    }
  }

  lemma Regroup(got: seq<byte>, pipe: seq<byte>, n: nat, left: seq<byte>)
    requires n <= |pipe|
    ensures got + pipe[..n] + pipe[n..] + left == got + pipe + left
  {
    assert pipe == pipe[..n] + pipe[n..];
    assert got + pipe[..n] + pipe[n..] == got + pipe;
  }

  lemma NextKeepsInv(s: State, s': State, script: seq<Write>)
    requires Inv(s, script) && Next(s, s')
    ensures Inv(s', script)
  {
    hide Inv, ServesOut, ServesErr, ChildWrites, ChildExits, Polls;
    if ServesOut(s, s') { ServingOutKeeps(s, s', script); }
    else if ServesErr(s, s') { ServingErrKeeps(s, s', script); }
    else if ChildWrites(s, s') { WritingKeeps(s, s', script); }
    else if ChildExits(s, s') { ExitKeeps(s, s', script); }
    else { PollKeeps(s, s', script); }
  }

  lemma ServingOutKeeps(s: State, s': State, script: seq<Write>)
    requires Inv(s, script) && ServesOut(s, s')
    ensures Inv(s', script)
  {
    hide Prefix, Keep, Wanted, Bytes;
    var m :| Serves(s, Out, s.pc.outReady, m) && s' == m.(pc := ServingErr(s.pc.errReady));
    if s.pc.outReady {
      var n: nat :| Reads(s, Out, m, n);
      ReadKeepsLane(s, Out, m, n, Bytes(script, Out));
    }
  }

  lemma ServingErrKeeps(s: State, s': State, script: seq<Write>)
    requires Inv(s, script) && ServesErr(s, s')
    ensures Inv(s', script)
  {
    hide Prefix, Keep, Wanted, Bytes;
    var m :| Serves(s, Err, s.pc.ready, m) && s' == m.(pc := Polling);
    if s.pc.ready {
      var n: nat :| Reads(s, Err, m, n);
      ReadKeepsLane(s, Err, m, n, Bytes(script, Err));
    }
  }

  lemma WritingKeeps(s: State, s': State, script: seq<Write>)
    requires Inv(s, script) && ChildWrites(s, s')
    ensures Inv(s', script)
  {
    hide Prefix, Bytes;
    WriteKeepsLane(s, s', Out, Bytes(script, Out));
    WriteKeepsLane(s, s', Err, Bytes(script, Err));
  }

  lemma ExitKeeps(s: State, s': State, script: seq<Write>)
    requires Inv(s, script) && ChildExits(s, s')
    ensures Inv(s', script)
  {
    hide Prefix, Bytes;
  }

  lemma PollKeeps(s: State, s': State, script: seq<Write>)
    requires Inv(s, script) && Polls(s, s')
    ensures Inv(s', script)
  {
    hide Prefix, Bytes;
  }

  lemma WriteKeepsLane(s: State, s': State, i: Stream, total: seq<byte>)
    requires LaneInv(LaneOf(s, i), s, total, i) && ChildWrites(s, s')
    ensures LaneInv(LaneOf(s', i), s', total, i)
  {
    var l, l' := LaneOf(s, i), LaneOf(s', i);
    assert l.got + l.pipe + Bytes(s.left, i) == l'.got + l'.pipe + Bytes(s'.left, i);
  }

  // --- No deadlock ---

  lemma CanRead(s: State, i: Stream) returns (s': State, n: nat)
    requires LaneOf(s, i).pipe != [] || s.exited
    ensures Reads(s, i, s', n)
  {
    var l := LaneOf(s, i);
    if l.pipe == [] {
      s', n := WithLane(s, i, l.(open := false)), 0;
    } else {
      n := 1;
      s' := WithLane(s, i, l.(pipe := l.pipe[n..], got := l.got + l.pipe[..n], kept := Keep(l.kept, l.cap, l.pipe[..n])));
    }
  }

  /** In no state the invariant allows are the two processes stuck before both streams have ended. */
  lemma NeverStuck(s: State, script: seq<Write>)
    requires Inv(s, script) && s.pc != Done
    ensures exists s' :: Next(s, s')
  {
    match s.pc
    case ServingOut(outReady, errReady) =>
      var m := s;
      if outReady { var n; m, n := CanRead(s, Out); }
      assert Serves(s, Out, outReady, m);
      assert ServesOut(s, m.(pc := ServingErr(errReady)));
      assert Next(s, m.(pc := ServingErr(errReady)));
    case ServingErr(ready) =>
      var m := s;
      if ready { var n; m, n := CanRead(s, Err); }
      assert Serves(s, Err, ready, m);
      assert ServesErr(s, m.(pc := Polling));
      assert Next(s, m.(pc := Polling));
    case Polling =>
      if !s.outLane.open && !s.errLane.open {
        assert Next(s, s.(pc := Done));
      } else if Ready(s, Out) || Ready(s, Err) {
        assert Next(s, s.(pc := ServingOut(Ready(s, Out), Ready(s, Err))));
      } else if s.left == [] {
        assert Next(s, s.(exited := true));
      } else {
        var i := s.left[0].to;
        var l := LaneOf(s, i);
        assert Next(s, WithLane(s, i, l.(pipe := l.pipe + [s.left[0].value])).(left := s.left[1..]));
      }
  }

  // --- Termination ---

  function Open(l: Lane): nat { if l.open then 1 else 0 }

  /** Unwritten and buffered bytes, and what is still to end. */
  function Work(s: State): nat {
    2 * |s.left| + |s.outLane.pipe| + |s.errLane.pipe| + (if s.exited then 0 else 1) + Open(s.outLane) + Open(s.errLane)
  }

  function Rank(pc: Pc): nat {
    match pc
    case Done => 0
    case ServingErr(ready) => if ready then 1 else 4
    case ServingOut(_, _) => 2
    case Polling => 3
  }

  function Measure(s: State): nat { 8 * Work(s) + Rank(s.pc) }

  /** Every step, of whichever process, brings the end nearer. */
  lemma NextDecreases(s: State, s': State, script: seq<Write>)
    requires Inv(s, script) && Next(s, s')
    ensures Measure(s') < Measure(s)
  {
    hide Prefix, Keep, Wanted, Bytes;
  }

  /** A run of the two processes under any interleaving. */
  ghost predicate IsRun(run: seq<State>, script: seq<Write>, outRoom: pos, errRoom: pos, outCap: nat, errCap: nat) {
    && run != [] && run[0] == Start(script, outRoom, errRoom, outCap, errCap)
    && forall i :: 0 <= i < |run| - 1 ==> Next(run[i], run[i + 1])
  }

  lemma {:induction false} RunInv(run: seq<State>, script: seq<Write>, outRoom: pos, errRoom: pos, outCap: nat, errCap: nat, k: nat)
    requires IsRun(run, script, outRoom, errRoom, outCap, errCap) && k < |run|
    ensures Inv(run[k], script) && Measure(run[k]) + k <= Measure(run[0])
    ensures run[k].outLane.cap == outCap && run[k].errLane.cap == errCap
  {
    hide Inv, Measure, Next;
    if k == 0 {
      StartInv(script, outRoom, errRoom, outCap, errCap);
    } else {
      RunInv(run, script, outRoom, errRoom, outCap, errCap, k - 1);
      assert Next(run[k - 1], run[k - 1 + 1]);
      NextKeepsInv(run[k - 1], run[k], script);
      NextDecreases(run[k - 1], run[k], script);
      NextKeepsCaps(run[k - 1], run[k]);
    }
  }

  lemma NextKeepsCaps(s: State, s': State)
    requires Next(s, s')
    ensures s'.outLane.cap == s.outLane.cap && s'.errLane.cap == s.errLane.cap
  {}

  /** Whatever the child writes, however the processes interleave, for any pipe sizes: no run is
      longer than its bound, a run that cannot go on has drained both streams, and then each buffer
      holds exactly the first cap - 1 bytes of its stream. */
  lemma DrainsBoth(run: seq<State>, script: seq<Write>, outRoom: pos, errRoom: pos, outCap: nat, errCap: nat)
    requires IsRun(run, script, outRoom, errRoom, outCap, errCap)
    ensures |run| <= 16 * |script| + 28
    ensures var last := run[|run| - 1];
            (forall s' :: !Next(last, s')) ==>
              && last.pc == Done
              && last.outLane.kept == Prefix(Bytes(script, Out), outCap)
              && last.errLane.kept == Prefix(Bytes(script, Err), errCap)
  {
    hide Next;
    var last := run[|run| - 1];
    RunInv(run, script, outRoom, errRoom, outCap, errCap, |run| - 1);
    if forall s' :: !Next(last, s') {
      if last.pc != Done { NeverStuck(last, script); }
      assert last.outLane.got + last.outLane.pipe + Bytes(last.left, Out) == last.outLane.got;
      assert last.errLane.got + last.errLane.pipe + Bytes(last.left, Err) == last.errLane.got;
    }
  }

  // --- One stream to its end first ---

  /** A reader that reads Out to its end and only then Err. `pc` is Polling while it reads Out,
      ServingErr while it reads Err. */
  ghost predicate NextSequential(s: State, s': State) {
    || ChildWrites(s, s')
    || ChildExits(s, s')
    || (s.pc == Polling && exists m: State, n: nat ::
          Reads(s, Out, m, n) && s' == if m.outLane.open then m else m.(pc := ServingErr(true)))
    || (s.pc.ServingErr? && exists m: State, n: nat ::
          Reads(s, Err, m, n) && s' == if m.errLane.open then m else m.(pc := Done))
  }

  ghost predicate Reaches(s: State, t: State, n: nat)
    decreases n
  {
    if n == 0 then s == t else exists m :: NextSequential(s, m) && Reaches(m, t, n - 1)
  }

  ghost predicate Stuck(s: State) {
    s.pc != Done && forall s' :: !NextSequential(s, s')
  }

  ghost predicate CanGetStuck(s: State) {
    exists t, n: nat :: Reaches(s, t, n) && Stuck(t)
  }

  lemma StepThenStuck(s: State, m: State)
    requires NextSequential(s, m) && CanGetStuck(m)
    ensures CanGetStuck(s)
  {
    var t, n: nat :| Reaches(m, t, n) && Stuck(t);
    assert Reaches(s, t, n + 1);
  }

  lemma FullErrIsStuck(s: State)
    requires s.pc == Polling && !s.exited && s.outLane.pipe == [] && s.left != [] && s.left[0].to == Err
    requires |s.errLane.pipe| >= s.errLane.room
    ensures CanGetStuck(s)
  {
    assert Stuck(s);
    assert Reaches(s, s, 0);
  }

  /** While the reader waits on Out, a child with more on Err than its pipe holds blocks for ever. */
  lemma {:induction false} ErrOverflowsPipe(s: State)
    requires s.pc == Polling && !s.exited && s.outLane.pipe == [] && s.outLane.open
    requires |s.errLane.pipe| <= s.errLane.room < |s.errLane.pipe| + |Bytes(s.left, Err)|
    ensures CanGetStuck(s)
    decreases |s.left|
  {
    hide CanGetStuck, Keep, Wanted;
    var w := s.left[0];
    if w.to == Err {
      if |s.errLane.pipe| == s.errLane.room {
        FullErrIsStuck(s);
      } else {
        var m := WithLane(s, Err, s.errLane.(pipe := s.errLane.pipe + [w.value])).(left := s.left[1..]);
        assert ChildWrites(s, m);
        ErrOverflowsPipe(m);
        StepThenStuck(s, m);
      }
    } else {
      var m := WithLane(s, Out, s.outLane.(pipe := [] + [w.value])).(left := s.left[1..]);
      assert ChildWrites(s, m);
      var m', n := CanRead(m, Out);
      assert NextSequential(m, m');
      ErrOverflowsPipe(m');
      StepThenStuck(m, m');
      StepThenStuck(s, m);
    }
  }

  /** Inductively: the child's Err output still fits its pipe. */
  ghost predicate ErrFits(s: State) {
    && |s.errLane.pipe| + |Bytes(s.left, Err)| <= s.errLane.room
    && (s.exited ==> s.left == [])
    && (s.pc == Polling || s.pc.ServingErr? || s.pc == Done)
    && (s.pc == Polling <==> s.outLane.open)
    && (s.pc != Polling ==> s.exited)
    && (s.pc != Done ==> s.errLane.open)
  }

  lemma ErrFitsIsKept(s: State, s': State)
    requires ErrFits(s) && NextSequential(s, s')
    ensures ErrFits(s')
  {
    hide Keep, Wanted;
  }

  lemma ErrFitsNotStuck(s: State)
    requires ErrFits(s)
    ensures !Stuck(s)
  {
    if s.pc == Polling {
      if s.outLane.pipe != [] || s.exited {
        var m, n := CanRead(s, Out);
        assert NextSequential(s, if m.outLane.open then m else m.(pc := ServingErr(true)));
      } else if s.left == [] {
        assert NextSequential(s, s.(exited := true));
      } else {
        var i := s.left[0].to;
        var l := LaneOf(s, i);
        assert NextSequential(s, WithLane(s, i, l.(pipe := l.pipe + [s.left[0].value])).(left := s.left[1..]));
      }
    } else if s.pc.ServingErr? {
      var m, n := CanRead(s, Err);
      assert NextSequential(s, if m.errLane.open then m else m.(pc := Done));
    }
  }

  lemma {:induction false} ErrFitsNeverStuck(s: State, t: State, n: nat)
    requires ErrFits(s) && Reaches(s, t, n)
    ensures !Stuck(t)
    decreases n
  {
    hide Stuck, ErrFits, NextSequential;
    if n == 0 {
      ErrFitsNotStuck(s);
    } else {
      var m :| NextSequential(s, m) && Reaches(m, t, n - 1);
      ErrFitsIsKept(s, m);
      ErrFitsNeverStuck(m, t, n - 1);
    }
  }

  /** Reading one stream to its end first can deadlock exactly when the child writes more to the other
      than its pipe holds. */
  lemma SequentialDeadlockIff(script: seq<Write>, outRoom: pos, errRoom: pos, outCap: nat, errCap: nat)
    ensures CanGetStuck(Start(script, outRoom, errRoom, outCap, errCap)) <==> |Bytes(script, Err)| > errRoom
  {
    var s := Start(script, outRoom, errRoom, outCap, errCap);
    if |Bytes(script, Err)| > errRoom {
      ErrOverflowsPipe(s);
    } else if CanGetStuck(s) {
      var t, n: nat :| Reaches(s, t, n) && Stuck(t);
      ErrFitsNeverStuck(s, t, n);
    }
  }

  /** The reader waits for the end of Out while the child still has more for Err than its pipe holds. */
  ghost predicate OutWaits(s: State) {
    && s.pc == Polling && !s.exited && s.outLane.open
    && |s.errLane.pipe| <= s.errLane.room < |s.errLane.pipe| + |Bytes(s.left, Err)|
  }

  lemma OutWaitsOn(s: State, s': State)
    requires OutWaits(s) && NextSequential(s, s')
    ensures OutWaits(s')
  {
    hide Keep, Wanted;
  }

  lemma {:induction false} OutWaitsForEver(s: State, t: State, n: nat)
    requires OutWaits(s) && Reaches(s, t, n)
    ensures OutWaits(t)
    decreases n
  {
    hide OutWaits, NextSequential;
    if n > 0 {
      var m :| NextSequential(s, m) && Reaches(m, t, n - 1);
      OutWaitsOn(s, m);
      OutWaitsForEver(m, t, n - 1);
    }
  }

  lemma SequentialDecreases(s: State, s': State)
    requires NextSequential(s, s')
    requires s.pc == Polling ==> s.outLane.open
    requires s.pc.ServingErr? ==> s.errLane.open
    ensures Work(s') < Work(s)
  {
    hide Keep, Wanted, Bytes;
  }

  ghost predicate CanFinish(s: State) {
    exists t, n: nat :: Reaches(s, t, n) && t.pc == Done
  }

  lemma {:induction false} ErrFitsFinishes(s: State)
    requires ErrFits(s)
    ensures CanFinish(s)
    decreases Work(s)
  {
    hide NextSequential, Work, Bytes;
    if s.pc == Done {
      assert Reaches(s, s, 0);
    } else {
      ErrFitsNotStuck(s);
      var m :| NextSequential(s, m);
      ErrFitsIsKept(s, m);
      SequentialDecreases(s, m);
      ErrFitsFinishes(m);
      var t, n: nat :| Reaches(m, t, n) && t.pc == Done;
      assert Reaches(s, t, n + 1);
    }
  }

  /** And then it never ends: reading one stream to its end first can finish, under some interleaving,
      exactly when the child writes no more to the other than its pipe holds. With the lemma above:
      either every run can go on to the end, or none gets there. */
  lemma SequentialFinishesIff(script: seq<Write>, outRoom: pos, errRoom: pos, outCap: nat, errCap: nat)
    ensures CanFinish(Start(script, outRoom, errRoom, outCap, errCap)) <==> |Bytes(script, Err)| <= errRoom
  {
    hide NextSequential, Reaches;
    var s := Start(script, outRoom, errRoom, outCap, errCap);
    if |Bytes(script, Err)| <= errRoom {
      ErrFitsFinishes(s);
    } else if CanFinish(s) {
      var t, n: nat :| Reaches(s, t, n) && t.pc == Done;
      OutWaitsForEver(s, t, n);
      assert false;
    }
  }
}
