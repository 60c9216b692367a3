/**
  Reasoning events of one task handled at the same time (cmd/hufu/display.go).  Each operation
  on the buffers is atomic under their lock, but a handler uses several: it appends, reads the
  text, and then either flushes or takes lines off one by one.
*/
module TextRaces {
  import opened Sequences
  import opened Texts
  import opened TextBuffers

  /** Where one handler is after its append: about to read, to flush what it read, or to split. */
  datatype Phase = Reading | Flushing(copy: string) | Splitting

  /** What left the buffer: a line, or all of it while a handler sent the copy it had read. */
  datatype Piece = Line(line: string) | Whole(copy: string, flushed: string)

  datatype State = State(buffer: string, handlers: map<nat, Phase>, came: string, pieces: seq<Piece>)

  const START := State("", map[], "", [])

  datatype Step = Append(h: nat, text: string) | Read(h: nat) | Flush(h: nat) | Split(h: nat)

  predicate Enabled(s: State, step: Step) {
    match step
    case Append(h, _) => h !in s.handlers
    case Read(h) => h in s.handlers && s.handlers[h].Reading?
    case Flush(h) => h in s.handlers && s.handlers[h].Flushing?
    case Split(h) => h in s.handlers && s.handlers[h].Splitting?
  }

  function Do(s: State, step: Step): State
    requires Enabled(s, step)
  {
    match step
    case Append(h, text) =>
      s.(buffer := s.buffer + text, came := s.came + text, handlers := s.handlers[h := Reading])
    case Read(h) =>
      s.(handlers := s.handlers[h := if |s.buffer| > LIMIT then Flushing(s.buffer) else Splitting])
    case Flush(h) =>
      State("", s.handlers - {h}, s.came, s.pieces + [Whole(s.handlers[h].copy, s.buffer)])
    case Split(h) =>
      var e := IndexOf(s.buffer, '\n');
      if e == |s.buffer| then s.(handlers := s.handlers - {h})
      else s.(buffer := s.buffer[e + 1..], pieces := s.pieces + [Line(s.buffer[..e])])
  }

  ghost predicate Next(s: State, t: State) {
    exists step :: Enabled(s, step) && t == Do(s, step)
  }

  /** State `i` is reached by one step from the one before. */
  ghost predicate StepAt(run: seq<State>, i: nat)
    requires 0 < i < |run|
  {
    Next(run[i - 1], run[i])
  }

  ghost predicate IsRun(run: seq<State>) {
    && run != [] && run[0] == START
    && forall i | 0 < i < |run| :: StepAt(run, i)
  }

  function Last(run: seq<State>): State
    requires run != []
  {
    run[|run| - 1]
  }

  /** What the pieces took off the buffer. */
  function Removed(pieces: seq<Piece>): string {
    if pieces == [] then ""
    else
      var p := pieces[|pieces| - 1];
      Removed(pieces[..|pieces| - 1]) + if p.Line? then p.line + "\n" else p.flushed
  }

  /** What the handlers sent for the pieces, before trimming. */
  function SentFor(pieces: seq<Piece>): string {
    if pieces == [] then ""
    else
      var p := pieces[|pieces| - 1];
      SentFor(pieces[..|pieces| - 1]) + if p.Line? then p.line + "\n" else p.copy
  }

  // ---------------------------------------------------------------- every interleaving

  /** Someone is still going to look at the whole text. */
  predicate Watched(s: State) {
    exists h :: h in s.handlers && !s.handlers[h].Splitting?
  }

  ghost predicate Inv(s: State) {
    && s.came == Removed(s.pieces) + s.buffer
    && (s.handlers == map[] ==> '\n' !in s.buffer)
    && (|s.buffer| <= LIMIT || Watched(s))
  }

  lemma ConservedStep(s: State, step: Step)
    requires Enabled(s, step) && s.came == Removed(s.pieces) + s.buffer
    ensures Do(s, step).came == Removed(Do(s, step).pieces) + Do(s, step).buffer
  {
    var t := Do(s, step);
    if step.Append? {
      Assoc(Removed(s.pieces), s.buffer, step.text);
    } else if t.pieces != s.pieces {
      var n := |s.pieces|;
      assert t.pieces[..n] == s.pieces;
      if step.Split? {
        var e := IndexOf(s.buffer, '\n');
        var line := s.buffer[..e] + "\n";
        assert s.buffer == line + t.buffer;
        Assoc(Removed(s.pieces), line, t.buffer);
      }
    }
  }

  lemma WatchedStep(s: State, step: Step)
    requires Enabled(s, step) && (|s.buffer| <= LIMIT || Watched(s))
    ensures |Do(s, step).buffer| <= LIMIT || Watched(Do(s, step))
  {
    var t := Do(s, step);
    if step.Append? {
      assert t.handlers[step.h].Reading?;
    } else if |s.buffer| > LIMIT && step.Read? {
      assert t.handlers[step.h].Flushing?;
    } else if |s.buffer| > LIMIT && step.Split? {
      var h :| h in s.handlers && !s.handlers[h].Splitting?;
      assert h in t.handlers && t.handlers[h] == s.handlers[h];
    }
  }

  lemma QuietStep(s: State, step: Step)
    requires Enabled(s, step) && (s.handlers == map[] ==> '\n' !in s.buffer)
    ensures Do(s, step).handlers == map[] ==> '\n' !in Do(s, step).buffer
  {
    var t := Do(s, step);
    if !step.Flush? && !(step.Split? && '\n' !in s.buffer) {
      assert step.h in t.handlers;
    }
  }

  lemma {:induction false} RunKeepsInv(run: seq<State>)
    requires IsRun(run)
    ensures Inv(Last(run))
  {
    if |run| > 1 {
      var n := |run| - 1;
      Shorter(run);
      RunKeepsInv(run[..n]);
      assert StepAt(run, n);
      var step :| Enabled(run[n - 1], step) && run[n] == Do(run[n - 1], step);
      ConservedStep(run[n - 1], step);
      WatchedStep(run[n - 1], step);
      QuietStep(run[n - 1], step);
    }
  }

  /**
    However the handlers interleave, the text that came in is what was taken off and what is
    buffered, and once all handlers are done the buffer has no newline and is short.
  */
  lemma EveryInterleaving(run: seq<State>)
    requires IsRun(run)
    ensures Last(run).came == Removed(Last(run).pieces) + Last(run).buffer
    ensures Last(run).handlers == map[] ==> IsShort(Last(run).buffer)
  {
    RunKeepsInv(run);
  }

  // ---------------------------------------------------------------- what is shown

  lemma Shorter(run: seq<State>)
    requires IsRun(run) && |run| > 1
    ensures IsRun(run[..|run| - 1])
  {
    var shorter := run[..|run| - 1];
    forall i | 0 < i < |shorter|
      ensures StepAt(shorter, i)
    {
      assert StepAt(run, i);
    }
  }

  lemma LastStep(run: seq<State>) returns (step: Step)
    requires IsRun(run) && |run| > 1
    ensures Enabled(run[|run| - 2], step) && Last(run) == Do(run[|run| - 2], step)
  {
    var n := |run| - 1;
    assert StepAt(run, n);
    step :| Enabled(run[n - 1], step) && run[n] == Do(run[n - 1], step);
  }

  /** Every handler that took all of the buffer had sent exactly what it took. */
  predicate Faithful(pieces: seq<Piece>) {
    forall i | 0 <= i < |pieces| && pieces[i].Whole? :: pieces[i].copy == pieces[i].flushed
  }

  /** At every moment of the run, what was sent and what is buffered is what came in. */
  ghost predicate AlwaysAllSent(run: seq<State>) {
    forall i | 0 <= i < |run| :: run[i].came == SentFor(run[i].pieces) + run[i].buffer
  }

  predicate IsFlushing(s: State, h: nat) {
    h in s.handlers && s.handlers[h].Flushing?
  }

  /** A handler reads more than the limit in reaching state `i`, and flushes in reaching state `j`. */
  ghost predicate Flushes(run: seq<State>, h: nat, i: int, j: int) {
    && 0 < i < j < |run|
    && !IsFlushing(run[i - 1], h) && !IsFlushing(run[j], h)
    && forall k | i <= k < j :: IsFlushing(run[k], h)
  }

  ghost predicate FlushesLast(run: seq<State>, h: nat, i: int) {
    Flushes(run, h, i, |run| - 1)
  }

  /** Whenever a handler flushes, the buffer is what it was when the handler read it. */
  ghost predicate Undisturbed(run: seq<State>) {
    forall h: nat, i, j | Flushes(run, h, i, j) :: run[j - 1].buffer == run[i].buffer
  }

  lemma HoldsCopy(s: State, step: Step, h: nat)
    requires Enabled(s, step) && IsFlushing(Do(s, step), h)
    ensures IsFlushing(s, h) ==> Do(s, step).handlers[h] == s.handlers[h]
    ensures !IsFlushing(s, h) ==> Do(s, step).handlers[h].copy == Do(s, step).buffer
  {
  }

  lemma EndsByFlush(s: State, step: Step, h: nat)
    requires Enabled(s, step) && IsFlushing(s, h) && !IsFlushing(Do(s, step), h)
    ensures step == Flush(h)
  {
  }

  /** The handler reads in reaching state `i` and has not flushed since. */
  ghost predicate ReadAt(run: seq<State>, h: nat, i: int) {
    && 0 < i < |run| && !IsFlushing(run[i - 1], h)
    && forall k | i <= k < |run| :: IsFlushing(run[k], h)
  }

  lemma ReadExtends(run: seq<State>, h: nat, i: int)
    requires |run| > 1 && ReadAt(run[..|run| - 1], h, i) && IsFlushing(Last(run), h)
    ensures ReadAt(run, h, i) && run[..|run| - 1][i] == run[i]
  {
    var shorter := run[..|run| - 1];
    assert forall k | 0 <= k < |shorter| :: shorter[k] == run[k];
  }

  /** The copy a handler holds is the buffer as it was when the handler read it. */
  lemma {:induction false} CopyWasRead(run: seq<State>, h: nat) returns (i: nat)
    requires IsRun(run) && IsFlushing(Last(run), h)
    ensures ReadAt(run, h, i) && Last(run).handlers[h].copy == run[i].buffer
  {
    var n := |run| - 1;
    var step := LastStep(run);
    HoldsCopy(run[n - 1], step, h);
    if IsFlushing(run[n - 1], h) {
      Shorter(run);
      i := CopyWasRead(run[..n], h);
      ReadExtends(run, h, i);
    } else {
      i := n;
    }
  }

  /** Between its read and its flush a handler holds what it read. */
  lemma {:induction false} CopyStays(run: seq<State>, h: nat, i: nat, k: nat)
    requires IsRun(run) && 0 < i <= k < |run| && !IsFlushing(run[i - 1], h)
    requires forall m | i <= m <= k :: IsFlushing(run[m], h)
    ensures IsFlushing(run[k], h) && run[k].handlers[h].copy == run[i].buffer
    decreases k
  {
    if i < k {
      CopyStays(run, h, i, k - 1);
    }
    assert StepAt(run, k);
    var step :| Enabled(run[k - 1], step) && run[k] == Do(run[k - 1], step);
    HoldsCopy(run[k - 1], step, h);
  }

  /** A flush takes off what is buffered now and has sent what was buffered at the read. */
  lemma FlushedAsRead(run: seq<State>, step: Step, i: int)
    requires IsRun(run) && |run| > 1 && step.Flush? && FlushesLast(run, step.h, i)
    requires Enabled(run[|run| - 2], step) && Last(run) == Do(run[|run| - 2], step)
    ensures
      var before := run[|run| - 2];
      Last(run).pieces == before.pieces + [Whole(run[i].buffer, before.buffer)]
  {
    CopyStays(run, step.h, i, |run| - 2);
  }

  lemma SameFlushes(run: seq<State>, h: nat, i: int, j: int)
    requires |run| > 1 && j < |run| - 1
    ensures Flushes(run, h, i, j) <==> Flushes(run[..|run| - 1], h, i, j)
  {
    var shorter := run[..|run| - 1];
    assert forall k | 0 <= k < |shorter| :: shorter[k] == run[k];
  }

  lemma UndisturbedBefore(run: seq<State>)
    requires IsRun(run) && |run| > 1
    ensures Undisturbed(run) <==>
      (Undisturbed(run[..|run| - 1])
       && forall h: nat, i | FlushesLast(run, h, i) :: run[|run| - 2].buffer == run[i].buffer)
  {
    var n, shorter := |run| - 1, run[..|run| - 1];
    if Undisturbed(run) {
      forall h: nat, i, j | Flushes(shorter, h, i, j)
        ensures shorter[j - 1].buffer == shorter[i].buffer
      {
        SameFlushes(run, h, i, j);
      }
      forall h: nat, i | FlushesLast(run, h, i)
        ensures run[n - 1].buffer == run[i].buffer
      {
        assert Flushes(run, h, i, n);
      }
    }
    if Undisturbed(shorter) && forall h: nat, i | FlushesLast(run, h, i) :: run[n - 1].buffer == run[i].buffer {
      forall h: nat, i, j | Flushes(run, h, i, j)
        ensures run[j - 1].buffer == run[i].buffer
      {
        if j == n {
          assert FlushesLast(run, h, i);
        } else {
          SameFlushes(run, h, i, j);
          assert shorter[j - 1].buffer == shorter[i].buffer;
        }
      }
    }
  }

  lemma FaithfulBefore(pieces: seq<Piece>, p: Piece)
    ensures Faithful(pieces + [p]) <==> Faithful(pieces) && (p.Whole? ==> p.copy == p.flushed)
  {
    var more := pieces + [p];
    assert more[|pieces|] == p;
    assert forall i | 0 <= i < |pieces| :: more[i] == pieces[i];
  }

  lemma {:induction false} UndisturbedIsFaithful(run: seq<State>)
    requires IsRun(run)
    ensures Undisturbed(run) <==> Faithful(Last(run).pieces)
  {
    if |run| > 1 {
      Shorter(run);
      UndisturbedIsFaithful(run[..|run| - 1]);
      UndisturbedBefore(run);
      var step := LastStep(run);
      if step.Flush? {
        FlushIsFaithful(run, step);
      } else {
        OtherIsFaithful(run, step);
      }
    }
  }

  /** A run that ends in a flush: one handler flushes, which read once. */
  lemma FlushIsFaithful(run: seq<State>, step: Step)
    requires IsRun(run) && |run| > 1 && step.Flush?
    requires Enabled(run[|run| - 2], step) && Last(run) == Do(run[|run| - 2], step)
    ensures Faithful(Last(run).pieces) <==>
      (Faithful(run[|run| - 2].pieces)
       && forall h: nat, i | FlushesLast(run, h, i) :: run[|run| - 2].buffer == run[i].buffer)
  {
    var n, s := |run| - 1, run[|run| - 2];
    Shorter(run);
    var i := CopyWasRead(run[..n], step.h);
    assert forall k | 0 <= k < n :: run[..n][k] == run[k];
    assert FlushesLast(run, step.h, i);
    OnlyItsRead(run, step, i);
    FlushedAsRead(run, step, i);
    FaithfulBefore(s.pieces, Whole(run[i].buffer, s.buffer));
  }

  lemma OnlyItsRead(run: seq<State>, step: Step, i: int)
    requires IsRun(run) && |run| > 1 && step.Flush?
    requires Enabled(run[|run| - 2], step) && Last(run) == Do(run[|run| - 2], step)
    requires FlushesLast(run, step.h, i)
    ensures forall h: nat, k | FlushesLast(run, h, k) :: h == step.h && k == i
  {
    forall h: nat, k | FlushesLast(run, h, k)
      ensures h == step.h && k == i
    {
      EndsByFlush(run[|run| - 2], step, h);
      var m := if i < k then k - 1 else i - 1;
      assert IsFlushing(run[m], h) || k <= i;
    }
  }

  lemma OtherIsFaithful(run: seq<State>, step: Step)
    requires IsRun(run) && |run| > 1 && !step.Flush?
    requires Enabled(run[|run| - 2], step) && Last(run) == Do(run[|run| - 2], step)
    ensures Faithful(Last(run).pieces) <==> Faithful(run[|run| - 2].pieces)
    ensures forall h: nat, i :: !FlushesLast(run, h, i)
  {
    var s, t := run[|run| - 2], Last(run);
    if t.pieces != s.pieces {
      FaithfulBefore(s.pieces, t.pieces[|s.pieces|]);
    }
    forall h: nat, i
      ensures !FlushesLast(run, h, i)
    {
      if IsFlushing(s, h) && !IsFlushing(t, h) {
        EndsByFlush(s, step, h);
      }
    }
  }

  lemma SameEnd(a: string, x: string, y: string)
    requires a + x == a + y
    ensures x == y
  {
    assert (a + x)[|a|..] == x && (a + y)[|a|..] == y;
  }

  lemma SameStart(a: string, b: string, x: string)
    requires a + x == b + x
    ensures a == b
  {
    assert |a| == |b|;
    assert (a + x)[..|a|] == a && (b + x)[..|b|] == b;
  }

  /** What was sent is what was taken off, at every moment, exactly when every flush was faithful. */
  lemma {:induction false} AlwaysSentIsFaithful(run: seq<State>)
    requires IsRun(run)
    ensures AlwaysAllSent(run) <==> Faithful(Last(run).pieces)
  {
    EveryInterleaving(run);
    SentIsRemoved(Last(run));
    if |run| > 1 {
      Shorter(run);
      AlwaysSentIsFaithful(run[..|run| - 1]);
      AlwaysSentBefore(run);
      var s, t := run[|run| - 2], Last(run);
      EveryInterleaving(run[..|run| - 1]);
      SentIsRemoved(s);
      var step := LastStep(run);
      if t.pieces != s.pieces {
        OnePiece(s.pieces, t.pieces[|s.pieces|]);
      }
    }
  }

  lemma SentIsRemoved(s: State)
    requires s.came == Removed(s.pieces) + s.buffer
    ensures s.came == SentFor(s.pieces) + s.buffer <==> SentFor(s.pieces) == Removed(s.pieces)
  {
    if s.came == SentFor(s.pieces) + s.buffer {
      SameStart(SentFor(s.pieces), Removed(s.pieces), s.buffer);
    }
  }

  lemma AlwaysSentBefore(run: seq<State>)
    requires IsRun(run) && |run| > 1
    ensures AlwaysAllSent(run) <==>
      AlwaysAllSent(run[..|run| - 1]) && Last(run).came == SentFor(Last(run).pieces) + Last(run).buffer
  {
    var n := |run| - 1;
    assert forall i | 0 <= i < n :: run[..n][i] == run[i];
  }

  lemma OnePiece(pieces: seq<Piece>, p: Piece)
    ensures Faithful(pieces + [p]) <==> Faithful(pieces) && (p.Whole? ==> p.copy == p.flushed)
    ensures SentFor(pieces) == Removed(pieces) ==>
      (SentFor(pieces + [p]) == Removed(pieces + [p]) <==> (p.Whole? ==> p.copy == p.flushed))
  {
    FaithfulBefore(pieces, p);
    assert (pieces + [p])[..|pieces|] == pieces;
    if p.Whole? && SentFor(pieces) == Removed(pieces) && SentFor(pieces + [p]) == Removed(pieces + [p]) {
      SameEnd(Removed(pieces), p.copy, p.flushed);
    }
  }

  /**
    What was sent and what is buffered is what came in, at every moment of a run, exactly when
    no handler finds the buffer changed between its read and its flush.
  */
  lemma SentExactlyWhenUndisturbed(run: seq<State>)
    requires IsRun(run)
    ensures AlwaysAllSent(run) <==> Undisturbed(run)
  {
    AlwaysSentIsFaithful(run);
    UndisturbedIsFaithful(run);
  }

  /** Handlers start only when no other is at work. */
  ghost predicate NoOverlap(run: seq<State>) {
    forall i | 0 < i < |run| :: StartsAlone(run, i)
  }

  ghost predicate StartsAlone(run: seq<State>, i: nat)
    requires 0 < i < |run|
  {
    |run[i].handlers| > |run[i - 1].handlers| ==> run[i - 1].handlers == map[]
  }

  predicate OneHandler(s: State) {
    forall h, k | h in s.handlers && k in s.handlers :: h == k
  }

  lemma OneAtATime(s: State, step: Step)
    requires Enabled(s, step) && OneHandler(s)
    requires |Do(s, step).handlers| > |s.handlers| ==> s.handlers == map[]
    ensures OneHandler(Do(s, step))
    ensures forall h | IsFlushing(s, h) && IsFlushing(Do(s, step), h) :: Do(s, step).buffer == s.buffer
  {
    if step.Append? {
      assert Do(s, step).handlers.Keys == s.handlers.Keys + {step.h};
    }
  }

  lemma StepAlone(run: seq<State>, i: nat)
    requires IsRun(run) && NoOverlap(run) && 0 < i < |run| && OneHandler(run[i - 1])
    ensures OneHandler(run[i])
    ensures forall h | IsFlushing(run[i - 1], h) && IsFlushing(run[i], h) :: run[i].buffer == run[i - 1].buffer
  {
    assert StepAt(run, i) && StartsAlone(run, i);
    var s, t := run[i - 1], run[i];
    var step :| Enabled(s, step) && t == Do(s, step);
    OneAtATime(s, step);
  }

  lemma {:induction false} HandlersAlone(run: seq<State>, i: nat)
    requires IsRun(run) && NoOverlap(run) && i < |run|
    ensures OneHandler(run[i])
  {
    if i > 0 {
      HandlersAlone(run, i - 1);
      StepAlone(run, i);
    }
  }

  lemma {:induction false} BufferAsRead(run: seq<State>, h: nat, i: nat, k: nat)
    requires IsRun(run) && NoOverlap(run) && i <= k < |run| && forall m | i <= m <= k :: IsFlushing(run[m], h)
    ensures run[k].buffer == run[i].buffer
    decreases k
  {
    if i < k {
      BufferAsRead(run, h, i, k - 1);
      HandlersAlone(run, k - 1);
      StepAlone(run, k);
    }
  }

  lemma FlushesAsRead(run: seq<State>, h: nat, i: int, j: int)
    requires IsRun(run) && NoOverlap(run) && Flushes(run, h, i, j)
    ensures run[j - 1].buffer == run[i].buffer
  {
    BufferAsRead(run, h, i, j - 1);
  }

  lemma NoOverlapIsUndisturbed(run: seq<State>)
    requires IsRun(run) && NoOverlap(run)
    ensures Undisturbed(run)
  {
    forall h: nat, i, j | Flushes(run, h, i, j)
      ensures run[j - 1].buffer == run[i].buffer
    {
      FlushesAsRead(run, h, i, j);
    }
  }

  /** Handlers that do not overlap are never disturbed, so they send exactly what came in. */
  lemma AllIsSent(run: seq<State>)
    requires IsRun(run) && NoOverlap(run)
    ensures Undisturbed(run) && AlwaysAllSent(run)
  {
    NoOverlapIsUndisturbed(run);
    SentExactlyWhenUndisturbed(run);
  }

  // ---------------------------------------------------------------- one handler alone

  function SplitAll(s: State, h: nat): State
    requires h in s.handlers && s.handlers[h].Splitting?
    decreases |s.buffer|
  {
    if '\n' !in s.buffer then Do(s, Split(h)) else SplitAll(Do(s, Split(h)), h)
  }

  /** One handler from start to end with no other in between. */
  function Handled(s: State, h: nat, text: string): State
    requires h !in s.handlers
  {
    var t := Do(Do(s, Append(h, text)), Read(h));
    if t.handlers[h].Flushing? then Do(t, Flush(h)) else SplitAll(t, h)
  }

  function PiecesOf(lines: seq<string>): seq<Piece> {
    seq(|lines|, i requires 0 <= i < |lines| => Line(lines[i]))
  }

  lemma PiecesFirst(before: seq<Piece>, line: string, lines: seq<string>)
    ensures before + [Line(line)] + PiecesOf(lines) == before + PiecesOf([line] + lines)
  {
    assert PiecesOf([line] + lines) == [Line(line)] + PiecesOf(lines);
  }

  lemma SplitTakes(s: State, h: nat, line: string, rest: string)
    requires h in s.handlers && s.handlers[h].Splitting?
    requires s.buffer == line + "\n" + rest && '\n' !in line
    ensures Do(s, Split(h)) == s.(buffer := rest, pieces := s.pieces + [Line(line)])
  {
    IndexAfter(line, '\n', rest);
    assert s.buffer[..|line|] == line && s.buffer[|line| + 1..] == rest;
  }

  lemma {:induction false} SplitAllTakesLines(s: State, h: nat)
    requires h in s.handlers && s.handlers[h].Splitting?
    ensures SplitAll(s, h) == State(Rest(s.buffer), s.handlers - {h}, s.came, s.pieces + PiecesOf(Lines(s.buffer)))
    decreases |s.buffer|
  {
    if '\n' in s.buffer {
      var line, rest := FirstLine(s.buffer);
      TakeLine(line, rest);
      SplitTakes(s, h, line, rest);
      SplitAllTakesLines(Do(s, Split(h)), h);
      PiecesFirst(s.pieces, line, Lines(rest));
    } else {
      NoLine(s.buffer);
      assert s.pieces + PiecesOf([]) == s.pieces;
    }
  }

  /** A handler that nobody disturbs does what the event is specified to do to the buffer. */
  lemma HandledAsSpecified(s: State, h: nat, b: Buffers, id: string, text: string)
    requires h !in s.handlers && id != "" && s.buffer == At(b.texts, id)
    ensures
      var t, cur := Handled(s, h, text), s.buffer + text;
      && t.handlers == s.handlers && t.buffer == At(After(b, Reasoning(id, text)).texts, id)
      && t.pieces == s.pieces + if |cur| > LIMIT then [Whole(cur, cur)] else PiecesOf(Lines(cur))
  {
    var t := Do(Do(s, Append(h, text)), Read(h));
    assert t.handlers - {h} == s.handlers;
    if t.handlers[h].Splitting? {
      SplitAllTakesLines(t, h);
    }
  }

  lemma Then(run: seq<State>, step: Step) returns (next: seq<State>)
    requires IsRun(run) && Enabled(Last(run), step)
    ensures IsRun(next) && Last(next) == Do(Last(run), step)
  {
    next := run + [Do(Last(run), step)];
    forall i | 0 < i < |next|
      ensures StepAt(next, i)
    {
      if i < |run| {
        assert StepAt(run, i);
        assert next[i - 1] == run[i - 1] && next[i] == run[i];
      } else {
        assert next[i - 1] == Last(run);
      }
    }
  }

  /**
    Text appended between another handler's read and its flush is thrown away unseen: all
    handlers are done, nothing is buffered, and what was sent is not what came in.
  */
  lemma LateTextIsLost(long: string, late: string) returns (run: seq<State>)
    requires |long| > LIMIT && late != ""
    ensures IsRun(run) && Last(run).handlers == map[] && Last(run).buffer == ""
    ensures Last(run).came == long + late && SentFor(Last(run).pieces) == long
  {
    run := [START];
    run := Then(run, Append(0, long));
    assert Last(run) == State(long, map[0 := Reading], long, []);
    run := Then(run, Read(0));
    assert Last(run) == State(long, map[0 := Flushing(long)], long, []);
    run := Then(run, Append(1, late));
    run := Then(run, Flush(0));
    assert Last(run) == State("", map[1 := Reading], long + late, [Whole(long, long + late)]);
    run := Then(run, Read(1));
    assert Last(run) == State("", map[1 := Splitting], long + late, [Whole(long, long + late)]);
    run := Then(run, Split(1));
    assert Last(run) == State("", map[], long + late, [Whole(long, long + late)]);
    SentOneMore([], Whole(long, long + late));
  }

  lemma BothRead(long: string, late: string) returns (run: seq<State>)
    requires |long| > LIMIT
    ensures IsRun(run)
    ensures Last(run) == State(long + late, map[0 := Flushing(long), 1 := Flushing(long + late)], long + late, [])
  {
    run := [START];
    run := Then(run, Append(0, long));
    assert Last(run) == State(long, map[0 := Reading], long, []);
    run := Then(run, Read(0));
    run := Then(run, Append(1, late));
    run := Then(run, Read(1));
  }

  /**
    A handler that reads before the other's flush sends the same text again: all handlers are
    done, nothing is buffered, and what was sent is more than what came in.
  */
  lemma TextIsSentTwice(long: string, late: string) returns (run: seq<State>)
    requires |long| > LIMIT
    ensures IsRun(run) && Last(run).handlers == map[] && Last(run).buffer == ""
    ensures Last(run).came == long + late && SentFor(Last(run).pieces) == long + (long + late)
  {
    run := BothFlushed(long, late);
    SentOneMore([], Whole(long, long + late));
    SentOneMore([Whole(long, long + late)], Whole(long + late, ""));
  }

  lemma BothFlushed(long: string, late: string) returns (run: seq<State>)
    requires |long| > LIMIT
    ensures IsRun(run)
    ensures
      var both := long + late;
      Last(run) == State("", map[], both, [Whole(long, both)] + [Whole(both, "")])
  {
    var both := long + late;
    run := BothRead(long, late);
    run := Then(run, Flush(0));
    assert Last(run) == State("", map[1 := Flushing(both)], both, [Whole(long, both)]);
    run := Then(run, Flush(1));
  }

  lemma SentOneMore(pieces: seq<Piece>, p: Piece)
    requires p.Whole?
    ensures SentFor(pieces + [p]) == SentFor(pieces) + p.copy
  {
    assert (pieces + [p])[..|pieces|] == pieces;
  }
}
