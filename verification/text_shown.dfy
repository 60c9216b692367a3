/**
  What the chat display shows of a task (cmd/hufu/display.go), told from the events alone: the
  text that is pending, the model it is under, and what each event adds to the messages.
*/
module TextShown {
  import opened Sequences
  import opened Texts
  import opened TextBuffers

  /** What follows the last newline. */
  function LastLine(s: string): string
  {
    if '\n' in s then LastLine(s[1..]) else s
  }

  /** The task's text that has come in and has neither been shown nor been thrown away as blank. */
  function Pending(es: seq<Event>, id: string): string {
    if es == [] then ""
    else
      var e, before := es[|es| - 1], Pending(es[..|es| - 1], id);
      if e.id != id then before
      else match e
        case Started(_, _) => before
        case Text(_, text) => before + text
        case Reasoning(_, text) => if |before + text| > 10000 then "" else LastLine(before + text)
        case Done(_, _) => ""
        case Failed(_) => ""
  }

  /** The model the task was last started under, since its text was last shown all at once. */
  function ModelOf(es: seq<Event>, id: string): string {
    if es == [] then ""
    else
      var e, earlier := es[|es| - 1], es[..|es| - 1];
      if e.id != id then ModelOf(earlier, id)
      else match e
        case Started(_, model) => if model == "" then ModelOf(earlier, id) else model
        case Text(_, _) => ModelOf(earlier, id)
        case Reasoning(_, text) => if |Pending(earlier, id) + text| > 10000 then "" else ModelOf(earlier, id)
        case Done(_, _) => ""
        case Failed(_) => ""
  }

  lemma {:induction false} RestIsLastLine(s: string)
    ensures Rest(s) == LastLine(s)
    decreases |s|
  {
    if '\n' in s {
      var line, rest := FirstLine(s);
      TakeLine(line, rest);
      RestIsLastLine(rest);
      LastLineAfter(line, rest);
    } else {
      NoLine(s);
    }
  }

  lemma {:induction false} LastLineAfter(line: string, rest: string)
    ensures LastLine(line + "\n" + rest) == LastLine(rest)
  {
    var s := line + "\n" + rest;
    assert s[|line|] == '\n';
    if line == "" {
      assert s[1..] == rest;
    } else {
      assert s[1..] == line[1..] + "\n" + rest;
      LastLineAfter(line[1..], rest);
    }
  }

  lemma {:induction false} BuffersArePending(es: seq<Event>, id: string)
    requires id != ""
    ensures At(StateAfter(es).texts, id) == Pending(es, id) && At(StateAfter(es).models, id) == ModelOf(es, id)
  {
    if es != [] {
      BuffersArePending(es[..|es| - 1], id);
      var e := es[|es| - 1];
      if e.id == id && e.Reasoning? {
        RestIsLastLine(Pending(es[..|es| - 1], id) + e.text);
      }
    }
  }

  lemma TraceOfMore(es: seq<Event>, e: Event)
    ensures Trace(es + [e]) == Trace(es) + Sent(StateAfter(es), e)
  {
    assert (es + [e])[..|es|] == es;
  }

  // ---------------------------------------------------------------- what events add

  /**
    A finished task adds one answer with its pending text, under the model it was started with; with
    nothing to show in that, its output instead; and with nothing in either, no message.
  */
  lemma DoneShows(es: seq<Event>, id: string, output: string)
    requires id != ""
    ensures Trace(es + [Done(id, output)]) == Trace(es) +
      if Trim(Pending(es, id)) != "" then [Answer(id, Trim(Pending(es, id)), ModelOf(es, id))]
      else if Trim(output) != "" then [Output(id, Trim(output))]
      else []
  {
    BuffersArePending(es, id);
    TraceOfMore(es, Done(id, output));
  }

  /** A failed task adds an answer with its pending text, if there is something to show in it. */
  lemma FailedShows(es: seq<Event>, id: string)
    requires id != ""
    ensures Trace(es + [Failed(id)]) == Trace(es) +
      if Trim(Pending(es, id)) != "" then [Answer(id, Trim(Pending(es, id)), ModelOf(es, id))] else []
  {
    BuffersArePending(es, id);
    TraceOfMore(es, Failed(id));
  }

  /** Reasoning adds its pending text whole once it is too long, and its complete lines otherwise. */
  lemma ReasoningShows(es: seq<Event>, id: string, text: string)
    requires id != ""
    ensures
      var whole := Pending(es, id) + text;
      Trace(es + [Reasoning(id, text)]) == Trace(es) +
        if |whole| <= 10000 then ThoughtsOf(id, Lines(whole))
        else if Trim(whole) != "" then [Thought(id, Trim(whole))]
        else []
  {
    BuffersArePending(es, id);
    TraceOfMore(es, Reasoning(id, text));
  }

  /** Starting a task and answer text add no message, and neither does an event of no task. */
  lemma OthersShowNothing(es: seq<Event>, e: Event)
    requires e.Started? || e.Text? || e.id == ""
    ensures Trace(es + [e]) == Trace(es)
  {
    TraceOfMore(es, e);
    assert Trace(es) + [] == Trace(es);
  }

  /** Of each line that is not blank the thoughts have one, trimmed. */
  lemma ThoughtOfLine(id: string, line: string, lines: seq<string>)
    ensures ThoughtsOf(id, []) == []
    ensures ThoughtsOf(id, [line] + lines)
      == (if Trim(line) != "" then [Thought(id, Trim(line))] else []) + ThoughtsOf(id, lines)
  {
    assert ([line] + lines)[1..] == lines;
  }

  /** The lines of a text hold no newline; with what follows the last newline they are all of it. */
  lemma {:induction false} LinesAreLines(s: string)
    ensures Unlines(Lines(s)) + LastLine(s) == s
    ensures forall i | 0 <= i < |Lines(s)| :: '\n' !in Lines(s)[i]
    decreases |s|
  {
    LinesAndRest(s);
    RestIsLastLine(s);
    if '\n' in s {
      var line, rest := FirstLine(s);
      TakeLine(line, rest);
      LinesAreLines(rest);
    } else {
      NoLine(s);
    }
  }

  // ---------------------------------------------------------------- answers

  predicate Shows(e: Event, id: string) {
    e.id == id && (e.Done? || e.Failed? || e.Reasoning?)
  }

  lemma PendingOfMore(es: seq<Event>, e: Event, id: string)
    requires !Shows(e, id)
    ensures Pending(es + [e], id) == Pending(es, id) + Appended(e, id)
  {
    assert (es + [e])[..|es|] == es;
    assert Pending(es, id) + "" == Pending(es, id);
  }

  /** Text that comes in as answer text is pending, all of it and in order, from one finish to the next. */
  lemma {:induction false} AnswerIsPending(es: seq<Event>, more: seq<Event>, id: string)
    requires id != "" && Pending(es, id) == ""
    requires forall i | 0 <= i < |more| :: !Shows(more[i], id)
    ensures Pending(es + more, id) == Input(more, id)
    decreases |more|
  {
    if more == [] {
      assert es + more == es;
    } else {
      var before, last := more[..|more| - 1], more[|more| - 1];
      AnswerIsPending(es, before, id);
      PendingOfMore(es + before, last, id);
      Assoc(es, before, [last]);
      assert before + [last] == more;
      Assoc(Pending(es, id), Input(before, id), Appended(last, id));
    }
  }

  /** A task that streams its answer and finishes has it shown whole, and its output when it streamed nothing to show. */
  lemma AnswerIsShown(es: seq<Event>, more: seq<Event>, id: string, output: string)
    requires id != "" && Pending(es, id) == ""
    requires forall i | 0 <= i < |more| :: !Shows(more[i], id)
    ensures
      var text := Trim(Input(more, id));
      Trace(es + more + [Done(id, output)]) == Trace(es + more) +
        if text != "" then [Answer(id, text, ModelOf(es + more, id))]
        else if Trim(output) != "" then [Output(id, Trim(output))]
        else []
  {
    AnswerIsPending(es, more, id);
    DoneShows(es + more, id, output);
  }
}
