/**
  The per-task text buffers of the chat display (cmd/hufu/display.go): messages stream in
  arbitrary pieces and leave the buffers as whole lines, or all at once.
*/
module TextBuffers {
  import opened Sequences
  import opened Texts

  /** A task's buffered reasoning is sent off whole once it is longer than this. */
  const LIMIT := 10000

  /** The events that touch the buffers; `id` is the task. */
  datatype Event =
    | Started(id: string, model: string)
    | Text(id: string, text: string)
    | Reasoning(id: string, text: string)
    | Done(id: string, output: string)
    | Failed(id: string)

  /** What the display is sent: a buffered thought or answer, or the output that stands in for an answer. */
  datatype Message =
    | Thought(id: string, line: string)
    | Answer(id: string, text: string, model: string)
    | Output(id: string, text: string)

  function At(m: map<string, string>, id: string): string {
    if id in m then m[id] else ""
  }

  lemma WriteAfterWrite(m: map<string, string>, id: string, a: string, b: string)
    ensures m[id := a][id := b] == m[id := b] && m[id := a] - {id} == m - {id}
  {
  }

  // ---------------------------------------------------------------- lines

  /** The complete lines of `s`, without their newlines. */
  function Lines(s: string): seq<string> {
    var e := IndexOf(s, '\n');
    if e == |s| then [] else [s[..e]] + Lines(s[e + 1..])
  }

  /** What follows the last newline. */
  function Rest(s: string): (r: string)
    ensures '\n' !in r && |r| <= |s|
  {
    var e := IndexOf(s, '\n');
    if e == |s| then
      assert s[..e] == s;
      s
    else Rest(s[e + 1..])
  }

  function Unlines(lines: seq<string>): string {
    if lines == [] then "" else lines[0] + "\n" + Unlines(lines[1..])
  }

  lemma TakeLine(line: string, rest: string)
    requires '\n' !in line
    ensures Lines(line + "\n" + rest) == [line] + Lines(rest)
    ensures Rest(line + "\n" + rest) == Rest(rest)
  {
    IndexAfter(line, '\n', rest);
    var s := line + "\n" + rest;
    assert s[..|line|] == line && s[|line| + 1..] == rest;
  }

  lemma NoLine(s: string)
    requires '\n' !in s
    ensures Lines(s) == [] && Rest(s) == s
  {
  }

  lemma FirstLine(s: string) returns (line: string, rest: string)
    requires '\n' in s
    ensures s == line + "\n" + rest && '\n' !in line
  {
    var e := IndexOf(s, '\n');
    line, rest := s[..e], s[e + 1..];
  }

  /** Lines and rest are all of a text. */
  lemma {:induction false} LinesAndRest(s: string)
    ensures Unlines(Lines(s)) + Rest(s) == s
    decreases |s|
  {
    if '\n' in s {
      var line, rest := FirstLine(s);
      TakeLine(line, rest);
      LinesAndRest(rest);
      assert Unlines([line] + Lines(rest)) == line + "\n" + Unlines(Lines(rest)) by {
        assert ([line] + Lines(rest))[1..] == Lines(rest);
      }
    } else {
      NoLine(s);
    }
  }

  lemma {:induction false} LinesOfMore(a: string, b: string)
    ensures Lines(a + b) == Lines(a) + Lines(Rest(a) + b)
    ensures Rest(a + b) == Rest(Rest(a) + b)
    decreases |a|
  {
    if '\n' in a {
      var line, rest := FirstLine(a);
      TakeLine(line, rest);
      TakeLine(line, rest + b);
      LinesOfMore(rest, b);
      Assoc(line + "\n", rest, b);
      Assoc([line], Lines(rest), Lines(Rest(rest) + b));
    } else {
      NoLine(a);
    }
  }

  // ---------------------------------------------------------------- what an event does

  /** One thought, unless blank. */
  function Thoughts(id: string, line: string): seq<Message> {
    if Trim(line) != "" then [Thought(id, Trim(line))] else []
  }

  function ThoughtsOf(id: string, lines: seq<string>): seq<Message> {
    if lines == [] then [] else Thoughts(id, lines[0]) + ThoughtsOf(id, lines[1..])
  }

  lemma ThoughtsFirst(id: string, line: string, rest: string)
    requires '\n' !in line
    ensures ThoughtsOf(id, Lines(line + "\n" + rest)) == Thoughts(id, line) + ThoughtsOf(id, Lines(rest))
    ensures Rest(line + "\n" + rest) == Rest(rest)
  {
    TakeLine(line, rest);
    assert ([line] + Lines(rest))[1..] == Lines(rest);
  }

  datatype Buffers = Buffers(texts: map<string, string>, models: map<string, string>)

  const EMPTY := Buffers(map[], map[])

  /** The buffers after an event. */
  function After(b: Buffers, e: Event): Buffers {
    if e.id == "" then b
    else
      var cur := At(b.texts, e.id);
      match e
      case Started(id, model) => if model == "" then b else b.(models := b.models[id := model])
      case Text(id, text) => b.(texts := b.texts[id := cur + text])
      case Reasoning(id, text) =>
        if |cur + text| > LIMIT then Buffers(b.texts - {id}, b.models - {id})
        else b.(texts := b.texts[id := Rest(cur + text)])
      case Done(id, _) => Buffers(b.texts - {id}, b.models - {id})
      case Failed(id) => Buffers(b.texts - {id}, b.models - {id})
  }

  /** What an event sends. */
  function Sent(b: Buffers, e: Event): seq<Message> {
    if e.id == "" then []
    else
      var cur := At(b.texts, e.id);
      match e
      case Started(_, _) => []
      case Text(_, _) => []
      case Reasoning(id, text) =>
        if |cur + text| > LIMIT then Thoughts(id, cur + text) else ThoughtsOf(id, Lines(cur + text))
      case Done(id, output) =>
        if Trim(cur) != "" then [Answer(id, Trim(cur), At(b.models, id))]
        else if Trim(output) != "" then [Output(id, Trim(output))]
        else []
      case Failed(id) =>
        if Trim(cur) != "" then [Answer(id, Trim(cur), At(b.models, id))] else []
  }

  /** Some lines of `whole` have been sent and `left` is what follows them. */
  ghost predicate Sending(id: string, whole: string, sent: seq<Message>, left: string) {
    sent + ThoughtsOf(id, Lines(left)) == ThoughtsOf(id, Lines(whole)) && Rest(left) == Rest(whole)
  }

  lemma OneSent(id: string, whole: string, sent: seq<Message>, line: string, rest: string)
    requires Sending(id, whole, sent, line + "\n" + rest) && '\n' !in line
    ensures Sending(id, whole, if Trim(line) != "" then sent + [Thought(id, Trim(line))] else sent, rest)
  {
    ThoughtsFirst(id, line, rest);
    Assoc(sent, Thoughts(id, line), ThoughtsOf(id, Lines(rest)));
    assert sent + [] == sent;
  }

  lemma AllSent(id: string, whole: string, sent: seq<Message>, left: string)
    requires Sending(id, whole, sent, left) && '\n' !in left
    ensures sent == ThoughtsOf(id, Lines(whole)) && left == Rest(whole)
  {
    NoLine(left);
    assert sent + [] == sent;
  }

  predicate IsShort(s: string) {
    '\n' !in s && |s| <= 10000
  }

  // ---------------------------------------------------------------- the code

  class TextBufs {
    var texts: map<string, string>
    var models: map<string, string>

    constructor ()
      ensures State() == EMPTY
    {
      texts, models := map[], map[];
    }

    function State(): Buffers
      reads this
    {
      Buffers(texts, models)
    }

    method Append(id: string, text: string)
      modifies this`texts
      ensures texts == old(texts)[id := At(old(texts), id) + text]
    {
      texts := texts[id := (if id in texts then texts[id] else "") + text];
    }

    method SetModel(id: string, model: string)
      modifies this`models
      ensures models == old(models)[id := model]
    {
      models := models[id := model];
    }

    method Flush(id: string) returns (text: string, model: string)
      modifies this
      ensures text == Trim(At(old(texts), id)) && model == At(old(models), id)
      ensures texts == old(texts) - {id} && models == old(models) - {id}
    {
      text, model := Trim(At(texts, id)), At(models, id);
      texts, models := texts - {id}, models - {id};
    }

    method Get(id: string) returns (text: string)
      ensures text == At(texts, id)
    {
      text := At(texts, id);
    }

    /** Takes the first complete line, with its newline, off the task's buffer. */
    method SplitLine(id: string) returns (line: string, found: bool)
      modifies this`texts
      ensures found == ('\n' in At(old(texts), id))
      ensures !found ==> line == "" && texts == old(texts)
      ensures found ==> At(old(texts), id) == line + "\n" + At(texts, id) && '\n' !in line
      ensures found ==> texts == old(texts)[id := At(texts, id)]
    {
      var cur := At(texts, id);
      if cur == "" {
        return "", false;
      }
      var i := IndexOf(cur, '\n');
      if i == |cur| {
        assert cur[..i] == cur;
        return "", false;
      }
      line, found := cur[..i], true;
      texts := texts[id := cur[i + 1..]];
    }

    /** The loop that sends a task's complete lines. */
    method SendLines(id: string) returns (sent: seq<Message>)
      requires id in texts
      modifies this`texts
      ensures sent == ThoughtsOf(id, Lines(old(texts)[id]))
      ensures texts == old(texts)[id := Rest(old(texts)[id])]
    {
      sent := [];
      ghost var start, whole := texts, texts[id];
      while true
        invariant id in texts && texts == start[id := texts[id]]
        invariant Sending(id, whole, sent, texts[id])
        decreases |texts[id]|
      {
        ghost var left := texts[id];
        var line, found := SplitLine(id);
        if !found {
          AllSent(id, whole, sent, left);
          break;
        }
        WriteAfterWrite(start, id, left, texts[id]);
        OneSent(id, whole, sent, line, texts[id]);
        if Trim(line) != "" {
          sent := sent + [Thought(id, Trim(line))];
        }
      }
    }

    method OnReasoning(id: string, text: string) returns (sent: seq<Message>)
      requires id != ""
      modifies this
      ensures State() == After(old(State()), Reasoning(id, text))
      ensures sent == Sent(old(State()), Reasoning(id, text))
      ensures IsShort(At(texts, id))
    {
      Append(id, text);
      var cur := Get(id);
      WriteAfterWrite(old(texts), id, cur, Rest(cur));
      if |cur| > LIMIT {
        sent := [];
        if Trim(cur) != "" {
          sent := [Thought(id, Trim(cur))];
        }
        var _, _ := Flush(id);
        return;
      }
      sent := SendLines(id);
    }

    method Report(e: Event) returns (sent: seq<Message>)
      modifies this
      ensures State() == After(old(State()), e)
      ensures sent == Sent(old(State()), e)
    {
      sent := [];
      if e.id == "" {
        return;
      }
      match e {
        case Started(id, model) =>
          if model != "" {
            SetModel(id, model);
          }
        case Text(id, text) =>
          Append(id, text);
        case Reasoning(id, text) =>
          sent := OnReasoning(id, text);
        case Done(id, output) =>
          var pending := Get(id);
          var hadText := Trim(pending) != "";
          var text, model := Flush(id);
          if text != "" {
            sent := [Answer(id, text, model)];
          } else if !hadText {
            if Trim(output) != "" {
              sent := [Output(id, Trim(output))];
            }
          }
        case Failed(id) =>
          var text, model := Flush(id);
          if text != "" {
            sent := [Answer(id, text, model)];
          }
      }
    }
  }

  // ---------------------------------------------------------------- runs

  /** The buffers after a run from empty buffers. */
  function StateAfter(es: seq<Event>): Buffers {
    if es == [] then EMPTY else After(StateAfter(es[..|es| - 1]), es[|es| - 1])
  }

  /** Everything a run sends. */
  function Trace(es: seq<Event>): seq<Message> {
    if es == [] then []
    else
      var before := es[..|es| - 1];
      Trace(before) + Sent(StateAfter(before), es[|es| - 1])
  }

  function Appended(e: Event, id: string): string {
    if e.id != id then ""
    else match e
      case Text(_, text) => text
      case Reasoning(_, text) => text
      case _ => ""
  }

  /** All text that came in for a task. */
  function Input(es: seq<Event>, id: string): string {
    if es == [] then "" else Input(es[..|es| - 1], id) + Appended(es[|es| - 1], id)
  }

  /** All buffered text that went out for a task. */
  function Shown(ms: seq<Message>, id: string): string {
    if ms == [] then ""
    else
      Shown(ms[..|ms| - 1], id) + ShownBy(ms[|ms| - 1], id)
  }

  function ShownBy(m: Message, id: string): string {
    if m.id != id || m.Output? then "" else if m.Thought? then m.line else m.text
  }

  /** The characters of a text that are not blank. */
  function Ink(s: string): string {
    if s == "" then "" else (if IsBlank(s[0]) then "" else [s[0]]) + Ink(s[1..])
  }

  lemma {:induction false} InkAppend(a: string, b: string)
    ensures Ink(a + b) == Ink(a) + Ink(b)
  {
    if a == "" {
      assert a + b == b;
    } else {
      assert (a + b)[1..] == a[1..] + b;
      InkAppend(a[1..], b);
    }
  }

  lemma {:induction false} TrimRightKeepsInk(s: string)
    ensures Ink(TrimRight(s)) == Ink(s)
  {
    if s != "" && IsBlank(s[|s| - 1]) {
      TrimRightKeepsInk(s[..|s| - 1]);
      assert s == s[..|s| - 1] + [s[|s| - 1]];
      InkAppend(s[..|s| - 1], [s[|s| - 1]]);
      assert Ink([s[|s| - 1]]) == "";
    }
  }

  lemma {:induction false} TrimLeftKeepsInk(s: string)
    ensures Ink(TrimLeft(s)) == Ink(s)
  {
    if s != "" && IsBlank(s[0]) {
      TrimLeftKeepsInk(s[1..]);
    }
  }

  lemma TrimKeepsInk(s: string)
    ensures Ink(Trim(s)) == Ink(s)
  {
    TrimRightKeepsInk(TrimLeft(s));
    TrimLeftKeepsInk(s);
  }

  lemma ShownOneMore(ms: seq<Message>, m: Message, id: string)
    ensures Shown(ms + [m], id) == Shown(ms, id) + ShownBy(m, id)
  {
    assert (ms + [m])[..|ms|] == ms;
  }

  lemma {:induction false} ShownAppend(a: seq<Message>, b: seq<Message>, id: string)
    ensures Shown(a + b, id) == Shown(a, id) + Shown(b, id)
    decreases |b|
  {
    if b == [] {
      assert a + b == a;
    } else {
      var before, last := b[..|b| - 1], b[|b| - 1];
      ShownAppend(a, before, id);
      ShownOneMore(a + before, last, id);
      assert a + b == a + before + [last] by {
        assert b == before + [last];
        Assoc(a, before, [last]);
      }
      Assoc(Shown(a, id), Shown(before, id), ShownBy(last, id));
    }
  }

  lemma OneMessage(m: Message, id: string)
    ensures Shown([m], id) == ShownBy(m, id)
  {
    assert Shown([m][..0], id) == "";
  }

  lemma ThoughtShows(id: string, line: string)
    ensures Ink(Shown(Thoughts(id, line), id)) == Ink(line)
  {
    TrimKeepsInk(line);
    if Trim(line) != "" {
      OneMessage(Thought(id, Trim(line)), id);
    } else {
      assert Thoughts(id, line) == [];
    }
  }

  lemma {:induction false} ThoughtsShow(id: string, lines: seq<string>)
    ensures Ink(Shown(ThoughtsOf(id, lines), id)) == Ink(Unlines(lines))
  {
    if lines != [] {
      var first, more := Thoughts(id, lines[0]), ThoughtsOf(id, lines[1..]);
      ShownAppend(first, more, id);
      InkAppend(Shown(first, id), Shown(more, id));
      ThoughtShows(id, lines[0]);
      ThoughtsShow(id, lines[1..]);
      InkAppend(lines[0] + "\n", Unlines(lines[1..]));
      InkAppend(lines[0], "\n");
      assert Ink("\n") == "";
    }
  }

  lemma {:induction false} ThoughtsAreOwn(id: string, lines: seq<string>, other: string)
    requires other != id
    ensures Shown(ThoughtsOf(id, lines), other) == ""
  {
    if lines != [] {
      ThoughtsAreOwn(id, lines[1..], other);
      ShownAppend(Thoughts(id, lines[0]), ThoughtsOf(id, lines[1..]), other);
    }
  }

  /** What an event sends is all about its own task. */
  lemma OtherTaskShown(b: Buffers, e: Event, id: string)
    requires id != e.id
    ensures Shown(Sent(b, e), id) == ""
  {
    if e.id != "" {
      var cur := At(b.texts, e.id);
      match e
      case Started(_, _) =>
      case Text(_, _) =>
      case Reasoning(_, text) =>
        if |cur + text| > LIMIT {
          OneMessage(Thought(e.id, Trim(cur + text)), id);
        } else {
          ThoughtsAreOwn(e.id, Lines(cur + text), id);
        }
      case Done(_, output) =>
        OneMessage(Answer(e.id, Trim(cur), At(b.models, e.id)), id);
        OneMessage(Output(e.id, Trim(output)), id);
      case Failed(_) =>
        OneMessage(Answer(e.id, Trim(cur), At(b.models, e.id)), id);
    }
  }

  lemma OtherTask(b: Buffers, e: Event, id: string)
    requires id != e.id
    ensures Shown(Sent(b, e), id) == "" && At(After(b, e).texts, id) == At(b.texts, id) && Appended(e, id) == ""
  {
    OtherTaskShown(b, e, id);
  }

  lemma ReasoningKeepsInk(b: Buffers, id: string, text: string)
    requires id != ""
    ensures var e := Reasoning(id, text);
            Ink(At(b.texts, id) + text) == Ink(Shown(Sent(b, e), id)) + Ink(At(After(b, e).texts, id))
  {
    var s := At(b.texts, id) + text;
    if |s| > LIMIT {
      ThoughtShows(id, s);
    } else {
      LinesAndRest(s);
      ThoughtsShow(id, Lines(s));
      InkAppend(Unlines(Lines(s)), Rest(s));
    }
  }

  lemma FlushKeepsInk(b: Buffers, e: Event)
    requires e.id != "" && (e.Done? || e.Failed?)
    ensures Ink(At(b.texts, e.id)) == Ink(Shown(Sent(b, e), e.id)) + Ink(At(After(b, e).texts, e.id))
  {
    TrimKeepsInk(At(b.texts, e.id));
    if Trim(At(b.texts, e.id)) != "" {
      OneMessage(Answer(e.id, Trim(At(b.texts, e.id)), At(b.models, e.id)), e.id);
    }
  }

  /** One event: the ink buffered and the ink coming in are the ink shown and the ink left. */
  lemma EventKeepsInk(b: Buffers, e: Event, id: string)
    requires id != ""
    ensures Ink(At(b.texts, id) + Appended(e, id)) == Ink(Shown(Sent(b, e), id)) + Ink(At(After(b, e).texts, id))
  {
    var cur := At(b.texts, id);
    assert cur + "" == cur;
    if e.id != id {
      OtherTask(b, e, id);
    } else if e.Reasoning? {
      ReasoningKeepsInk(b, id, e.text);
    } else if e.Done? || e.Failed? {
      FlushKeepsInk(b, e);
    }
  }

  /** For every task of every run, what came in is what was shown and what is buffered, blanks aside. */
  lemma {:induction false} NothingIsLost(es: seq<Event>, id: string)
    requires id != ""
    ensures Ink(Input(es, id)) == Ink(Shown(Trace(es), id)) + Ink(At(StateAfter(es).texts, id))
  {
    if es != [] {
      var before, e := es[..|es| - 1], es[|es| - 1];
      NothingIsLost(before, id);
      var b := StateAfter(before);
      NothingIsLostStep(Input(before, id), Appended(e, id), Shown(Trace(before), id), At(b.texts, id),
                        Shown(Sent(b, e), id), At(After(b, e).texts, id)) by {
        EventKeepsInk(b, e, id);
      }
      ShownAppend(Trace(before), Sent(b, e), id);
    }
  }

  lemma NothingIsLostStep(came: string, comes: string, went: string, had: string, goes: string, has: string)
    requires Ink(came) == Ink(went) + Ink(had)
    requires Ink(had + comes) == Ink(goes) + Ink(has)
    ensures Ink(came + comes) == Ink(went + goes) + Ink(has)
  {
    InkAppend(came, comes);
    InkAppend(had, comes);
    InkAppend(went, goes);
    Assoc(Ink(went), Ink(had), Ink(comes));
    Assoc(Ink(went), Ink(goes), Ink(has));
  }

  /** A task whose text all comes as reasoning never has a line end or more than the limit buffered. */
  lemma {:induction false} ReasoningStaysShort(es: seq<Event>, id: string)
    requires forall i | 0 <= i < |es| :: es[i].Text? ==> es[i].id != id
    ensures IsShort(At(StateAfter(es).texts, id))
  {
    if es != [] {
      ReasoningStaysShort(es[..|es| - 1], id);
    }
  }

  // ---------------------------------------------------------------- pieces

  function Concat(pieces: seq<string>): string {
    if pieces == [] then "" else Concat(pieces[..|pieces| - 1]) + pieces[|pieces| - 1]
  }

  function Stream(id: string, pieces: seq<string>): seq<Event> {
    seq(|pieces|, i requires 0 <= i < |pieces| => Reasoning(id, pieces[i]))
  }

  /** No piece makes the unfinished line before it too long. */
  predicate Fits(pieces: seq<string>) {
    forall k | 0 <= k < |pieces| :: |Rest(Concat(pieces[..k])) + pieces[k]| <= LIMIT
  }

  lemma {:induction false} ThoughtsOfMore(id: string, a: seq<string>, b: seq<string>)
    ensures ThoughtsOf(id, a + b) == ThoughtsOf(id, a) + ThoughtsOf(id, b)
  {
    if a == [] {
      assert a + b == b;
    } else {
      assert (a + b)[1..] == a[1..] + b;
      ThoughtsOfMore(id, a[1..], b);
    }
  }

  /** The pieces a text arrives in do not show: its lines are sent, its unfinished line is kept. */
  lemma {:induction false} PiecesDoNotShow(id: string, pieces: seq<string>)
    requires id != "" && Fits(pieces)
    ensures Trace(Stream(id, pieces)) == ThoughtsOf(id, Lines(Concat(pieces)))
    ensures At(StateAfter(Stream(id, pieces)).texts, id) == Rest(Concat(pieces))
  {
    if pieces != [] {
      var n := |pieces| - 1;
      FitsBefore(pieces);
      PiecesDoNotShow(id, pieces[..n]);
      LastOfStream(id, pieces);
      assert pieces[..n] == pieces[..|pieces| - 1];
      OnePiece(id, StateAfter(Stream(id, pieces[..n])), Concat(pieces[..n]), pieces[n]);
    }
  }

  lemma FitsBefore(pieces: seq<string>)
    requires pieces != [] && Fits(pieces)
    ensures Fits(pieces[..|pieces| - 1])
    ensures |Rest(Concat(pieces[..|pieces| - 1])) + pieces[|pieces| - 1]| <= LIMIT
  {
    var before := pieces[..|pieces| - 1];
    forall k | 0 <= k < |before|
      ensures |Rest(Concat(before[..k])) + before[k]| <= LIMIT
    {
      assert before[..k] == pieces[..k];
    }
  }

  lemma LastOfStream(id: string, pieces: seq<string>)
    requires pieces != []
    ensures var es, before, e := Stream(id, pieces), Stream(id, pieces[..|pieces| - 1]), Reasoning(id, pieces[|pieces| - 1]);
            Trace(es) == Trace(before) + Sent(StateAfter(before), e) && StateAfter(es) == After(StateAfter(before), e)
  {
    var es, n := Stream(id, pieces), |pieces| - 1;
    assert es[..n] == Stream(id, pieces[..n]) && es[n] == Reasoning(id, pieces[n]);
  }

  lemma OnePiece(id: string, b: Buffers, s: string, piece: string)
    requires id != "" && At(b.texts, id) == Rest(s) && |Rest(s) + piece| <= LIMIT
    ensures ThoughtsOf(id, Lines(s)) + Sent(b, Reasoning(id, piece)) == ThoughtsOf(id, Lines(s + piece))
    ensures At(After(b, Reasoning(id, piece)).texts, id) == Rest(s + piece)
  {
    LinesOfMore(s, piece);
    ThoughtsOfMore(id, Lines(s), Lines(Rest(s) + piece));
  }
}
