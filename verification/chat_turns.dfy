/**
  One conversation (cmd/hufu/chat_turn.go, cmd/hufu/chat_runtime_adapter.go): which turns
  start a run and which continue one, across failures, resets and changes of team.
*/
module ChatTurns {
  import opened Options

  /** A loaded team; `id` tells its coordinator from every other. */
  datatype Team = Team(id: nat, name: string)

  /** What a coordinator, or the delivery after it, makes of a prompt. */
  datatype Reply = Reply(answer: string, failed: bool)

  /**
    What one turn meets: the coordinator's reply, what delivering it makes of it, whether the
    context was cancelled, and the results published before and after.
  */
  datatype Turn = Turn(
    line: string, prompt: string, reply: Reply, deliver: Reply -> Reply, cancelled: bool,
    resultBefore: Option<int>, resultAfter: Option<int>)
  {
    function Delivered(): Reply {
      deliver(reply)
    }
  }

  datatype Hook<T> = Unavailable | Fails | Works(value: T)

  datatype Event =
    | Take(turn: Turn)
    | Reset(reset: Hook<()>)
    | Switch(switch: Hook<Team>)

  /** What reaches a coordinator. */
  datatype Call =
    | Run(team: Team, prompt: string)
    | Continue(team: Team, prompt: string)

  datatype Outcome = Outcome(answer: string, failed: bool, cancelled: bool, result: Option<int>)

  function OutcomeOf(t: Turn): Outcome {
    Outcome(t.Delivered().answer, t.Delivered().failed, t.Delivered().failed && t.cancelled,
            if t.resultAfter.Some? && t.resultAfter != t.resultBefore then t.resultAfter else None)
  }

  /** Whether a turn left something to continue: it succeeded, or was cancelled under way. */
  predicate Counts(t: Turn) {
    !t.Delivered().failed || t.cancelled
  }

  // ---------------------------------------------------------------- the code

  class Sequencer {
    var turns: nat

    constructor ()
      ensures turns == 0
    {
      turns := 0;
    }

    predicate First()
      reads this
    {
      turns == 0
    }

    method Record(o: Outcome)
      modifies this
      ensures turns == old(turns) + if !o.failed || o.cancelled then 1 else 0
    {
      if !o.failed || o.cancelled {
        turns := turns + 1;
      }
    }

    method ResetTurns()
      modifies this
      ensures turns == 0
    {
      turns := 0;
    }
  }

  /** One turn on `team`; `saved` is the line kept in the prompt history. */
  method RunChatTurn(s: Sequencer, team: Team, t: Turn) returns (call: Call, outcome: Outcome, saved: Option<string>)
    modifies s
    ensures call == if old(s.turns) == 0 then Run(team, t.prompt) else Continue(team, t.prompt)
    ensures outcome.answer == t.deliver(t.reply).answer && outcome.failed == t.deliver(t.reply).failed
    ensures outcome.cancelled <==> outcome.failed && t.cancelled
    ensures outcome.result == if t.resultAfter != t.resultBefore then t.resultAfter else None
    ensures outcome == OutcomeOf(t)
    ensures saved == if t.deliver(t.reply).failed then None else Some(t.line)
    ensures s.turns == if !t.deliver(t.reply).failed || t.cancelled then old(s.turns) + 1 else old(s.turns)
  {
    var first := s.First();
    if first {
      call := Run(team, t.prompt);
    } else {
      call := Continue(team, t.prompt);
    }
    var result := None;
    if t.resultAfter.Some? && t.resultAfter != t.resultBefore {
      result := t.resultAfter;
    }
    outcome := Outcome(t.Delivered().answer, t.Delivered().failed, t.Delivered().failed && t.cancelled, result);
    saved := None;
    if !t.Delivered().failed {
      saved := Some(t.line);
    }
    s.Record(outcome);
  }

  datatype State = State(team: Team, name: string, turns: nat)

  function After(s: State, e: Event): State {
    match e
    case Take(t) => if Counts(t) then s.(turns := s.turns + 1) else s
    case Reset(h) => if h.Works? then s.(turns := 0) else s
    case Switch(h) => if h.Works? then State(h.value, h.value.name, 0) else s
  }

  function CallsOf(s: State, e: Event): seq<Call> {
    if !e.Take? then []
    else if s.turns == 0 then [Run(s.team, e.turn.prompt)]
    else [Continue(s.team, e.turn.prompt)]
  }

  class RuntimeAdapter {
    var team: Team
    var name: string
    const sequencer: Sequencer

    constructor (team: Team, name: string)
      ensures Now() == State(team, name, 0) && fresh(sequencer)
    {
      this.team, this.name := team, name;
      sequencer := new Sequencer();
    }

    function Now(): State
      reads this, sequencer
    {
      State(team, name, sequencer.turns)
    }

    method RunTurn(t: Turn) returns (calls: seq<Call>, outcome: Outcome, saved: Option<string>)
      modifies sequencer
      ensures Now() == After(old(Now()), Take(t)) && calls == CallsOf(old(Now()), Take(t))
      ensures calls == [if old(sequencer.turns) == 0 then Run(team, t.prompt) else Continue(team, t.prompt)]
      ensures outcome == OutcomeOf(t)
      ensures saved == if t.Delivered().failed then None else Some(t.line)
    {
      var call;
      call, outcome, saved := RunChatTurn(sequencer, team, t);
      calls := [call];
    }

    method ResetContext(h: Hook<()>) returns (ok: bool)
      modifies sequencer
      ensures Now() == After(old(Now()), Reset(h)) && ok == h.Works?
      ensures sequencer.turns == if ok then 0 else old(sequencer.turns)
    {
      if !h.Works? {
        return false;
      }
      sequencer.ResetTurns();
      ok := true;
    }

    method SwitchTeam(h: Hook<Team>) returns (ok: bool)
      modifies this, sequencer
      ensures Now() == After(old(Now()), Switch(h)) && ok == h.Works?
      ensures ok ==> team == h.value && name == h.value.name && sequencer.turns == 0
      ensures !ok ==> team == old(team) && name == old(name) && sequencer.turns == old(sequencer.turns)
    {
      if !h.Works? {
        return false;
      }
      team, name := h.value, h.value.name;
      sequencer.ResetTurns();
      ok := true;
    }
  }

  // ---------------------------------------------------------------- runs

  function StateAfter(start: State, es: seq<Event>): State {
    if es == [] then start else After(StateAfter(start, es[..|es| - 1]), es[|es| - 1])
  }

  predicate Clears(e: Event) {
    (e.Reset? && e.reset.Works?) || (e.Switch? && e.switch.Works?)
  }

  /** Event `i` is a turn that counts and nothing up to `n` clears it. */
  predicate Carries(es: seq<Event>, i: nat, n: nat)
    requires n <= |es|
  {
    i < n && es[i].Take? && (!es[i].turn.deliver(es[i].turn.reply).failed || es[i].turn.cancelled) && forall j | i < j < n :: !Clears(es[j])
  }

  /** There is a conversation to continue at the end of a run exactly when a turn carries to it. */
  lemma {:induction false} TurnsMeanCarried(start: State, es: seq<Event>)
    requires start.turns == 0
    ensures StateAfter(start, es).turns > 0 <==> exists i: nat :: Carries(es, i, |es|)
  {
    if es != [] {
      var n, before, e := |es| - 1, es[..|es| - 1], es[|es| - 1];
      TurnsMeanCarried(start, before);
      var m := |es|;
      if e.Take? && Counts(e.turn) {
        assert Carries(es, n, m);
      } else {
        forall i: nat
          ensures Carries(es, i, m) <==> !Clears(e) && Carries(before, i, n)
        {
          LastEvent(es, i);
        }
      }
    }
  }

  lemma LastEvent(es: seq<Event>, i: nat)
    requires es != [] && !(es[|es| - 1].Take? && Counts(es[|es| - 1].turn))
    ensures Carries(es, i, |es|) <==> !Clears(es[|es| - 1]) && Carries(es[..|es| - 1], i, |es| - 1)
  {
    var n, before := |es| - 1, es[..|es| - 1];
    if Carries(es, i, |es|) {
      assert i < n;
      assert forall j | i < j < n :: before[j] == es[j];
    }
    if i < n && !Clears(es[n]) && Carries(before, i, n) {
      forall j | i < j < |es|
        ensures !Clears(es[j])
      {
        if j < n {
          assert before[j] == es[j];
        }
      }
    }
  }

  /** A team is the same until the next change of team. */
  lemma {:induction false} TeamStays(start: State, es: seq<Event>, i: nat)
    requires i <= |es| && forall j | i <= j < |es| :: !(es[j].Switch? && es[j].switch.Works?)
    ensures StateAfter(start, es).team == StateAfter(start, es[..i]).team
    decreases |es|
  {
    if i == |es| {
      assert es[..i] == es;
    } else {
      TeamStays(start, es[..|es| - 1], i);
      assert es[..|es| - 1][..i] == es[..i];
    }
  }

  /**
    In any run, a turn continues a conversation exactly when an earlier turn counted and no
    reset or change of team came between, and that turn was on the same coordinator.
  */
  lemma ContinueExactlyWhenCarried(start: State, es: seq<Event>, k: nat)
    requires start.turns == 0 && k < |es| && es[k].Take?
    ensures var s := StateAfter(start, es[..k]);
            CallsOf(s, es[k]) == [Continue(s.team, es[k].turn.prompt)] <==> exists i: nat :: Carries(es, i, k)
    ensures forall i: nat | Carries(es, i, k) :: StateAfter(start, es[..i]).team == StateAfter(start, es[..k]).team
  {
    var before := es[..k];
    TurnsMeanCarried(start, before);
    forall i: nat
      ensures Carries(es, i, k) <==> Carries(before, i, |before|)
    {
    }
    forall i: nat | Carries(es, i, k)
      ensures StateAfter(start, es[..i]).team == StateAfter(start, before).team
    {
      TeamStays(start, before, i);
      assert before[..i] == es[..i];
    }
  }
}
