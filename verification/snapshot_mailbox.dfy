/**
  The latest-wins snapshot mailbox of cmd/hufu/display.go: callers bump a generation
  counter and then, under a mutex, replace whatever is in a one-slot channel; a single
  worker takes generations out, queries, and reports only when the generation it holds
  is still the newest.

  Every atomic action of the code is one step.  The history fields (`taken`, `displaced`,
  `sent`) record what happened and no step reads them.
*/
module SnapshotMailbox {

  /** Where one request call is: after the bump, holding the mutex, or past the drain. */
  datatype Caller = Bumped(gen: nat) | Locked(gen: nat) | Drained(gen: nat)

  datatype Message = Snapshot(gen: nat) | Unavailable(gen: nat) | Details(gen: nat)

  datatype Worker =
    | Ready
    | Querying(gen: nat)
    | HasSnapshot(gen: nat)          // about to compare the generation, with a snapshot in hand
    | NoSnapshot(gen: nat)           // about to compare the generation, to report unavailability
    | StillNewest(gen: nat)          // compared equal, about to look at the context
    | Sending(message: Message)
    | LoadedDetails(gen: nat)        // about to compare again before sending the details
    | Exited

  datatype State = State(
    latest: nat,
    holder: set<nat>,                // the caller holding the mutex
    callers: map<nat, Caller>,       // request calls in progress
    box: seq<nat>,                   // the channel, capacity one
    cancelled: bool,
    worker: Worker,
    taken: seq<nat>,
    displaced: set<nat>,
    outcomes: map<nat, bool>,        // whether the query of a generation returned a snapshot
    sent: seq<Message>)

  datatype Step =
    | Bump(c: nat)
    | Lock(c: nat)
    | Drain(c: nat)
    | Put(c: nat)
    | Cancel
    | Exit
    | Take
    | QueryEnds(snapshot: bool)
    | CompareSnapshot
    | CompareUnavailable
    | CheckContext
    | Send
    | CompareDetails

  const CAPACITY := 1

  const START := State(0, {}, map[], [], false, Ready, [], {}, map[], [])

  predicate Enabled(s: State, step: Step) {
    match step
    case Bump(c) => c !in s.callers
    case Lock(c) => c in s.callers && s.callers[c].Bumped? && s.holder == {}
    case Drain(c) => c in s.callers && s.callers[c].Locked?
    case Put(c) => c in s.callers && s.callers[c].Drained? && |s.box| < CAPACITY
    case Cancel => true
    case Exit => s.worker.Ready? && s.cancelled
    case Take => s.worker.Ready? && s.box != []
    case QueryEnds(_) => s.worker.Querying?
    case CompareSnapshot => s.worker.HasSnapshot?
    case CompareUnavailable => s.worker.NoSnapshot?
    case CheckContext => s.worker.StillNewest?
    case Send => s.worker.Sending?
    case CompareDetails => s.worker.LoadedDetails?
  }

  function Do(s: State, step: Step): State
    requires Enabled(s, step)
  {
    match step
    case Bump(c) => s.(latest := s.latest + 1, callers := s.callers[c := Bumped(s.latest + 1)])
    case Lock(c) => s.(holder := {c}, callers := s.callers[c := Locked(s.callers[c].gen)])
    case Drain(c) =>
      s.(callers := s.callers[c := Drained(s.callers[c].gen)],
         box := if s.box == [] then [] else s.box[1..],
         displaced := if s.box == [] then s.displaced else s.displaced + {s.box[0]})
    case Put(c) => s.(box := s.box + [s.callers[c].gen], holder := {}, callers := s.callers - {c})
    case Cancel => s.(cancelled := true)
    case Exit => s.(worker := Exited)
    case Take => s.(worker := Querying(s.box[0]), taken := s.taken + [s.box[0]], box := s.box[1..])
    case QueryEnds(snapshot) =>
      s.(worker := if snapshot then HasSnapshot(s.worker.gen) else NoSnapshot(s.worker.gen),
         outcomes := s.outcomes[s.worker.gen := snapshot])
    case CompareSnapshot =>
      s.(worker := if s.worker.gen == s.latest then Sending(Snapshot(s.worker.gen)) else NoSnapshot(s.worker.gen))
    case CompareUnavailable =>
      s.(worker := if s.worker.gen == s.latest then StillNewest(s.worker.gen) else Ready)
    case CheckContext =>
      s.(worker := if s.cancelled then Ready else Sending(Unavailable(s.worker.gen)))
    case Send =>
      s.(sent := s.sent + [s.worker.message],
         worker := if s.worker.message.Snapshot? then LoadedDetails(s.worker.message.gen) else Ready)
    case CompareDetails =>
      s.(worker := if s.worker.gen == s.latest then Sending(Details(s.worker.gen)) else Ready)
  }

  ghost predicate Next(s: State, t: State) {
    exists step :: Enabled(s, step) && t == Do(s, step)
  }

  ghost predicate StepAt(run: seq<State>, i: nat)
    requires 0 < i < |run|
  {
    Next(run[i - 1], run[i])
  }

  /** A run: the states passed through, each reached by one step from the one before. */
  ghost predicate IsRun(run: seq<State>) {
    && run != [] && run[0] == START
    && forall i | 0 < i < |run| :: StepAt(run, i)
  }

  // ---------------------------------------------------------------- invariants

  /** The places a generation can be in. */
  datatype Place = WithCaller(c: nat) | InBox(i: nat) | Taken(i: nat) | Displaced

  predicate Holds(s: State, p: Place, g: nat) {
    match p
    case WithCaller(c) => c in s.callers && s.callers[c].gen == g
    case InBox(i) => i < |s.box| && s.box[i] == g
    case Taken(i) => i < |s.taken| && s.taken[i] == g
    case Displaced => g in s.displaced
  }

  /** Mutual exclusion, and an empty slot for whoever is about to fill it. */
  ghost predicate Exclusive(s: State) {
    && (forall c | c in s.callers :: !s.callers[c].Bumped? <==> c in s.holder)
    && (forall c, d | c in s.holder && d in s.holder :: c == d)
    && s.holder <= s.callers.Keys
    && |s.box| <= CAPACITY
    && (forall c | c in s.callers :: s.callers[c].Drained? ==> s.box == [])
  }

  ghost predicate InRange(s: State) {
    forall p, g: nat | Holds(s, p, g) :: 1 <= g <= s.latest
  }

  ghost predicate OnePlace(s: State) {
    forall p, q, g: nat | Holds(s, p, g) && Holds(s, q, g) :: p == q
  }

  ghost predicate SomePlace(s: State) {
    forall g: nat | 1 <= g <= s.latest :: Somewhere(s, g)
  }

  ghost predicate Somewhere(s: State, g: nat) {
    exists p :: Holds(s, p, g)
  }

  predicate Busy(w: Worker) {
    !w.Ready? && !w.Exited?
  }

  function WorkingOn(w: Worker): nat
    requires Busy(w)
  {
    if w.Sending? then w.message.gen else w.gen
  }

  predicate Reported(s: State, g: nat) {
    exists i | 0 <= i < |s.sent| :: s.sent[i].gen == g
  }

  /** Messages never go back; two with one generation are a snapshot and then its details. */
  ghost predicate Ordered(sent: seq<Message>) {
    forall i, j | 0 <= i < j < |sent| ::
      sent[i].gen < sent[j].gen || (j == i + 1 && sent[i].Snapshot? && sent[j] == Details(sent[i].gen))
  }

  ghost predicate Below(sent: seq<Message>, g: nat) {
    forall i | 0 <= i < |sent| :: sent[i].gen < g
  }

  ghost predicate FollowsSnapshot(sent: seq<Message>, g: nat) {
    sent != [] && sent[|sent| - 1] == Snapshot(g)
  }

  /** The worker holds the generation it took last, and what it is about to send fits behind `sent`. */
  ghost predicate WorkerFits(s: State) {
    && (Busy(s.worker) ==> s.taken != [] && s.taken[|s.taken| - 1] == WorkingOn(s.worker))
    && match s.worker
       case Ready => true
       case Exited => true
       case Sending(Details(g)) => FollowsSnapshot(s.sent, g)
       case LoadedDetails(g) => FollowsSnapshot(s.sent, g)
       case Sending(m) => Below(s.sent, m.gen)
       case StillNewest(g) => Below(s.sent, g)
       case _ => !Reported(s, s.worker.gen)
  }

  ghost predicate SentFits(s: State) {
    && Ordered(s.sent)
    && forall i | 0 <= i < |s.sent| :: s.sent[i].gen in s.taken
  }

  /** Unless it was cancelled, a worker that is done with the newest generation has reported it. */
  ghost predicate NewestReported(s: State) {
    s.latest in s.taken && !(Busy(s.worker) && WorkingOn(s.worker) == s.latest) && !s.cancelled ==> Reported(s, s.latest)
  }

  ghost predicate Inv(s: State) {
    Exclusive(s) && InRange(s) && OnePlace(s) && SomePlace(s) && WorkerFits(s) && SentFits(s) && NewestReported(s)
  }

  lemma ExclusiveKept(s: State, step: Step)
    requires Exclusive(s) && Enabled(s, step)
    ensures Exclusive(Do(s, step))
  {
  }

  /** Where a generation held at `p` after a step was before it. */
  function Before(s: State, step: Step, p: Place, g: nat): Place
    requires Enabled(s, step)
  {
    match step
    case Drain(_) => if p.Displaced? && g !in s.displaced then InBox(0)
                     else if p.InBox? then InBox(p.i + 1) else p
    case Put(c) => if p.InBox? && p.i == |s.box| then WithCaller(c) else p
    case Take => if p.Taken? && p.i == |s.taken| then InBox(0)
                 else if p.InBox? then InBox(p.i + 1) else p
    case _ => p
  }

  /** No step moves a generation to two places or makes one up, except that a bump adds the next one. */
  lemma PlaceBefore(s: State, step: Step, p: Place, g: nat)
    requires Exclusive(s) && Enabled(s, step) && Holds(Do(s, step), p, g)
    requires !(step.Bump? && p == WithCaller(step.c))
    ensures Holds(s, Before(s, step, p, g), g)
  {
  }

  lemma PlaceAfter(s: State, step: Step, g: nat, p: Place) returns (q: Place)
    requires Exclusive(s) && Enabled(s, step) && Holds(s, p, g)
    ensures Holds(Do(s, step), q, g)
  {
    q := p;
    match step
    case Drain(_) =>
      if p.InBox? { q := Displaced; }
    case Put(c) =>
      if p == WithCaller(c) { q := InBox(|s.box|); }
    case Take =>
      if p.InBox? { q := Taken(|s.taken|); }
    case _ =>
  }

  lemma InRangeKept(s: State, step: Step)
    requires Exclusive(s) && InRange(s) && Enabled(s, step)
    ensures InRange(Do(s, step))
  {
    forall p, g: nat | Holds(Do(s, step), p, g)
      ensures 1 <= g <= Do(s, step).latest
    {
      if !(step.Bump? && p == WithCaller(step.c)) {
        PlaceBefore(s, step, p, g);
      }
    }
  }

  lemma OnePlaceKept(s: State, step: Step)
    requires Exclusive(s) && InRange(s) && OnePlace(s) && Enabled(s, step)
    ensures OnePlace(Do(s, step))
  {
    forall p, q, g: nat | Holds(Do(s, step), p, g) && Holds(Do(s, step), q, g)
      ensures p == q
    {
      if step.Bump? && p == WithCaller(step.c) {
        if q != p { PlaceBefore(s, step, q, g); }
      } else if step.Bump? && q == WithCaller(step.c) {
        PlaceBefore(s, step, p, g);
      } else {
        PlaceBefore(s, step, p, g);
        PlaceBefore(s, step, q, g);
        assert Before(s, step, p, g) == Before(s, step, q, g);
      }
    }
  }

  lemma SomePlaceKept(s: State, step: Step)
    requires Exclusive(s) && SomePlace(s) && Enabled(s, step)
    ensures SomePlace(Do(s, step))
  {
    forall g: nat | 1 <= g <= Do(s, step).latest
      ensures Somewhere(Do(s, step), g)
    {
      if g <= s.latest {
        assert Somewhere(s, g);
        var p :| Holds(s, p, g);
        var q := PlaceAfter(s, step, g, p);
      } else {
        assert Holds(Do(s, step), WithCaller(step.c), g);
      }
    }
  }

  lemma TakenIsNew(s: State)
    requires InRange(s) && OnePlace(s) && SentFits(s) && s.box != []
    ensures s.box[0] !in s.taken && !Reported(s, s.box[0])
  {
    var g := s.box[0];
    assert Holds(s, InBox(0), g);
    forall i | 0 <= i < |s.taken|
      ensures s.taken[i] != g
    {
      assert Holds(s, Taken(i), s.taken[i]);
    }
  }

  /** A message about the newest generation, not reported before, goes behind all messages. */
  lemma NewestIsLast(s: State, g: nat)
    requires InRange(s) && SentFits(s) && !Reported(s, g) && g == s.latest
    ensures Below(s.sent, g)
  {
    forall i | 0 <= i < |s.sent|
      ensures s.sent[i].gen < g
    {
      var k :| 0 <= k < |s.taken| && s.taken[k] == s.sent[i].gen;
      assert Holds(s, Taken(k), s.sent[i].gen);
    }
  }

  lemma WorkerFitsKept(s: State, step: Step)
    requires InRange(s) && OnePlace(s) && WorkerFits(s) && SentFits(s) && Enabled(s, step)
    ensures WorkerFits(Do(s, step))
  {
    if step.Take? {
      TakenIsNew(s);
    } else if step.CompareSnapshot? || step.CompareUnavailable? {
      if s.worker.gen == s.latest {
        NewestIsLast(s, s.worker.gen);
      }
    }
  }

  lemma SentFitsKept(s: State, step: Step)
    requires WorkerFits(s) && SentFits(s) && Enabled(s, step)
    ensures SentFits(Do(s, step))
  {
    var t := Do(s, step);
    if step.Send? {
      var m := s.worker.message;
      forall i, j | 0 <= i < j < |t.sent|
        ensures t.sent[i].gen < t.sent[j].gen
             || (j == i + 1 && t.sent[i].Snapshot? && t.sent[j] == Details(t.sent[i].gen))
      {
        if j == |s.sent| && m.Details? && i < j - 1 {
          assert s.sent[i].gen < s.sent[j - 1].gen || s.sent[j - 1].Details?;
        }
      }
    }
  }

  lemma NewestReportedKept(s: State, step: Step)
    requires InRange(s) && OnePlace(s) && WorkerFits(s) && SentFits(s) && NewestReported(s) && Enabled(s, step)
    ensures NewestReported(Do(s, step))
  {
    var t := Do(s, step);
    if step.Bump? {
      forall k | 0 <= k < |s.taken|
        ensures s.taken[k] != t.latest
      {
        assert Holds(s, Taken(k), s.taken[k]);
      }
    } else if step.Send? {
      assert t.sent[|s.sent|].gen == WorkingOn(s.worker);
      if Reported(s, s.latest) {
        var i :| 0 <= i < |s.sent| && s.sent[i].gen == s.latest;
        assert t.sent[i].gen == s.latest;
      }
    } else if step.CompareDetails? {
      assert s.sent[|s.sent| - 1].gen == s.worker.gen;
    }
  }

  lemma InvKept(s: State, step: Step)
    requires Inv(s) && Enabled(s, step)
    ensures Inv(Do(s, step))
  {
    ExclusiveKept(s, step);
    InRangeKept(s, step);
    OnePlaceKept(s, step);
    SomePlaceKept(s, step);
    WorkerFitsKept(s, step);
    SentFitsKept(s, step);
    NewestReportedKept(s, step);
  }

  lemma {:induction false} RunKeepsInv(run: seq<State>)
    requires IsRun(run)
    ensures Inv(run[|run| - 1])
  {
    var n := |run| - 1;
    if n > 0 {
      Shorter(run);
      RunKeepsInv(run[..n]);
      assert StepAt(run, n);
      var step :| Enabled(run[n - 1], step) && run[n] == Do(run[n - 1], step);
      InvKept(run[n - 1], step);
    }
  }

  // ---------------------------------------------------------------- what every run guarantees

  ghost function Last(run: seq<State>): State
    requires run != []
  {
    run[|run| - 1]
  }

  /**
    The slot is free whenever a caller reaches its send under the mutex, even after the
    worker has stopped; and as long as a call is in progress some caller can move.
  */
  lemma SendNeverBlocks(run: seq<State>, c: nat)
    requires IsRun(run) && c in Last(run).callers
    ensures Last(run).callers[c].Drained? ==> Enabled(Last(run), Put(c))
    ensures exists d :: d in Last(run).callers
              && (Enabled(Last(run), Lock(d)) || Enabled(Last(run), Drain(d)) || Enabled(Last(run), Put(d)))
  {
    RunKeepsInv(run);
    var s := Last(run);
    if s.holder == {} {
      assert s.callers[c].Bumped?;
      assert Enabled(s, Lock(c));
    } else {
      var d :| d in s.holder;
      assert Enabled(s, Drain(d)) || Enabled(s, Put(d));
    }
  }

  /** At some moment the worker was comparing generation `g` and it was the newest. */
  ghost predicate ComparedNewest(run: seq<State>, g: nat) {
    exists i | 0 <= i < |run| ::
      && run[i].latest == g
      && (run[i].worker == HasSnapshot(g) || run[i].worker == NoSnapshot(g) || run[i].worker == LoadedDetails(g))
  }

  ghost predicate Vouched(run: seq<State>) {
    && run != []
    && (forall i | 0 <= i < |Last(run).sent| :: ComparedNewest(run, Last(run).sent[i].gen))
    && (Last(run).worker.Sending? ==> ComparedNewest(run, Last(run).worker.message.gen))
    && (Last(run).worker.StillNewest? ==> ComparedNewest(run, Last(run).worker.gen))
  }

  lemma ComparedNewestExtends(run: seq<State>, t: State, g: nat)
    requires ComparedNewest(run, g)
    ensures ComparedNewest(run + [t], g)
  {
    var i :| 0 <= i < |run| && run[i].latest == g
             && (run[i].worker == HasSnapshot(g) || run[i].worker == NoSnapshot(g) || run[i].worker == LoadedDetails(g));
    assert (run + [t])[i] == run[i];
  }

  lemma VouchedKept(run: seq<State>, step: Step)
    requires Vouched(run) && Enabled(Last(run), step)
    ensures Vouched(run + [Do(Last(run), step)])
  {
    var s, t := Last(run), Do(Last(run), step);
    var next := run + [t];
    assert next[|run| - 1] == s && Last(next) == t;
    forall i | 0 <= i < |t.sent|
      ensures ComparedNewest(next, t.sent[i].gen)
    {
      ComparedNewestExtends(run, t, t.sent[i].gen);
    }
    if s.worker.Sending? {
      ComparedNewestExtends(run, t, s.worker.message.gen);
    } else if s.worker.StillNewest? {
      ComparedNewestExtends(run, t, s.worker.gen);
    }
  }

  lemma {:induction false} RunIsVouched(run: seq<State>)
    requires IsRun(run)
    ensures Vouched(run)
  {
    var n := |run| - 1;
    if n > 0 {
      Shorter(run);
      RunIsVouched(run[..n]);
      assert StepAt(run, n);
      var step :| Enabled(run[n - 1], step) && run[n] == Do(run[n - 1], step);
      VouchedKept(run[..n], step);
      assert run[..n] + [run[n]] == run;
    }
  }

  lemma Shorter(run: seq<State>)
    requires IsRun(run) && |run| > 1
    ensures IsRun(run[..|run| - 1])
  {
    var before := run[..|run| - 1];
    forall i | 0 < i < |before|
      ensures StepAt(before, i)
    {
      assert StepAt(run, i);
    }
  }

  /**
    In every interleaving, messages come in strictly increasing generations (a snapshot
    and its details share one), and each generation was the newest when it was compared.
  */
  lemma MessagesAreFresh(run: seq<State>)
    requires IsRun(run)
    ensures Ordered(Last(run).sent)
    ensures forall i | 0 <= i < |Last(run).sent| :: ComparedNewest(run, Last(run).sent[i].gen)
  {
    RunKeepsInv(run);
    RunIsVouched(run);
  }

  /** No call in progress, nothing in the box, and the worker idle and not cancelled. */
  predicate Quiescent(s: State) {
    s.callers == map[] && s.box == [] && s.worker.Ready? && !s.cancelled
  }

  lemma NotInBoth(s: State, p: Place, q: Place, g: nat)
    requires OnePlace(s) && p != q
    ensures !Holds(s, p, g) || !Holds(s, q, g)
  {
  }

  /**
    Once everything is quiet, the newest request has been answered exactly when it was
    not displaced from the box.
  */
  lemma NewestAnsweredUnlessDisplaced(run: seq<State>)
    requires IsRun(run) && Quiescent(Last(run)) && Last(run).latest > 0
    ensures Reported(Last(run), Last(run).latest) <==> Last(run).latest !in Last(run).displaced
  {
    RunKeepsInv(run);
    var s := Last(run);
    if Reported(s, s.latest) {
      var i :| 0 <= i < |s.taken| && s.taken[i] == s.latest;
      NotInBoth(s, Displaced, Taken(i), s.latest);
    }
    assert Somewhere(s, s.latest);
    var p :| Holds(s, p, s.latest);
  }

  // ---------------------------------------------------------------- what the messages say

  /** The outcome kept for a generation is that of its query. */
  lemma OutcomeIsTheQuery(s: State, snapshot: bool)
    requires Enabled(s, QueryEnds(snapshot))
    ensures
      var t := Do(s, QueryEnds(snapshot));
      && t.outcomes == s.outcomes[WorkingOn(s.worker) := snapshot]
      && (t.worker.HasSnapshot? <==> snapshot) && Busy(t.worker) && WorkingOn(t.worker) == WorkingOn(s.worker)
  {
  }

  /** A message says what the query of its generation came to. */
  predicate Matches(outcomes: map<nat, bool>, m: Message) {
    m.gen in outcomes && outcomes[m.gen] == !m.Unavailable?
  }

  /** The worker goes by the outcome of the query it made last. */
  predicate WorkerMatches(s: State) {
    match s.worker
    case Ready => true
    case Exited => s.cancelled
    case Querying(g) => g !in s.outcomes
    case HasSnapshot(g) => g in s.outcomes && s.outcomes[g]
    case NoSnapshot(g) => g in s.outcomes && (s.outcomes[g] ==> g < s.latest)
    case StillNewest(g) => Matches(s.outcomes, Unavailable(g))
    case Sending(m) => Matches(s.outcomes, m)
    case LoadedDetails(g) => Matches(s.outcomes, Details(g))
  }

  ghost predicate SentMatches(s: State) {
    && (forall i | 0 <= i < |s.sent| :: Matches(s.outcomes, s.sent[i]))
    && forall g | g in s.outcomes :: g in s.taken
  }

  /** An answer to the newest request is complete, or the worker is about to complete it. */
  predicate NewestComplete(s: State) {
    s.sent != [] && s.sent[|s.sent| - 1].gen == s.latest ==>
      match s.sent[|s.sent| - 1]
      case Unavailable(g) => true
      case Snapshot(g) => s.worker == LoadedDetails(g) || s.worker == Sending(Details(g))
      case Details(g) => |s.sent| > 1 && s.sent[|s.sent| - 2] == Snapshot(g)
  }

  lemma WorkerMatchesKept(s: State, step: Step)
    requires InRange(s) && OnePlace(s) && SentFits(s) && WorkerFits(s) && WorkerMatches(s) && SentMatches(s)
    requires Enabled(s, step)
    ensures WorkerMatches(Do(s, step))
  {
    if step.Take? {
      TakenIsNew(s);
    } else if step.CompareSnapshot? {
      assert Holds(s, Taken(|s.taken| - 1), s.worker.gen);
    }
  }

  lemma SentMatchesKept(s: State, step: Step)
    requires WorkerFits(s) && WorkerMatches(s) && SentMatches(s) && Enabled(s, step)
    ensures SentMatches(Do(s, step))
  {
    var t := Do(s, step);
    if step.Take? {
      assert t.taken[..|s.taken|] == s.taken;
    } else if step.QueryEnds? {
      assert s.taken[|s.taken| - 1] == s.worker.gen;
    }
  }

  lemma NewestCompleteKept(s: State, step: Step)
    requires InRange(s) && WorkerFits(s) && SentFits(s) && NewestComplete(s) && Enabled(s, step)
    ensures NewestComplete(Do(s, step))
  {
    if step.Bump? && s.sent != [] {
      var g := s.sent[|s.sent| - 1].gen;
      var i :| 0 <= i < |s.taken| && s.taken[i] == g;
      assert Holds(s, Taken(i), g);
    }
  }

  lemma {:induction false} RunMatches(run: seq<State>)
    requires IsRun(run)
    ensures WorkerMatches(Last(run)) && SentMatches(Last(run)) && NewestComplete(Last(run))
  {
    var n := |run| - 1;
    if n > 0 {
      Shorter(run);
      RunMatches(run[..n]);
      RunKeepsInv(run[..n]);
      assert StepAt(run, n);
      var step :| Enabled(run[n - 1], step) && run[n] == Do(run[n - 1], step);
      WorkerMatchesKept(run[n - 1], step);
      SentMatchesKept(run[n - 1], step);
      NewestCompleteKept(run[n - 1], step);
    }
  }

  /**
    In every interleaving, a snapshot and its details are sent only for a generation whose query
    returned one, and unavailability only for one whose query did not.
  */
  lemma MessagesSayTheOutcome(run: seq<State>)
    requires IsRun(run)
    ensures forall i | 0 <= i < |Last(run).sent| ::
      var m := Last(run).sent[i];
      && m.gen in Last(run).outcomes
      && (m.Snapshot? || m.Details? <==> Last(run).outcomes[m.gen])
      && (m.Unavailable? <==> !Last(run).outcomes[m.gen])
  {
    RunMatches(run);
    forall i | 0 <= i < |Last(run).sent|
      ensures Matches(Last(run).outcomes, Last(run).sent[i])
    {
    }
  }

  /** After the stop no unavailability is decided on, and the worker exits only then. */
  lemma StopSilences(run: seq<State>, step: Step)
    requires IsRun(run) && Enabled(Last(run), step)
    ensures
      var s, t := Last(run), Do(Last(run), step);
      && (s.cancelled && t.worker.Sending? && t.worker.message.Unavailable? ==> t.worker == s.worker)
      && (t.worker.Exited? ==> s.cancelled)
  {
    RunMatches(run);
  }

  /**
    Once everything is quiet, a newest request that was not displaced has the last messages: its
    snapshot and its details when its query returned one, and otherwise that none is available.
  */
  lemma NewestAnswerSaysTheOutcome(run: seq<State>)
    requires IsRun(run) && Quiescent(Last(run)) && Last(run).latest > 0
    requires Last(run).latest !in Last(run).displaced
    ensures
      var s := Last(run);
      && s.latest in s.outcomes
      && (s.outcomes[s.latest] <==> |s.sent| > 1 && s.sent[|s.sent| - 2..] == [Snapshot(s.latest), Details(s.latest)])
      && (!s.outcomes[s.latest] <==> s.sent != [] && s.sent[|s.sent| - 1..] == [Unavailable(s.latest)])
  {
    NewestAnsweredUnlessDisplaced(run);
    RunMatches(run);
    RunKeepsInv(run);
    NewestIsTheLastSent(Last(run));
    var s := Last(run);
    assert Matches(s.outcomes, s.sent[|s.sent| - 1]);
    assert s.sent[|s.sent| - 1..] == [s.sent[|s.sent| - 1]];
    if |s.sent| > 1 {
      assert s.sent[|s.sent| - 2..] == [s.sent[|s.sent| - 2], s.sent[|s.sent| - 1]];
    }
  }

  lemma NewestIsTheLastSent(s: State)
    requires InRange(s) && SentFits(s) && Reported(s, s.latest)
    ensures s.sent != [] && s.sent[|s.sent| - 1].gen == s.latest
  {
    var i :| 0 <= i < |s.sent| && s.sent[i].gen == s.latest;
    var g := s.sent[|s.sent| - 1].gen;
    var j :| 0 <= j < |s.taken| && s.taken[j] == g;
    assert Holds(s, Taken(j), g);
  }

  /** Only a call with an older generation can displace the newest one. */
  lemma DisplacedByOlderCall(run: seq<State>, c: nat)
    requires IsRun(run) && Enabled(Last(run), Drain(c))
    requires Last(run).latest !in Last(run).displaced && Last(run).latest in Do(Last(run), Drain(c)).displaced
    ensures Last(run).callers[c].gen < Last(run).latest
  {
    RunKeepsInv(run);
    var s := Last(run);
    assert Holds(s, InBox(0), s.latest);
    assert Holds(s, WithCaller(c), s.callers[c].gen);
  }

  /** Every request call starts only when no other is in progress. */
  ghost predicate NoOverlap(run: seq<State>) {
    forall i | 0 < i < |run| :: StartsAlone(run, i)
  }

  ghost predicate StartsAlone(run: seq<State>, i: nat)
    requires 0 < i < |run|
  {
    run[i].latest > run[i - 1].latest ==> run[i - 1].callers == map[]
  }

  lemma NoOverlapBefore(run: seq<State>)
    requires NoOverlap(run) && |run| > 1
    ensures NoOverlap(run[..|run| - 1]) && StartsAlone(run, |run| - 1)
  {
    var before := run[..|run| - 1];
    forall i | 0 < i < |before|
      ensures StartsAlone(before, i)
    {
      assert StartsAlone(run, i);
    }
  }

  ghost predicate OnlyNewestInProgress(s: State) {
    && (forall c | c in s.callers :: s.callers[c].gen == s.latest)
    && s.latest !in s.displaced
    && (s.taken != [] && s.callers == map[] && s.box == [] ==> s.taken[|s.taken| - 1] == s.latest)
    && (forall g | g in s.box && s.callers == map[] :: g == s.latest)
  }

  lemma OnlyNewestKept(s: State, step: Step)
    requires Inv(s) && OnlyNewestInProgress(s) && Enabled(s, step)
    requires step.Bump? ==> s.callers == map[]
    ensures OnlyNewestInProgress(Do(s, step))
  {
    var t := Do(s, step);
    if step.Bump? {
      assert Holds(s, Displaced, t.latest) ==> t.latest <= s.latest;
    } else if step.Drain? {
      assert step.c in t.callers;
      NotInBoth(s, InBox(0), WithCaller(step.c), s.latest);
    } else if step.Lock? {
      assert step.c in t.callers;
    } else if step.Take? {
      assert s.box[0] in s.box;
    } else if step.Put? {
      assert s.box == [] && t.box == [s.latest];
      forall d | d in s.callers
        ensures d == step.c
      {
        assert Holds(s, WithCaller(step.c), s.latest) && Holds(s, WithCaller(d), s.latest);
      }
    }
  }

  lemma {:induction false} NoOverlapRun(run: seq<State>)
    requires IsRun(run) && NoOverlap(run)
    ensures OnlyNewestInProgress(Last(run))
  {
    var n := |run| - 1;
    if n > 0 {
      Shorter(run);
      NoOverlapBefore(run);
      NoOverlapRun(run[..n]);
      RunKeepsInv(run[..n]);
      assert StepAt(run, n);
      var step :| Enabled(run[n - 1], step) && run[n] == Do(run[n - 1], step);
      OnlyNewestKept(run[n - 1], step);
    }
  }

  /** With calls that do not overlap, a quiet mailbox has answered the newest request. */
  lemma NewestAnswered(run: seq<State>)
    requires IsRun(run) && NoOverlap(run) && Quiescent(Last(run)) && Last(run).latest > 0
    ensures Reported(Last(run), Last(run).latest)
    ensures Last(run).taken != [] && Last(run).taken[|Last(run).taken| - 1] == Last(run).latest
  {
    NoOverlapRun(run);
    NewestAnsweredUnlessDisplaced(run);
    RunKeepsInv(run);
  }

  lemma Then(run: seq<State>, step: Step) returns (next: seq<State>)
    requires IsRun(run) && Enabled(Last(run), step)
    ensures IsRun(next) && Last(next) == Do(Last(run), step)
  {
    next := run + [Do(Last(run), step)];
    forall i | 0 < i < |next|
      ensures StepAt(next, i)
    {
      if i < |run| {
        assert StepAt(run, i);
      }
    }
  }

  lemma OlderCallTakesOver() returns (run: seq<State>)
    ensures IsRun(run) && Last(run) == State(2, {}, map[], [1], false, Ready, [], {2}, map[], [])
  {
    run := Then([START], Bump(1));
    run := Then(run, Bump(2));
    run := Then(run, Lock(2));
    run := Then(run, Drain(2));
    run := Then(run, Put(2));
    run := Then(run, Lock(1));
    run := Then(run, Drain(1));
    run := Then(run, Put(1));
  }

  /**
    When calls overlap, an older one can displace the newest: two calls bump in one order
    and take the mutex in the other, and the newest generation is never answered.
  */
  lemma OverlapCanLoseTheNewest() returns (run: seq<State>)
    ensures IsRun(run) && Quiescent(Last(run)) && Last(run).latest == 2
    ensures !Reported(Last(run), 2) && Last(run).displaced == {2} && Last(run).taken == [1]
  {
    run := OlderCallTakesOver();
    run := Then(run, Take);
    run := Then(run, QueryEnds(true));
    run := Then(run, CompareSnapshot);
    run := Then(run, CompareUnavailable);
  }
}
