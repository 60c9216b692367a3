/**
  The causal timeline of cmd/hufu/explaincmd_ai.go: what is kept of a run's trace, and
  whether it establishes what triggered a cancellation.
*/
module ExplainCausality {
  import opened Options

  datatype Kind = RunStarted | WrapUpPhase | CancellationRequested | TaskEvent | PhaseFailed | BudgetExceeded | RunFinished | OtherKind

  datatype Entry = Entry(ordinal: int, kind: Kind, reason: string)

  datatype TraceEntry = TraceEntry(fromEventStore: bool, entry: Entry)

  datatype Causality =
    | NotApplicable
    | Verified(rootCause: string, ordinal: int)
    | Unavailable(wrapUp: Option<int>)

  const MAX_TIMELINE := 64

  // ---------------------------------------------------------------- the timeline

  predicate Causal(t: TraceEntry) {
    t.fromEventStore && t.entry.kind != OtherKind
  }

  function CausalEntries(trace: seq<TraceEntry>): seq<Entry> {
    if trace == [] then []
    else
      var last := trace[|trace| - 1];
      CausalEntries(trace[..|trace| - 1]) + if Causal(last) then [last.entry] else []
  }

  /** Of an entry of the trace, the timeline has what the event store recorded of a known kind. */
  lemma CausalOfOneMore(trace: seq<TraceEntry>, t: TraceEntry)
    ensures CausalEntries([]) == []
    ensures CausalEntries(trace + [t])
         == CausalEntries(trace) + if t.fromEventStore && !t.entry.kind.OtherKind? then [t.entry] else []
  {
    assert (trace + [t])[..|trace|] == trace;
  }

  function Tail<T>(values: seq<T>, limit: nat): seq<T> {
    if |values| <= limit then values else values[|values| - limit..]
  }

  method CompactTimeline(trace: seq<TraceEntry>) returns (timeline: seq<Entry>)
    ensures
      var all := CausalEntries(trace);
      timeline == if |all| <= 64 then all else all[|all| - 64..]
  {
    timeline := [];
    for i := 0 to |trace|
      invariant timeline == CausalEntries(trace[..i])
    {
      assert trace[..i + 1][..i] == trace[..i];
      if Causal(trace[i]) {
        timeline := timeline + [trace[i].entry];
      }
    }
    assert trace[..|trace|] == trace;
    if |timeline| > MAX_TIMELINE {
      timeline := timeline[|timeline| - MAX_TIMELINE..];
    }
  }

  /** Keeps the end of a list and counts what it drops; nothing goes uncounted. */
  method RetainTail<T>(values: seq<T>, limit: nat, omitted: map<string, nat>, field: string)
    returns (kept: seq<T>, counted: map<string, nat>)
    ensures |kept| <= |values| && kept == values[|values| - |kept|..]
    ensures |kept| == if |values| <= limit then |values| else limit
    ensures
      var before, after := (if field in omitted then omitted[field] else 0), (if field in counted then counted[field] else 0);
      |kept| + after == |values| + before
    ensures forall f | f != field :: (f in counted <==> f in omitted) && (f in omitted ==> counted[f] == omitted[f])
  {
    if |values| <= limit {
      return values, omitted;
    }
    kept := values[|values| - limit..];
    counted := omitted[field := (if field in omitted then omitted[field] else 0) + |values| - limit];
  }

  // ---------------------------------------------------------------- the verdict

  /** Event ordinals are positive and increase, as the event store assigns them. */
  ghost predicate Increasing(timeline: seq<Entry>) {
    && (forall i | 0 <= i < |timeline| :: timeline[i].ordinal > 0)
    && forall i, j | 0 <= i < j < |timeline| :: timeline[i].ordinal < timeline[j].ordinal
  }

  predicate FinishedAt(timeline: seq<Entry>, i: int) {
    0 <= i < |timeline| && timeline[i].kind == RunFinished
  }

  /** There is a run end after entry `i`, or no run end at all. */
  ghost predicate BeforeEnd(timeline: seq<Entry>, i: int) {
    (exists t :: FinishedAt(timeline, t)) ==> exists t :: i < t && FinishedAt(timeline, t)
  }

  /** A cancellation request that came before the run ended. */
  ghost predicate Establishes(timeline: seq<Entry>, i: int) {
    0 <= i < |timeline| && timeline[i].kind == CancellationRequested && BeforeEnd(timeline, i)
  }

  ghost predicate WrapsUp(timeline: seq<Entry>, i: int) {
    0 <= i < |timeline| && timeline[i].kind == WrapUpPhase && BeforeEnd(timeline, i)
  }

  /**
    The verdict on a cancelled run: the first request that establishes the trigger decides,
    and without one the last wrap-up before the end is all the evidence there is.
  */
  ghost predicate IsVerdict(timeline: seq<Entry>, c: Causality) {
    match c
    case NotApplicable => false
    case Verified(rootCause, ordinal) =>
      exists i :: Establishes(timeline, i) && (forall j :: Establishes(timeline, j) ==> i <= j)
        && rootCause == timeline[i].reason && ordinal == timeline[i].ordinal
    case Unavailable(wrapUp) =>
      && (forall i :: !Establishes(timeline, i))
      && match wrapUp
         case None => forall i :: !WrapsUp(timeline, i)
         case Some(ordinal) =>
           exists i :: WrapsUp(timeline, i) && (forall j :: WrapsUp(timeline, j) ==> j <= i)
             && ordinal == timeline[i].ordinal
  }

  method CausalityFrom(cancelled: bool, timeline: seq<Entry>) returns (c: Causality)
    requires Increasing(timeline)
    ensures !cancelled ==> c == NotApplicable
    ensures cancelled ==> IsVerdict(timeline, c)
  {
    if !cancelled {
      return NotApplicable;
    }
    var terminalOrdinal := 0;
    ghost var terminal := -1;
    for i := 0 to |timeline|
      invariant -1 <= terminal < i
      invariant terminal == -1 ==> terminalOrdinal == 0 && forall k | 0 <= k < i :: timeline[k].kind != RunFinished
      invariant terminal >= 0 ==> FinishedAt(timeline, terminal) && terminalOrdinal == timeline[terminal].ordinal
      invariant forall k | terminal < k < i :: timeline[k].kind != RunFinished
    {
      if timeline[i].kind == RunFinished {
        terminalOrdinal := timeline[i].ordinal;
        terminal := i;
      }
    }
    assert forall i :: BeforeEnd(timeline, i) <==> terminal == -1 || i < terminal;
    var wrapUpOrdinal := 0;
    ghost var wrapUp := -1;
    for i := 0 to |timeline|
      invariant forall k | 0 <= k < i :: !Establishes(timeline, k)
      invariant -1 <= wrapUp < i
      invariant wrapUp == -1 ==> wrapUpOrdinal == 0
      invariant wrapUp >= 0 ==> WrapsUp(timeline, wrapUp) && wrapUpOrdinal == timeline[wrapUp].ordinal
      invariant forall k | wrapUp < k < i :: !WrapsUp(timeline, k)
    {
      var entry := timeline[i];
      var beforeTerminal := terminalOrdinal == 0 || entry.ordinal < terminalOrdinal;
      assert beforeTerminal <==> BeforeEnd(timeline, i);
      if entry.kind == CancellationRequested && beforeTerminal {
        assert Establishes(timeline, i);
        return Verified(entry.reason, entry.ordinal);
      }
      if entry.kind == WrapUpPhase && beforeTerminal {
        wrapUpOrdinal := entry.ordinal;
        wrapUp := i;
      }
    }
    return Unavailable(if wrapUpOrdinal != 0 then Some(wrapUpOrdinal) else None);
  }

  // ---------------------------------------------------------------- truncation

  ghost predicate SomeEstablishes(timeline: seq<Entry>) {
    exists i :: Establishes(timeline, i)
  }

  ghost predicate SomeFinished(timeline: seq<Entry>) {
    exists t :: FinishedAt(timeline, t)
  }

  ghost predicate SomeRequest(timeline: seq<Entry>) {
    exists i | 0 <= i < |timeline| :: timeline[i].kind == CancellationRequested
  }

  /** The timeline the verdict is given on is a suffix of the full one, cut after `n` entries. */
  lemma TailIsSuffix(full: seq<Entry>, limit: nat) returns (n: nat)
    ensures n <= |full| && Tail(full, limit) == full[n..]
  {
    n := if |full| <= limit then 0 else |full| - limit;
  }

  /**
    While the cut timeline still shows a run end, or there was none, a trigger verified on
    it is verified on the full timeline too.
  */
  lemma CutKeepsVerified(full: seq<Entry>, limit: nat)
    requires SomeEstablishes(Tail(full, limit))
    requires SomeFinished(full) ==> SomeFinished(Tail(full, limit))
    ensures SomeEstablishes(full)
  {
    var n := TailIsSuffix(full, limit);
    var cut := full[n..];
    var i :| Establishes(cut, i);
    if SomeFinished(full) {
      var t :| i < t && FinishedAt(cut, t);
      assert full[n + t] == cut[t];
      assert FinishedAt(full, n + t);
    }
    assert full[n + i] == cut[i];
    assert Establishes(full, n + i);
  }

  lemma BeforeEndShifts(full: seq<Entry>, n: nat, j: int)
    requires n <= |full| && 0 <= j && (SomeFinished(full) ==> SomeFinished(full[n..]))
    ensures BeforeEnd(full, n + j) <==> BeforeEnd(full[n..], j)
  {
    var cut := full[n..];
    assert forall t | 0 <= t < |cut| :: cut[t] == full[n + t];
    forall t
      ensures FinishedAt(cut, t) <==> t >= 0 && FinishedAt(full, n + t)
    {
    }
    if BeforeEnd(full, n + j) && SomeFinished(cut) {
      var s :| FinishedAt(cut, s);
      assert FinishedAt(full, n + s);
      var t :| n + j < t && FinishedAt(full, t);
      assert FinishedAt(cut, t - n);
    }
    if BeforeEnd(cut, j) && SomeFinished(full) {
      var t :| j < t && FinishedAt(cut, t);
      assert FinishedAt(full, n + t);
    }
  }

  /** While the run end survives the cut, the tail's entries count as they do in the full timeline. */
  lemma CutShifts(full: seq<Entry>, n: nat)
    requires n <= |full| && (SomeFinished(full) ==> SomeFinished(full[n..]))
    ensures forall j | 0 <= j :: Establishes(full, n + j) <==> Establishes(full[n..], j)
    ensures forall j | 0 <= j :: WrapsUp(full, n + j) <==> WrapsUp(full[n..], j)
  {
    forall j | 0 <= j
      ensures Establishes(full, n + j) <==> Establishes(full[n..], j)
      ensures WrapsUp(full, n + j) <==> WrapsUp(full[n..], j)
    {
      BeforeEndShifts(full, n, j);
    }
  }

  /** A dropped request, or wrap-up, comes before a run end that survives the cut. */
  lemma DroppedIsBeforeEnd(full: seq<Entry>, n: nat, i: int)
    requires n <= |full| && 0 <= i < n && (SomeFinished(full) ==> SomeFinished(full[n..]))
    ensures BeforeEnd(full, i)
  {
    if SomeFinished(full) {
      var t :| FinishedAt(full[n..], t);
      assert FinishedAt(full, n + t);
    }
  }

  /** Nothing the cut drops bears on the verdict: no request, nor a wrap-up if that is all there is to report. */
  predicate NothingDropped(full: seq<Entry>, n: nat, c: Causality)
    requires n <= |full|
  {
    forall i | 0 <= i < n ::
      full[i].kind != CancellationRequested && (c == Unavailable(None) ==> full[i].kind != WrapUpPhase)
  }

  /**
    While the run end survives the cut, the tail's verdict is that of the full timeline exactly
    when the cut drops no cancellation request, and no wrap-up where the tail shows none.
  */
  lemma VerdictsAgree(full: seq<Entry>, n: nat, c: Causality)
    requires Increasing(full) && n <= |full| && (SomeFinished(full) ==> SomeFinished(full[n..]))
    requires IsVerdict(full[n..], c)
    ensures IsVerdict(full, c) <==> NothingDropped(full, n, c)
  {
    if NothingDropped(full, n, c) {
      AgreeWhenNothingDropped(full, n, c);
    } else {
      var i :| 0 <= i < n && (full[i].kind == CancellationRequested
                              || (c == Unavailable(None) && full[i].kind == WrapUpPhase));
      DroppedIsBeforeEnd(full, n, i);
      assert full[i].kind == CancellationRequested ==> Establishes(full, i);
      assert full[i].kind == WrapUpPhase ==> WrapsUp(full, i);
      if c.Verified? && IsVerdict(full, c) {
        SameEntry(full, n, c);
        assert false;
      }
    }
  }

  lemma AgreeWhenNothingDropped(full: seq<Entry>, n: nat, c: Causality)
    requires n <= |full| && (SomeFinished(full) ==> SomeFinished(full[n..]))
    requires IsVerdict(full[n..], c) && NothingDropped(full, n, c)
    ensures IsVerdict(full, c)
  {
    var cut := full[n..];
    CutShifts(full, n);
    forall i | Establishes(full, i)
      ensures i >= n && Establishes(cut, i - n)
    {
      assert n + (i - n) == i;
    }
    match c
    case Verified(rootCause, ordinal) =>
      var j :| Establishes(cut, j) && (forall k :: Establishes(cut, k) ==> j <= k)
        && rootCause == cut[j].reason && ordinal == cut[j].ordinal;
      assert Establishes(full, n + j) && full[n + j] == cut[j];
    case Unavailable(wrapUp) =>
      forall i | WrapsUp(full, i) && i >= n
        ensures WrapsUp(cut, i - n)
      {
        assert n + (i - n) == i;
      }
      if wrapUp.Some? {
        var j :| WrapsUp(cut, j) && (forall k :: WrapsUp(cut, k) ==> k <= j) && wrapUp.value == cut[j].ordinal;
        assert WrapsUp(full, n + j) && full[n + j] == cut[j];
      }
    case NotApplicable =>
  }

  /** The full timeline can verify the tail's own cause only by the tail's own entry. */
  lemma SameEntry(full: seq<Entry>, n: nat, c: Causality)
    requires Increasing(full) && n <= |full| && c.Verified? && IsVerdict(full[n..], c) && IsVerdict(full, c)
    ensures forall i | Establishes(full, i) :: i >= n
    ensures exists i :: i >= n && Establishes(full, i)
  {
    var cut := full[n..];
    var i :| Establishes(full, i) && (forall k :: Establishes(full, k) ==> i <= k) && c.ordinal == full[i].ordinal;
    var j :| Establishes(cut, j) && c.ordinal == cut[j].ordinal;
    assert cut[j] == full[n + j];
    assert i == n + j;
  }

  /** Neither a request nor a wrap-up comes before a run end. */
  ghost predicate NothingBeforeEnds(timeline: seq<Entry>) {
    forall i, t | 0 <= i < t && FinishedAt(timeline, t) ::
      timeline[i].kind != CancellationRequested && timeline[i].kind != WrapUpPhase
  }

  /**
    With the run end cut off, the tail's verdict is that of the full timeline exactly when it is
    that nothing is known, and no request and no wrap-up came before the lost end.
  */
  lemma LostEndAgrees(full: seq<Entry>, n: nat, c: Causality)
    requires Increasing(full) && n <= |full| && SomeFinished(full) && !SomeFinished(full[n..])
    requires IsVerdict(full[n..], c)
    ensures IsVerdict(full, c) <==> c == Unavailable(None) && NothingBeforeEnds(full)
  {
    NothingAfterLostEnd(full, n);
    match c
    case Verified(_, _) =>
      if IsVerdict(full, c) {
        SameEntry(full, n, c);
        assert false;
      }
    case Unavailable(wrapUp) =>
      if wrapUp.Some? {
        LostWrapUp(full, n, wrapUp.value);
      } else {
        NothingBefore(full);
      }
    case NotApplicable =>
  }

  lemma LostWrapUp(full: seq<Entry>, n: nat, ordinal: int)
    requires Increasing(full) && n <= |full| && IsVerdict(full[n..], Unavailable(Some(ordinal)))
    requires forall i | i >= n :: !WrapsUp(full, i)
    ensures !IsVerdict(full, Unavailable(Some(ordinal)))
  {
    var cut := full[n..];
    var j :| WrapsUp(cut, j) && ordinal == cut[j].ordinal;
    assert cut[j] == full[n + j];
    forall i | WrapsUp(full, i)
      ensures full[i].ordinal != ordinal
    {
    }
  }

  lemma NothingBefore(full: seq<Entry>)
    requires SomeFinished(full)
    ensures IsVerdict(full, Unavailable(None)) <==> NothingBeforeEnds(full)
  {
    if IsVerdict(full, Unavailable(None)) {
      forall i, t | 0 <= i < t && FinishedAt(full, t)
        ensures full[i].kind != CancellationRequested && full[i].kind != WrapUpPhase
      {
        assert BeforeEnd(full, i);
        assert !Establishes(full, i) && !WrapsUp(full, i);
      }
    }
  }

  lemma NothingAfterLostEnd(full: seq<Entry>, n: nat)
    requires n <= |full| && SomeFinished(full) && !SomeFinished(full[n..])
    ensures forall i | i >= n :: !Establishes(full, i)
    ensures forall i | i >= n :: !WrapsUp(full, i)
  {
    forall t | n <= t
      ensures !FinishedAt(full, t)
    {
      assert !FinishedAt(full[n..], t - n);
    }
  }

  /**
    When the full timeline verifies no trigger, its tail verifies one all the same exactly
    when the run end was cut off and a request is left.
  */
  lemma CutCanMislead(full: seq<Entry>, limit: nat)
    requires !SomeEstablishes(full)
    ensures SomeEstablishes(Tail(full, limit))
       <==> SomeFinished(full) && !SomeFinished(Tail(full, limit)) && SomeRequest(Tail(full, limit))
  {
    var n := TailIsSuffix(full, limit);
    var cut := full[n..];
    if SomeEstablishes(cut) {
      if !SomeFinished(full) || SomeFinished(cut) {
        CutKeepsVerified(full, limit);
      }
    }
    if !SomeFinished(cut) && SomeRequest(cut) {
      var i :| 0 <= i < |cut| && cut[i].kind == CancellationRequested;
      assert Establishes(cut, i);
    }
  }

  /** A run that was asked to cancel only after it had ended, and then went on for a while. */
  lemma MisleadingTimeline() returns (full: seq<Entry>)
    ensures Increasing(full) && !SomeEstablishes(full) && SomeEstablishes(Tail(full, 64)) && |full| == 65
  {
    full := seq(MAX_TIMELINE + 1, i requires 0 <= i <= MAX_TIMELINE =>
      Entry(i + 1, if i == 0 then RunFinished else if i == 1 then CancellationRequested else TaskEvent, ""));
    assert FinishedAt(full, 0);
    var n := TailIsSuffix(full, MAX_TIMELINE);
    var cut := full[n..];
    assert n == 1 && cut[0] == full[1];
    assert forall t | 0 <= t < |cut| :: cut[t] == full[t + 1];
    assert Establishes(cut, 0);
  }
}
