/**
  What becomes of consolidation proposals over runs of commands: their status only moves forward,
  and they stay proposals to consolidate two existing items or more.
*/
module MemoryProposals {
  import opened Options
  import opened MemoryStore
  import opened MemoryCommands
  import opened MemoryLaws
  import opened MemoryGraph
  import opened MemoryRests
  import opened MemoryEffects

  function Rank(status: Status): nat {
    match status
    case Proposed => 0
    case Approved => 1
    case Stale => 2
    case Refused => 3
  }

  predicate ProposalForward(before: Proposal, after: Proposal) {
    after == before.(status := after.status) && Rank(before.status) <= Rank(after.status)
  }

  /** Items keep their identity, and proposals are what they were but for a status that moved forward. */
  ghost predicate Forward(s: Store, t: Store) {
    && s.items.Keys <= t.items.Keys && s.proposals.Keys <= t.proposals.Keys
    && (forall id | id in s.items :: t.items[id].identity == s.items[id].identity)
    && forall p | p in s.proposals :: ProposalForward(s.proposals[p], t.proposals[p])
  }

  /** The same, and no proposal is new. */
  ghost predicate OnlyForward(s: Store, t: Store) {
    Forward(s, t) && t.proposals.Keys == s.proposals.Keys
  }

  lemma CascadedForward(s: Store, t: Store, olds: seq<Id>)
    requires Cascaded(s, t, olds)
    ensures OnlyForward(s, t)
  {
    forall p | p in s.proposals
      ensures ProposalForward(s.proposals[p], t.proposals[p])
    {
    }
  }

  lemma SupersedeForward(s: Store, olds: seq<Id>, replacement: Id)
    ensures OnlyForward(s, SupersedeAll(s, olds, replacement))
  {
    ProposalsAfterSupersede(s, olds, replacement);
    CascadedForward(s, SupersedeAll(s, olds, replacement), olds);
  }

  lemma ConfirmTxForward(s: Store, c: Id, seen: Seen)
    requires ConfirmTx(s, c, seen).Some?
    ensures OnlyForward(s, ConfirmTx(s, c, seen).value.0)
  {
    LinkOlderIsSupersede(WithLifecycle(s, c, Confirmed), c, s.items[c].supersedes, seen);
    SupersedeForward(WithLifecycle(s, c, Confirmed), s.items[c].supersedes, c);
  }

  lemma {:induction false} ConfirmAllForward(s: Store, ids: seq<Id>, seen: Seen)
    requires ConfirmAll(s, ids, seen).Some?
    ensures OnlyForward(s, ConfirmAll(s, ids, seen).value)
    decreases |ids|
  {
    if ids != [] {
      if Blank(ids[0]) {
        ConfirmAllForward(s, ids[1..], seen);
      } else {
        var next := ConfirmTx(s, ids[0], seen).value;
        ConfirmTxForward(s, ids[0], seen);
        ConfirmAllForward(next.0, ids[1..], next.1);
      }
    }
  }

  lemma {:induction false} ImportForward(s: Store, ids: map<string, Id>, records: seq<LegacyRecord>)
    ensures OnlyForward(s, ImportLinks(s, ids, records))
    decreases |records|
  {
    if records != [] {
      var r := records[0];
      var next := s;
      if r.live && r.legacyID in ids {
        next := SupersedeAll(s, Known(ids, r.supersedes), ids[r.legacyID]);
        SupersedeForward(s, Known(ids, r.supersedes), ids[r.legacyID]);
      }
      ImportForward(next, ids, records[1..]);
    }
  }

  lemma ApproveForward(s: Store, p: Id, otherwiseFresh: bool)
    requires Outcome(s, Approve(p, otherwiseFresh)).Some?
    ensures OnlyForward(s, After(s, Approve(p, otherwiseFresh)))
  {
    ConfirmTxForward(s, s.proposals[p].candidate, map[]);
  }

  lemma RefuseForward(s: Store, p: Id)
    ensures OnlyForward(s, After(s, Refuse(p)))
  {
  }

  lemma RejectForward(s: Store, scope: Scope, ids: seq<Id>)
    ensures OnlyForward(s, After(s, Reject(scope, ids)))
  {
    if Reviewable(s, scope, ids) {
      RejectDoes(s, scope, ids);
    }
  }

  lemma ImportCommandForward(s: Store, rows: map<Id, Item>, records: seq<LegacyRecord>)
    ensures OnlyForward(s, After(s, Import(rows, records)))
  {
    if Outcome(s, Import(rows, records)).Some? {
      ImportForward(s.(items := s.items + rows), CanonicalIDs(records), records);
    }
  }

  lemma CommandForward(s: Store, command: Command)
    ensures Forward(s, After(s, command))
    ensures !command.Propose? ==> OnlyForward(s, After(s, command))
  {
    match command
    case Confirm(scope, ids) =>
      if Outcome(s, command).Some? {
        ConfirmAllForward(s, ids, map[]);
      }
    case Reject(scope, ids) =>
      RejectForward(s, scope, ids);
    case Refuse(p) =>
      RefuseForward(s, p);
    case Supersede(scope, olds, replacement) =>
      if Outcome(s, command).Some? {
        SupersedeForward(s, olds, replacement);
      }
    case Approve(p, otherwiseFresh) =>
      if Outcome(s, command).Some? {
        ApproveForward(s, p, otherwiseFresh);
      }
    case Import(rows, records) =>
      ImportCommandForward(s, rows, records);
    case _ =>
  }

  lemma ForwardChain(s: Store, t: Store, u: Store)
    requires Forward(s, t) && Forward(t, u)
    ensures Forward(s, u)
  {
  }

  /**
    Over every run a proposal stays, with its candidate and its sources, and its status moves only
    from proposed to approved, from either to stale, and from any to refused.
  */
  lemma {:induction false} RunForward(s: Store, commands: seq<Command>)
    ensures Forward(s, Execute(s, commands))
    decreases |commands|
  {
    if commands != [] {
      var n := |commands| - 1;
      RunForward(s, commands[..n]);
      CommandForward(Execute(s, commands[..n]), commands[n]);
      ForwardChain(s, Execute(s, commands[..n]), Execute(s, commands));
    }
  }

  /** Once a proposal is refused, it stays so and its candidate stays rejected, whatever commands follow. */
  lemma RefusalIsFinal(s: Store, p: Id, commands: seq<Command>)
    requires Outcome(s, Refuse(p)).Some?
    ensures
      var t := Execute(After(s, Refuse(p)), commands);
      && p in t.proposals && t.proposals[p] == s.proposals[p].(status := Refused)
      && RejectedByOperator(t, s.proposals[p].candidate)
  {
    var refused := After(s, Refuse(p));
    RunForward(refused, commands);
    RejectionIsFinal(refused, commands, s.proposals[p].candidate);
  }

  // ---------------------------------------------------------------- what proposals are about

  /** The proposal is about two items or more, all there, of its project and of one identity. */
  predicate ConsolidatesTwo(s: Store, p: Id)
    requires p in s.proposals
  {
    && |s.proposals[p].sources| >= 2
    && (forall x | x in s.proposals[p].sources :: x in s.items && s.items[x].identity.project == s.proposals[p].project)
    && forall x, y | x in s.proposals[p].sources && y in s.proposals[p].sources :: s.items[x].identity == s.items[y].identity
  }

  ghost predicate AllConsolidate(s: Store) {
    forall p | p in s.proposals :: ConsolidatesTwo(s, p)
  }

  lemma ForwardConsolidates(s: Store, t: Store, p: Id)
    requires Forward(s, t) && p in s.proposals && ConsolidatesTwo(s, p)
    ensures ConsolidatesTwo(t, p)
  {
  }

  lemma CommandKeepsConsolidating(s: Store, command: Command)
    requires AllConsolidate(s)
    ensures AllConsolidate(After(s, command))
  {
    var t := After(s, command);
    CommandForward(s, command);
    forall p | p in t.proposals
      ensures ConsolidatesTwo(t, p)
    {
      if p in s.proposals {
        ForwardConsolidates(s, t, p);
      }
    }
  }

  /** In every store reached from the empty one, each proposal consolidates at least two items of one identity. */
  lemma {:induction false} RunKeepsConsolidating(s: Store, commands: seq<Command>)
    requires AllConsolidate(s)
    ensures AllConsolidate(Execute(s, commands))
    decreases |commands|
  {
    if commands != [] {
      var n := |commands| - 1;
      RunKeepsConsolidating(s, commands[..n]);
      CommandKeepsConsolidating(Execute(s, commands[..n]), commands[n]);
    }
  }
}
