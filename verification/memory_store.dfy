/**
  The durable memory store behind `hufu context`: items with a lifecycle and a
  superseded-by link, consolidation proposals that rest on source items, and the
  cascade that withdraws consolidations whose sources stop being current
  (internal/context/consolidation_cascade.go).
*/
module MemoryStore {
  import opened Options

  type Id = string

  datatype Lifecycle = Candidate | Confirmed | Rejected

  /** Who may change the lifecycle of an item: the generic commands, or one proposal's review. */
  datatype Source = Ordinary | FromProposal(proposal: Id)

  /** What items of one supersession chain are meant to share. */
  datatype Identity = Identity(project: string, team: string, visibility: string, agent: string)

  datatype Item = Item(
    identity: Identity,
    lifecycle: Lifecycle,
    supersededBy: Option<Id>,
    source: Source,
    supersedes: seq<Id>,
    operatorRejection: bool)          // carries evidence of a rejection by the operator

  datatype Status = Proposed | Approved | Refused | Stale

  datatype Proposal = Proposal(project: string, candidate: Id, sources: set<Id>, status: Status) {
    predicate Open() {
      status == Proposed || status == Approved
    }
  }

  datatype Store = Store(items: map<Id, Item>, proposals: map<Id, Proposal>)

  predicate Current(s: Store, id: Id) {
    id in s.items && s.items[id].lifecycle == Confirmed && s.items[id].supersededBy == None
  }

  // ---------------------------------------------------------------- the cascade

  predicate Uses(s: Store, p: Id, x: Id) {
    && p in s.proposals && s.proposals[p].Open()
    && x in s.items && x in s.proposals[p].sources
    && s.items[x].identity.project == s.proposals[p].project
  }

  ghost predicate AffectedBy(s: Store, p: Id, xs: set<Id>) {
    exists x | x in xs :: Uses(s, p, x)
  }

  /** The proposal's candidate is approved knowledge that the proposal still owns. */
  predicate Demotable(s: Store, p: Id) {
    && p in s.proposals && s.proposals[p].status == Approved
    && s.proposals[p].candidate in s.items
    && s.items[s.proposals[p].candidate].source == FromProposal(p)
    && s.items[s.proposals[p].candidate].lifecycle == Confirmed
  }

  ghost predicate Closed(s: Store, root: Id, xs: set<Id>) {
    forall p | Demotable(s, p) && AffectedBy(s, p, xs + {root}) :: s.proposals[p].candidate in xs
  }

  /** The consolidated items that stop being knowledge with `root`: the least closed set. */
  ghost function Demoted(s: Store, root: Id): set<Id> {
    set id | id in s.items && forall xs | Closed(s, root, xs) :: id in xs
  }

  /** `s` with `demoted` items back to candidates, and stale what rests on `invalid` or is in `done`. */
  ghost function Partly(s: Store, invalid: set<Id>, done: set<Id>, demoted: set<Id>): Store {
    Store(
      map id | id in s.items :: if id in demoted then s.items[id].(lifecycle := Candidate) else s.items[id],
      map p | p in s.proposals ::
        if AffectedBy(s, p, invalid) || p in done then s.proposals[p].(status := Stale) else s.proposals[p])
  }

  ghost function Marked(s: Store, invalid: set<Id>, demoted: set<Id>): Store {
    Partly(s, invalid, {}, demoted)
  }

  ghost function Demote(s: Store, root: Id): Store {
    Marked(s, Demoted(s, root) + {root}, Demoted(s, root))
  }

  lemma DemotedIsClosed(s: Store, root: Id)
    ensures Closed(s, root, Demoted(s, root))
  {
    forall p | Demotable(s, p) && AffectedBy(s, p, Demoted(s, root) + {root})
      ensures s.proposals[p].candidate in Demoted(s, root)
    {
      var x :| x in Demoted(s, root) + {root} && Uses(s, p, x);
      forall xs | Closed(s, root, xs)
        ensures s.proposals[p].candidate in xs
      {
        assert x in xs + {root};
      }
    }
  }

  lemma DemotedIsLeast(s: Store, root: Id, xs: set<Id>)
    requires Closed(s, root, xs)
    ensures Demoted(s, root) <= xs
  {
  }

  /** The work list holds what is invalid and not yet visited, all of it for a reason. */
  ghost predicate Justified(s: Store, root: Id, visited: set<Id>, queue: seq<Id>, demoted: set<Id>) {
    && demoted <= Demoted(s, root)
    && (forall i | 0 <= i < |queue| :: queue[i] == root || queue[i] in demoted)
    && (forall x | x in demoted + {root} :: x in visited || x in queue)
  }

  ghost predicate Covered(s: Store, xs: set<Id>, done: set<Id>, demoted: set<Id>) {
    forall p | Demotable(s, p) && (AffectedBy(s, p, xs) || p in done) :: s.proposals[p].candidate in demoted
  }

  lemma StaleOne(s: Store, invalid: set<Id>, done: set<Id>, demoted: set<Id>, p: Id)
    requires p in s.proposals
    ensures
      var o := Partly(s, invalid, done, demoted);
      o.(proposals := o.proposals[p := o.proposals[p].(status := Stale)])
        == Partly(s, invalid, done + {p}, demoted)
  {
  }

  lemma DemoteOne(s: Store, invalid: set<Id>, done: set<Id>, demoted: set<Id>, c: Id)
    requires c in s.items
    ensures
      var o := Partly(s, invalid, done, demoted);
      o.(items := o.items[c := o.items[c].(lifecycle := Candidate)])
        == Partly(s, invalid, done, demoted + {c})
  {
  }

  lemma AffectedByOneMore(s: Store, p: Id, xs: set<Id>, x: Id)
    ensures AffectedBy(s, p, xs + {x}) <==> AffectedBy(s, p, xs) || Uses(s, p, x)
  {
    if AffectedBy(s, p, xs + {x}) {
      var y :| y in xs + {x} && Uses(s, p, y);
    }
    if Uses(s, p, x) {
      assert x in xs + {x};
    }
  }

  ghost function Derived(s: Store, visited: set<Id>, next: Id): set<Id> {
    set p | p in s.proposals && Uses(s, p, next) && !AffectedBy(s, p, visited)
  }

  lemma RoundDone(s: Store, visited: set<Id>, next: Id, demoted: set<Id>)
    ensures Partly(s, visited, Derived(s, visited, next), demoted) == Marked(s, visited + {next}, demoted)
    ensures Covered(s, visited, Derived(s, visited, next), demoted) ==> Covered(s, visited + {next}, {}, demoted)
  {
    forall p
      ensures AffectedBy(s, p, visited + {next}) <==> AffectedBy(s, p, visited) || Uses(s, p, next)
    {
      AffectedByOneMore(s, p, visited, next);
    }
  }

  /** Follows consolidations of consolidations with a work list, as the transaction does. */
  method DemoteDerived(s: Store, root: Id) returns (out: Store)
    ensures out == Demote(s, root)
  {
    out := s;
    var queue := [root];
    var visited: set<Id> := {};
    ghost var demoted: set<Id> := {};
    assert out == Marked(s, visited, demoted);
    while queue != []
      invariant out == Marked(s, visited, demoted)
      invariant Justified(s, root, visited, queue, demoted)
      invariant visited <= demoted + {root}
      invariant Covered(s, visited, {}, demoted)
      decreases s.items.Keys + {root} - visited, |queue|
    {
      var next := queue[0];
      queue := queue[1..];
      if next in visited {
        continue;
      }
      out, queue, demoted := WithdrawDerived(s, root, out, next, queue, visited, demoted);
      visited := visited + {next};
    }
    CascadeDone(s, root, visited, demoted);
  }

  lemma CascadeDone(s: Store, root: Id, visited: set<Id>, demoted: set<Id>)
    requires Justified(s, root, visited, [], demoted) && visited <= demoted + {root}
    requires Covered(s, visited, {}, demoted)
    ensures Marked(s, visited, demoted) == Demote(s, root)
  {
    assert visited == demoted + {root};
    DemotedIsLeast(s, root, demoted);
    assert demoted == Demoted(s, root);
  }

  /** One round of the work list: every open proposal that rests on `next` goes stale. */
  method WithdrawDerived(ghost s: Store, ghost root: Id, before: Store, next: Id, queue0: seq<Id>,
                         ghost visited: set<Id>, ghost demoted0: set<Id>)
    returns (out: Store, queue: seq<Id>, ghost demoted: set<Id>)
    requires before == Marked(s, visited, demoted0)
    requires Justified(s, root, visited + {next}, queue0, demoted0) && next in demoted0 + {root}
    requires Covered(s, visited, {}, demoted0)
    ensures out == Marked(s, visited + {next}, demoted)
    ensures Justified(s, root, visited + {next}, queue, demoted) && demoted0 <= demoted
    ensures Covered(s, visited + {next}, {}, demoted)
  {
    out, queue, demoted := before, queue0, demoted0;
    var derived := set p | p in before.proposals && Uses(before, p, next);
    assert derived == Derived(s, visited, next);
    var todo := derived;
    ghost var done: set<Id> := {};
    while todo != {}
      invariant todo !! done && todo + done == derived
      invariant out == Partly(s, visited, done, demoted)
      invariant Justified(s, root, visited + {next}, queue, demoted) && demoted0 <= demoted
      invariant Covered(s, visited, done, demoted)
    {
      var p :| p in todo;
      out, queue, demoted := WithdrawOne(s, root, out, next, p, queue, visited, done, demoted);
      todo, done := todo - {p}, done + {p};
    }
    assert done == derived;
    RoundDone(s, visited, next, demoted);
  }

  /** One proposal of a round: it goes stale, and its candidate is demoted if it was approved knowledge. */
  method WithdrawOne(ghost s: Store, ghost root: Id, before: Store, ghost next: Id, p: Id, queue0: seq<Id>,
                     ghost visited: set<Id>, ghost done: set<Id>, ghost demoted0: set<Id>)
    returns (out: Store, queue: seq<Id>, ghost demoted: set<Id>)
    requires p in Derived(s, visited, next) && p !in done && before == Partly(s, visited, done, demoted0)
    requires Justified(s, root, visited + {next}, queue0, demoted0) && next in demoted0 + {root}
    requires Covered(s, visited, done, demoted0)
    ensures out == Partly(s, visited, done + {p}, demoted)
    ensures Justified(s, root, visited + {next}, queue, demoted) && demoted0 <= demoted
    ensures Covered(s, visited, done + {p}, demoted)
  {
    ReadDerived(s, visited, next, done, demoted0, p);
    StaleOne(s, visited, done, demoted0, p);
    queue, demoted := queue0, demoted0;
    var d := before.proposals[p];
    out := before.(proposals := before.proposals[p := d.(status := Stale)]);
    if d.candidate in out.items && out.items[d.candidate].source == FromProposal(p)
       && d.status == Approved && out.items[d.candidate].lifecycle == Confirmed {
      QueueCandidate(s, root, visited, next, done, queue, demoted, p);
      DemoteOne(s, visited, done + {p}, demoted, d.candidate);
      out := out.(items := out.items[d.candidate := out.items[d.candidate].(lifecycle := Candidate)]);
      queue := queue + [d.candidate];
      demoted := demoted + {d.candidate};
    }
  }

  /** In the middle of a round, the transaction sees a proposal not yet handled as it was. */
  lemma ReadDerived(s: Store, visited: set<Id>, next: Id, done: set<Id>, demoted: set<Id>, p: Id)
    requires p in Derived(s, visited, next) && p !in done
    ensures
      var o := Partly(s, visited, done, demoted);
      var c := s.proposals[p].candidate;
      && p in o.proposals && o.proposals[p] == s.proposals[p]
      && o.items.Keys == s.items.Keys
      && (Demotable(s, p) && c !in demoted <==>
          c in o.items && o.items[c].source == FromProposal(p)
          && s.proposals[p].status == Approved && o.items[c].lifecycle == Confirmed)
    ensures
      !Demotable(s, p) || s.proposals[p].candidate in demoted ==>
        (Covered(s, visited, done, demoted) ==> Covered(s, visited, done + {p}, demoted))
  {
  }

  lemma QueueCandidate(s: Store, root: Id, visited: set<Id>, next: Id, done: set<Id>,
                       queue: seq<Id>, demoted: set<Id>, p: Id)
    requires Justified(s, root, visited + {next}, queue, demoted) && Covered(s, visited, done, demoted)
    requires Uses(s, p, next) && next in demoted + {root} && Demotable(s, p)
    ensures
      var c := s.proposals[p].candidate;
      && Justified(s, root, visited + {next}, queue + [c], demoted + {c})
      && Covered(s, visited, done + {p}, demoted + {c})
  {
    var c := s.proposals[p].candidate;
    assert c in Demoted(s, root) by {
      DemotedIsClosed(s, root);
      assert next in Demoted(s, root) + {root};
    }
    assert (queue + [c])[|queue|] == c;
  }
}
