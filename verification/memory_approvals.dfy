/**
  Approved consolidations stay sound: they own the items made of them, and rest on current
  knowledge only, whatever command or import comes.
*/
module MemoryApprovals {
  import opened Options
  import opened MemoryStore
  import opened MemoryCommands
  import opened MemoryLaws

  // ---------------------------------------------------------------- what is kept

  /** All the sources of a proposal are current knowledge of its project. */
  predicate Rests(s: Store, p: Id)
    requires p in s.proposals
  {
    forall x | x in s.proposals[p].sources ::
      Current(s, x) && s.items[x].identity.project == s.proposals[p].project
  }

  /** An approved consolidation owns confirmed knowledge that rests on current knowledge. */
  ghost predicate Grounded(s: Store) {
    forall p | p in s.proposals && s.proposals[p].status == Approved :: Demotable(s, p) && Rests(s, p)
  }

  /** A consolidated item is its proposal's candidate, and Confirmed exactly while that is approved. */
  predicate OwnedItem(s: Store, id: Id)
    requires id in s.items
  {
    match s.items[id].source
    case Ordinary => true
    case FromProposal(p) =>
      && s.items[id].supersedes == []
      && p in s.proposals && s.proposals[p].candidate == id
      && (s.items[id].lifecycle == Confirmed <==> s.proposals[p].status == Approved)
  }

  ghost predicate Owned(s: Store) {
    forall id | id in s.items :: OwnedItem(s, id)
  }

  // ---------------------------------------------------------------- the cascade keeps approvals grounded

  /** Grounded, but for proposals that rest on the item just invalidated. */
  ghost predicate GroundedBut(s: Store, root: Id) {
    forall p | p in s.proposals && s.proposals[p].status == Approved ::
      && Demotable(s, p)
      && forall x | x in s.proposals[p].sources ::
           && x in s.items && s.items[x].identity.project == s.proposals[p].project
           && (x == root || Current(s, x))
  }

  lemma CascadeRestoresGround(s: Store, root: Id)
    requires GroundedBut(s, root)
    ensures Grounded(Demote(s, root))
  {
    var t, all := Demote(s, root), Demoted(s, root);
    forall p | p in t.proposals && t.proposals[p].status == Approved
      ensures Demotable(t, p) && Rests(t, p)
    {
      assert !AffectedBy(s, p, all + {root});
      if s.proposals[p].candidate in all {
        var q := DemotedHasCause(s, root, s.proposals[p].candidate);
        assert false;
      }
      forall x | x in s.proposals[p].sources
        ensures Current(t, x)
      {
        assert Uses(s, p, x);
      }
    }
  }

  lemma LinkKeepsGround(s: Store, prior: Id, replacement: Id)
    requires Grounded(s)
    ensures Grounded(Demote(Link(s, prior, replacement), prior))
  {
    var linked := Link(s, prior, replacement);
    forall p | p in linked.proposals && linked.proposals[p].status == Approved
      ensures Demotable(linked, p)
      ensures forall x | x in linked.proposals[p].sources ::
           && x in linked.items && linked.items[x].identity.project == linked.proposals[p].project
           && (x == prior || Current(linked, x))
    {
      assert Demotable(s, p) && Rests(s, p);
    }
    CascadeRestoresGround(linked, prior);
  }

  /** Whatever is marked superseded, no approved consolidation is left on a stale source. */
  lemma {:induction false} SupersedeAllKeepsGround(s: Store, olds: seq<Id>, replacement: Id)
    requires Grounded(s)
    ensures Grounded(SupersedeAll(s, olds, replacement))
    decreases |olds|
  {
    if olds != [] {
      LinkKeepsGround(s, olds[0], replacement);
      SupersedeAllKeepsGround(Demote(Link(s, olds[0], replacement), olds[0]), olds[1..], replacement);
    }
  }

  lemma {:induction false} LinkOlderKeepsGround(s: Store, c: Id, olds: seq<Id>, seen: Seen)
    requires Grounded(s) && LinkOlder(s, c, olds, seen).Some?
    ensures Grounded(LinkOlder(s, c, olds, seen).value.0)
    decreases |olds|
  {
    if olds != [] {
      LinkKeepsGround(s, olds[0], c);
      LinkOlderKeepsGround(Demote(Link(s, olds[0], c), olds[0]), c, olds[1..], seen[olds[0] := c]);
    }
  }

  lemma DemoteKeepsOwned(s: Store, root: Id)
    requires Owned(s)
    ensures Owned(Demote(s, root))
  {
    var t, all := Demote(s, root), Demoted(s, root);
    DemotedIsClosed(s, root);
    forall id | id in t.items
      ensures OwnedItem(t, id)
    {
      assert OwnedItem(s, id);
      if id in all {
        var p := DemotedHasCause(s, root, id);
        assert p in t.proposals && t.proposals[p].status == Stale;
      }
    }
  }

  lemma {:induction false} SupersedeAllKeepsOwned(s: Store, olds: seq<Id>, replacement: Id)
    requires Owned(s)
    ensures Owned(SupersedeAll(s, olds, replacement))
    decreases |olds|
  {
    if olds != [] {
      LinkKeepsOwned(s, olds[0], replacement);
      SupersedeAllKeepsOwned(Demote(Link(s, olds[0], replacement), olds[0]), olds[1..], replacement);
    }
  }

  lemma LinkKeepsOwned(s: Store, prior: Id, replacement: Id)
    requires Owned(s)
    ensures Owned(Demote(Link(s, prior, replacement), prior))
  {
    var linked := Link(s, prior, replacement);
    forall id | id in linked.items
      ensures OwnedItem(linked, id)
    {
      assert OwnedItem(s, id);
    }
    DemoteKeepsOwned(linked, prior);
  }

  lemma {:induction false} LinkOlderKeepsOwned(s: Store, c: Id, olds: seq<Id>, seen: Seen)
    requires Owned(s) && LinkOlder(s, c, olds, seen).Some?
    ensures Owned(LinkOlder(s, c, olds, seen).value.0)
    decreases |olds|
  {
    if olds != [] {
      LinkKeepsOwned(s, olds[0], c);
      LinkOlderKeepsOwned(Demote(Link(s, olds[0], c), olds[0]), c, olds[1..], seen[olds[0] := c]);
    }
  }

  // ---------------------------------------------------------------- approvals

  /** Approvals are sound: grounded, and in step with the items they own. */
  ghost predicate Approvals(s: Store) {
    Grounded(s) && Owned(s)
  }

  /** New ordinary items, and changes of ordinary items that are not Confirmed, touch no approval. */
  lemma OrdinaryKeepsApprovals(s: Store, rows: map<Id, Item>)
    requires Approvals(s)
    requires forall id | id in rows ::
      && rows[id].source == Ordinary
      && (id in s.items ==> s.items[id].source == Ordinary && s.items[id].lifecycle != Confirmed)
    ensures Approvals(s.(items := s.items + rows))
  {
    var t := s.(items := s.items + rows);
    forall p | p in t.proposals && t.proposals[p].status == Approved
      ensures Demotable(t, p) && Rests(t, p)
    {
      assert Demotable(s, p) && Rests(s, p);
    }
    forall id | id in t.items
      ensures OwnedItem(t, id)
    {
      if id !in rows {
        assert OwnedItem(s, id);
      }
    }
  }

  lemma OneOrdinaryKeepsApprovals(s: Store, id: Id, item: Item)
    requires Approvals(s) && item.source == Ordinary
    requires id in s.items ==> s.items[id].source == Ordinary && s.items[id].lifecycle != Confirmed
    ensures Approvals(s.(items := s.items[id := item]))
  {
    OrdinaryKeepsApprovals(s, map[id := item]);
    assert s.items + map[id := item] == s.items[id := item];
  }

  lemma {:induction false} ConfirmAllKeepsApprovals(s: Store, ids: seq<Id>, seen: Seen)
    requires Approvals(s) && ConfirmAll(s, ids, seen).Some?
    ensures Approvals(ConfirmAll(s, ids, seen).value)
    decreases |ids|
  {
    if ids != [] {
      if Blank(ids[0]) {
        ConfirmAllKeepsApprovals(s, ids[1..], seen);
      } else {
        var c, olds := ids[0], s.items[ids[0]].supersedes;
        var next := ConfirmTx(s, c, seen).value;
        OneOrdinaryKeepsApprovals(s, c, s.items[c].(lifecycle := Confirmed));
        LinkOlderKeepsGround(WithLifecycle(s, c, Confirmed), c, olds, seen);
        LinkOlderKeepsOwned(WithLifecycle(s, c, Confirmed), c, olds, seen);
        ConfirmAllKeepsApprovals(next.0, ids[1..], next.1);
      }
    }
  }

  lemma {:induction false} RejectAllKeepsApprovals(s: Store, ids: seq<Id>)
    requires Approvals(s) && RejectAll(s, ids).Some?
    ensures Approvals(RejectAll(s, ids).value)
    decreases |ids|
  {
    if ids != [] {
      if Blank(ids[0]) {
        RejectAllKeepsApprovals(s, ids[1..]);
      } else {
        OneOrdinaryKeepsApprovals(s, ids[0], s.items[ids[0]].(lifecycle := Rejected));
        RejectAllKeepsApprovals(WithLifecycle(s, ids[0], Rejected), ids[1..]);
      }
    }
  }

  lemma {:induction false} BindAllKeepsApprovals(s: Store, ids: seq<Id>)
    requires Approvals(s) && BindAll(s, ids).Some?
    ensures Approvals(BindAll(s, ids).value)
    decreases |ids|
  {
    if ids != [] {
      if Blank(ids[0]) {
        BindAllKeepsApprovals(s, ids[1..]);
      } else {
        var bound := s.items[ids[0]].(operatorRejection := true);
        OneOrdinaryKeepsApprovals(s, ids[0], bound);
        BindAllKeepsApprovals(s.(items := s.items[ids[0] := bound]), ids[1..]);
      }
    }
  }

  /** A review changes a candidate and its own proposal together. */
  lemma ReviewKeepsApprovals(s: Store, p: Id, item: Item, status: Status)
    requires Approvals(s) && p in s.proposals && s.proposals[p].candidate in s.items
    requires s.items[s.proposals[p].candidate].source == item.source == FromProposal(p)
    requires s.items[s.proposals[p].candidate].lifecycle == Candidate && item.supersedes == []
    requires item.lifecycle == Confirmed <==> status == Approved
    requires status == Approved ==> Rests(s, p)
    ensures Approvals(WithStatus(s.(items := s.items[s.proposals[p].candidate := item]), p, status))
  {
    var c := s.proposals[p].candidate;
    var t := WithStatus(s.(items := s.items[c := item]), p, status);
    forall q | q in t.proposals && t.proposals[q].status == Approved
      ensures Demotable(t, q) && Rests(t, q)
    {
      if q != p {
        assert Demotable(s, q) && Rests(s, q);
      }
    }
    forall id | id in t.items
      ensures OwnedItem(t, id)
    {
      if id != c {
        assert OwnedItem(s, id);
      }
    }
  }

  lemma ProposeKeepsApprovals(s: Store, p: Id, c: Id, item: Item, proposal: Proposal)
    requires Approvals(s) && p !in s.proposals && c !in s.items
    requires proposal.status == Proposed && proposal.candidate == c
    requires item.source == FromProposal(p) && item.lifecycle == Candidate && item.supersedes == []
    ensures Approvals(Store(s.items[c := item], s.proposals[p := proposal]))
  {
    var t := Store(s.items[c := item], s.proposals[p := proposal]);
    forall q | q in t.proposals && t.proposals[q].status == Approved
      ensures Demotable(t, q) && Rests(t, q)
    {
      assert Demotable(s, q) && Rests(s, q);
    }
    forall id | id in t.items
      ensures OwnedItem(t, id)
    {
      if id != c {
        assert OwnedItem(s, id);
      }
    }
  }

  lemma {:induction false} ImportKeepsApprovals(s: Store, ids: map<string, Id>, records: seq<LegacyRecord>)
    requires Approvals(s)
    ensures Approvals(ImportLinks(s, ids, records))
    decreases |records|
  {
    if records != [] {
      var r := records[0];
      var next := s;
      if r.live && r.legacyID in ids {
        next := SupersedeAll(s, Known(ids, r.supersedes), ids[r.legacyID]);
        SupersedeAllKeepsGround(s, Known(ids, r.supersedes), ids[r.legacyID]);
        SupersedeAllKeepsOwned(s, Known(ids, r.supersedes), ids[r.legacyID]);
      }
      ImportKeepsApprovals(next, ids, records[1..]);
    }
  }

  lemma RejectKeepsApprovals(s: Store, scope: Scope, ids: seq<Id>)
    requires Approvals(s)
    ensures Approvals(After(s, Reject(scope, ids)))
  {
    if Reviewable(s, scope, ids) && BindAll(s, ids).Some? {
      BindAllKeepsApprovals(s, ids);
      if RejectAll(BindAll(s, ids).value, ids).Some? {
        RejectAllKeepsApprovals(BindAll(s, ids).value, ids);
      }
    }
  }

  /** Every command, an import included, keeps approvals sound. */
  lemma CommandKeepsApprovals(s: Store, command: Command)
    requires Approvals(s)
    ensures Approvals(After(s, command))
  {
    if command.Reject? {
      RejectKeepsApprovals(s, command.scope, command.ids);
    } else if Outcome(s, command).Some? {
      match command
      case Record(id, item) => OneOrdinaryKeepsApprovals(s, id, item);
      case Refresh(id, supersedes, _) => OneOrdinaryKeepsApprovals(s, id, After(s, command).items[id]);
      case Confirm(_, ids) => ConfirmAllKeepsApprovals(s, ids, map[]);
      case Supersede(_, olds, replacement) =>
        SupersedeAllKeepsGround(s, olds, replacement);
        SupersedeAllKeepsOwned(s, olds, replacement);
      case Propose(p, c, _, _) =>
        ProposeKeepsApprovals(s, p, c, After(s, command).items[c], After(s, command).proposals[p]);
      case Approve(p, _) => ApproveKeepsApprovals(s, command);
      case Refuse(p) =>
        assert OwnedItem(s, s.proposals[p].candidate);
        ReviewKeepsApprovals(s, p, After(s, command).items[s.proposals[p].candidate], Refused);
      case Import(rows, records) =>
        OrdinaryKeepsApprovals(s, rows);
        ImportKeepsApprovals(s.(items := s.items + rows), CanonicalIDs(records), records);
    }
  }

  lemma ApproveKeepsApprovals(s: Store, command: Command)
    requires Approvals(s) && command.Approve? && Outcome(s, command).Some?
    ensures Approvals(After(s, command))
  {
    var p := command.p;
    var c := s.proposals[p].candidate;
    assert OwnedItem(s, c);
    ReviewKeepsApprovals(s, p, s.items[c].(lifecycle := Confirmed), Approved);
  }
}
