/**
  What the memory commands do, field by field: which of them are accepted, and what an accepted
  one changes.
*/
module MemoryEffects {
  import opened Options
  import opened Texts
  import opened MemoryStore
  import opened MemoryCommands
  import opened MemoryLaws
  import opened MemoryRests
  import opened MemoryGraph
  import Runs = MemoryRuns

  // ---------------------------------------------------------------- superseding

  /** A confirmed item that rests on one of `olds` becomes a candidate again. */
  ghost predicate Demoting(s: Store, olds: seq<Id>, id: Id)
    requires id in s.items
  {
    s.items[id].lifecycle == Confirmed && exists x :: x in olds && RestsOn(s, id, x)
  }

  /** `t` has the items of `s`: `olds` are linked to the replacement, and what rests on them is demoted. */
  ghost predicate Superseded(s: Store, t: Store, olds: seq<Id>, replacement: Id) {
    && t.items.Keys == s.items.Keys
    && forall id | id in s.items ::
         t.items[id] == s.items[id].(supersededBy := if id in olds then Some(replacement) else s.items[id].supersededBy,
                                     lifecycle := if Demoting(s, olds, id) then Candidate else s.items[id].lifecycle)
  }

  lemma SupersedeAllDoes(s: Store, olds: seq<Id>, replacement: Id)
    ensures Superseded(s, SupersedeAll(s, olds, replacement), olds, replacement)
  {
    var t := SupersedeAll(s, olds, replacement);
    SupersedeAllEvolves(s, olds, replacement);
    forall id | id in s.items
      ensures t.items[id].lifecycle == if Demoting(s, olds, id) then Candidate else s.items[id].lifecycle
    {
      if s.items[id].lifecycle == Confirmed {
        ConfirmedAfterSupersede(s, olds, replacement, id);
      }
    }
    forall id | id in s.items
      ensures id in olds <==> id in Ids(olds) * s.items.Keys
    {
    }
  }

  /**
    `context supersede` is accepted exactly when all items are in the scope, confirmed and not
    superseded, and the old ones have the replacement's project, team, visibility and agent.
    An accepted one does what `Superseded` and `Cascaded` say, a refused one nothing.
  */
  lemma SupersedeExactly(s: Store, scope: Scope, olds: seq<Id>, replacement: Id)
    ensures
      var all := [replacement] + olds;
      Outcome(s, Supersede(scope, olds, replacement)).Some?
      <==> replacement in s.items && forall i | 0 <= i < |all| ::
             && all[i] in s.items && s.items[all[i]].lifecycle == Confirmed && s.items[all[i]].supersededBy == None
             && s.items[all[i]].identity.project == scope.project
             && (scope.team == "" || s.items[all[i]].identity.team == scope.team)
             && s.items[all[i]].identity == s.items[replacement].identity
    ensures
      var t := After(s, Supersede(scope, olds, replacement));
      if Outcome(s, Supersede(scope, olds, replacement)).Some?
      then Superseded(s, t, olds, replacement) && Cascaded(s, t, olds)
      else t == s
  {
    SupersedeAllDoes(s, olds, replacement);
    ProposalsAfterSupersede(s, olds, replacement);
    SupersedeAccepted(s, scope, olds, replacement);
  }

  lemma SupersedeAccepted(s: Store, scope: Scope, olds: seq<Id>, replacement: Id)
    ensures
      var all := [replacement] + olds;
      Replaceable(s, scope, olds, replacement)
      <==> replacement in s.items && forall i | 0 <= i < |all| ::
             && all[i] in s.items && s.items[all[i]].lifecycle == Confirmed && s.items[all[i]].supersededBy == None
             && s.items[all[i]].identity.project == scope.project
             && (scope.team == "" || s.items[all[i]].identity.team == scope.team)
             && s.items[all[i]].identity == s.items[replacement].identity
  {
    var all := [replacement] + olds;
    assert all[0] == replacement == [replacement][0];
    assert forall i | 0 <= i < |olds| :: olds[i] == all[i + 1];
    assert forall i | 0 < i < |all| :: all[i] == olds[i - 1];
  }

  // ---------------------------------------------------------------- confirming

  /** What confirming does to the items it names is superseding them. */
  lemma {:induction false} LinkOlderIsSupersede(s: Store, c: Id, olds: seq<Id>, seen: Seen)
    requires LinkOlder(s, c, olds, seen).Some?
    ensures LinkOlder(s, c, olds, seen).value.0 == SupersedeAll(s, olds, c)
    decreases |olds|
  {
    if olds != [] {
      LinkOlderIsSupersede(Demote(Link(s, olds[0], c), olds[0]), c, olds[1..], seen[olds[0] := c]);
    }
  }

  /** Nothing else in this transaction was confirmed to replace `x`. */
  predicate FreeFor(seen: Seen, c: Id, x: Id) {
    x in seen ==> seen[x] == c
  }

  /** No item is named twice, and none rests on one named before it. */
  ghost predicate Apart(s: Store, olds: seq<Id>) {
    forall i, j | 0 <= i < j < |olds| :: olds[i] != olds[j] && !RestsOn(s, olds[j], olds[i])
  }

  /** After superseding one item, those still current are the ones that were, without it and what rests on it. */
  lemma CurrentAfterOne(s: Store, first: Id, c: Id, x: Id)
    ensures Current(Demote(Link(s, first, c), first), x) <==> Current(s, x) && x != first && !RestsOn(s, x, first)
  {
    var next := Demote(Link(s, first, c), first);
    LinkEvolves(s, first, c);
    if x in s.items && s.items[x].lifecycle == Confirmed {
      OneSuperseded(s, first, c, x);
    }
  }

  /**
    The items a candidate names can be linked to it exactly when each is current and free, and no
    one is named twice or rests on one named before it: that one would be withdrawn under way.
  */
  lemma {:induction false} LinkOlderAccepts(s: Store, c: Id, olds: seq<Id>, seen: Seen)
    ensures LinkOlder(s, c, olds, seen).Some?
       <==> (forall x | x in olds :: Current(s, x) && FreeFor(seen, c, x)) && Apart(s, olds)
    decreases |olds|
  {
    if olds != [] {
      var first, rest := olds[0], olds[1..];
      var next := Demote(Link(s, first, c), first);
      assert forall x :: x in olds <==> x == first || x in rest;
      if Current(s, first) && FreeFor(seen, c, first) {
        LinkOlderAccepts(next, c, rest, seen[first := c]);
        RestAccepts(s, c, olds, seen);
      }
    }
  }

  lemma RestAccepts(s: Store, c: Id, olds: seq<Id>, seen: Seen)
    requires olds != [] && Current(s, olds[0]) && FreeFor(seen, c, olds[0])
    ensures
      var next := Demote(Link(s, olds[0], c), olds[0]);
      ((forall x | x in olds[1..] :: Current(next, x) && FreeFor(seen[olds[0] := c], c, x)) && Apart(next, olds[1..]))
      <==> ((forall x | x in olds :: Current(s, x) && FreeFor(seen, c, x)) && Apart(s, olds))
  {
    var first, rest := olds[0], olds[1..];
    var next := Demote(Link(s, first, c), first);
    forall x
      ensures Current(next, x) <==> Current(s, x) && x != first && !RestsOn(s, x, first)
    {
      CurrentAfterOne(s, first, c, x);
    }
    assert forall x :: x in olds <==> x == first || x in rest;
    if forall x | x in rest :: Current(s, x) && x != first && !RestsOn(s, x, first) {
      ApartAfterOne(s, c, olds);
    } else {
      var x :| x in rest && !(Current(s, x) && x != first && !RestsOn(s, x, first));
      var k :| 0 <= k < |rest| && rest[k] == x;
      assert olds[k + 1] == x;
    }
  }

  lemma ApartAfterOne(s: Store, c: Id, olds: seq<Id>)
    requires olds != []
    requires forall x | x in olds[1..] :: Current(s, x) && x != olds[0] && !RestsOn(s, x, olds[0])
    ensures Apart(Demote(Link(s, olds[0], c), olds[0]), olds[1..]) <==> Apart(s, olds)
  {
    var first, rest := olds[0], olds[1..];
    var next := Demote(Link(s, first, c), first);
    assert forall k | 0 <= k < |rest| :: rest[k] == olds[k + 1];
    forall i, j | 0 <= i < j < |rest|
      ensures RestsOn(next, rest[j], rest[i]) <==> RestsOn(s, olds[j + 1], olds[i + 1])
    {
      assert rest[j] in rest;
      OneSuperseded(s, first, c, rest[j]);
    }
    if Apart(next, rest) {
      forall i, j | 0 <= i < j < |olds|
        ensures olds[i] != olds[j] && !RestsOn(s, olds[j], olds[i])
      {
        assert olds[j] == rest[j - 1] && rest[j - 1] in rest;
        if i > 0 {
          assert rest[i - 1] == olds[i];
        }
      }
    }
    if Apart(s, olds) {
      forall i, j | 0 <= i < j < |rest|
        ensures rest[i] != rest[j] && !RestsOn(next, rest[j], rest[i])
      {
        assert olds[i + 1] == rest[i] && olds[j + 1] == rest[j];
      }
    }
  }

  /**
    One candidate is confirmed exactly when it is one and the items it names can be linked to it;
    the candidate itself counts as confirmed by then. What follows is superseding those items.
  */
  lemma ConfirmTxExactly(s: Store, c: Id, seen: Seen)
    ensures ConfirmTx(s, c, seen).Some?
       <==> (&& c in s.items && s.items[c].lifecycle == Candidate
             && var t := s.(items := s.items[c := s.items[c].(lifecycle := Confirmed)]);
                (forall x | x in s.items[c].supersedes :: Current(t, x) && FreeFor(seen, c, x))
                && Apart(t, s.items[c].supersedes))
    ensures ConfirmTx(s, c, seen).Some? ==>
              var t := s.(items := s.items[c := s.items[c].(lifecycle := Confirmed)]);
              ConfirmTx(s, c, seen).value.0 == SupersedeAll(t, s.items[c].supersedes, c)
  {
    if c in s.items && s.items[c].lifecycle == Candidate {
      var t := WithLifecycle(s, c, Confirmed);
      LinkOlderAccepts(t, c, s.items[c].supersedes, seen);
      if ConfirmTx(s, c, seen).Some? {
        LinkOlderIsSupersede(t, c, s.items[c].supersedes, seen);
      }
    }
  }

  /** A candidate among `ids`, blank ones aside, names `x` as superseded. */
  predicate NamedBy(s: Store, ids: seq<Id>, x: Id, c: Id) {
    c in ids && !Blank(c) && c in s.items && x in s.items[c].supersedes
  }

  /** What confirming `ids` makes of item `x`. */
  ghost predicate ConfirmedItem(s: Store, t: Store, ids: seq<Id>, x: Id)
    requires x in s.items && x in t.items
  {
    && t.items[x].identity == s.items[x].identity && t.items[x].source == s.items[x].source
    && t.items[x].supersedes == s.items[x].supersedes && t.items[x].operatorRejection == s.items[x].operatorRejection
    && (if x in ids && !Blank(x)
        then s.items[x].lifecycle == Candidate && s.items[x].source == Ordinary && t.items[x].lifecycle == Confirmed
        else DemotedAtMost(s.items[x], t.items[x]))
    && (if exists c :: NamedBy(s, ids, x, c)
        then exists c :: NamedBy(s, ids, x, c) && t.items[x].supersededBy == Some(c)
        else t.items[x].supersededBy == s.items[x].supersededBy)
  }

  lemma ConfirmedOne(s: Store, c: Id, seen: Seen, x: Id)
    requires ConfirmTx(s, c, seen).Some? && s.items[c].source == Ordinary && x in s.items
    ensures
      var t := ConfirmTx(s, c, seen).value.0;
      && t.items.Keys == s.items.Keys
      && t.items[x].identity == s.items[x].identity && t.items[x].source == s.items[x].source
      && t.items[x].supersedes == s.items[x].supersedes && t.items[x].operatorRejection == s.items[x].operatorRejection
      && (if x == c then s.items[x].lifecycle == Candidate && t.items[x].lifecycle == Confirmed
          else DemotedAtMost(s.items[x], t.items[x]))
      && t.items[x].supersededBy == if x in s.items[c].supersedes then Some(c) else s.items[x].supersededBy
  {
    ConfirmRelinks(s, c, seen);
    assert x in s.items[c].supersedes <==> x in Ids(s.items[c].supersedes);
  }

  /**
    An accepted confirmation confirms every candidate it is given, links every item that one of them
    names to one that names it, and beyond that at most demotes consolidations.
  */
  lemma {:induction false} ConfirmAllDoes(s: Store, ids: seq<Id>, seen: Seen, x: Id)
    requires ConfirmAll(s, ids, seen).Some? && x in s.items
    ensures
      var t := ConfirmAll(s, ids, seen).value;
      t.items.Keys == s.items.Keys && ConfirmedItem(s, t, ids, x)
    decreases |ids|
  {
    if ids != [] {
      var first, rest := ids[0], ids[1..];
      assert forall y :: y in ids <==> y == first || y in rest;
      if Blank(first) {
        ConfirmAllDoes(s, rest, seen, x);
        assert forall c :: NamedBy(s, ids, x, c) <==> NamedBy(s, rest, x, c);
      } else {
        var next := ConfirmTx(s, first, seen).value;
        ConfirmedOne(s, first, seen, x);
        ConfirmAllDoes(next.0, rest, next.1, x);
        forall c
          ensures NamedBy(s, ids, x, c) <==> NamedBy(next.0, rest, x, c) || (c == first && x in s.items[first].supersedes)
        {
          if c in s.items {
            ConfirmedOne(s, first, seen, c);
          }
          assert next.0.items.Keys == s.items.Keys;
        }
        ConfirmedThen(s, next.0, ConfirmAll(s, ids, seen).value, ids, x);
      }
    }
  }

  lemma ConfirmedThen(s: Store, next: Store, t: Store, ids: seq<Id>, x: Id)
    requires ids != [] && !Blank(ids[0]) && ids[0] in s.items && s.items[ids[0]].source == Ordinary
    requires x in s.items && x in next.items && x in t.items && ConfirmedItem(next, t, ids[1..], x)
    requires next.items[x].identity == s.items[x].identity && next.items[x].source == s.items[x].source
    requires next.items[x].supersedes == s.items[x].supersedes
    requires next.items[x].operatorRejection == s.items[x].operatorRejection
    requires if x == ids[0] then s.items[x].lifecycle == Candidate && next.items[x].lifecycle == Confirmed
             else DemotedAtMost(s.items[x], next.items[x])
    requires next.items[x].supersededBy
          == if x in s.items[ids[0]].supersedes then Some(ids[0]) else s.items[x].supersededBy
    requires forall c :: NamedBy(s, ids, x, c)
               <==> NamedBy(next, ids[1..], x, c) || (c == ids[0] && x in s.items[ids[0]].supersedes)
    ensures ConfirmedItem(s, t, ids, x)
  {
    var first, rest := ids[0], ids[1..];
    assert x in ids <==> x == first || x in rest;
    if c :| NamedBy(next, rest, x, c) {
      var d :| NamedBy(next, rest, x, d) && t.items[x].supersededBy == Some(d);
      assert NamedBy(s, ids, x, d);
    } else if x in s.items[first].supersedes {
      assert NamedBy(s, ids, x, first);
    }
  }

  // ---------------------------------------------------------------- reviewing

  /** What confirm and reject demand of each item before their transactions. */
  lemma ReviewableExactly(s: Store, scope: Scope, ids: seq<Id>)
    ensures Reviewable(s, scope, ids)
       <==> forall i | 0 <= i < |ids| ::
              && ids[i] in s.items && s.items[ids[i]].source == Ordinary && s.items[ids[i]].lifecycle == Candidate
              && s.items[ids[i]].identity.project == scope.project
              && (scope.team == "" || s.items[ids[i]].identity.team == scope.team)
  {
  }

  lemma {:induction false} BindAllDoes(s: Store, ids: seq<Id>)
    requires BindAll(s, ids).Some?
    ensures
      var t := BindAll(s, ids).value;
      && t.proposals == s.proposals && t.items.Keys == s.items.Keys
      && forall id | id in s.items ::
           t.items[id] == if id in ids && !Blank(id) then s.items[id].(operatorRejection := true) else s.items[id]
    decreases |ids|
  {
    if ids != [] {
      assert forall id :: id in ids <==> id == ids[0] || id in ids[1..];
      BindAllDoes(if Blank(ids[0]) then s
                  else s.(items := s.items[ids[0] := s.items[ids[0]].(operatorRejection := true)]), ids[1..]);
    }
  }

  lemma {:induction false} RejectAllDoes(s: Store, ids: seq<Id>)
    requires RejectAll(s, ids).Some?
    ensures
      var t := RejectAll(s, ids).value;
      && t.proposals == s.proposals && t.items.Keys == s.items.Keys
      && forall id | id in s.items ::
           t.items[id] == if id in ids && !Blank(id) then s.items[id].(lifecycle := Rejected) else s.items[id]
    decreases |ids|
  {
    if ids != [] {
      assert forall id :: id in ids <==> id == ids[0] || id in ids[1..];
      RejectAllDoes(if Blank(ids[0]) then s else WithLifecycle(s, ids[0], Rejected), ids[1..]);
    }
  }

  /**
    `context reject` marks the candidates it is given as rejected by the operator, rejects them
    unless one is given twice, and changes nothing else.
  */
  lemma RejectDoes(s: Store, scope: Scope, ids: seq<Id>)
    requires Reviewable(s, scope, ids)
    ensures
      var t := After(s, Reject(scope, ids));
      && t.proposals == s.proposals && t.items.Keys == s.items.Keys
      && forall id | id in s.items ::
           t.items[id] == if id !in ids || Blank(id) then s.items[id]
                          else if Runs.Distinct(ids) then s.items[id].(operatorRejection := true, lifecycle := Rejected)
                          else s.items[id].(operatorRejection := true)
  {
    Runs.RejectExactly(s, scope, ids);
    assert Runs.AllCandidates(s, ids);
    Runs.BindAllSucceeds(s, ids);
    BindAllDoes(s, ids);
    if Runs.Distinct(ids) {
      RejectAllDoes(BindAll(s, ids).value, ids);
    }
  }

  /** The approval of a proposal confirms its candidate and nothing withdraws it under way. */
  lemma ApproveDoes(s: Store, p: Id, otherwiseFresh: bool)
    requires Outcome(s, Approve(p, otherwiseFresh)).Some?
    ensures
      var t, c := After(s, Approve(p, otherwiseFresh)), s.proposals[p].candidate;
      && s.proposals[p].status == Proposed && p in t.proposals && t.proposals[p] == s.proposals[p].(status := Approved)
      && c in s.items && s.items[c].lifecycle == Candidate && c in t.items && t.items[c].lifecycle == Confirmed
      && t.items == SupersedeAll(s.(items := s.items[c := s.items[c].(lifecycle := Confirmed)]), s.items[c].supersedes, c).items
  {
    var c := s.proposals[p].candidate;
    var confirmed := WithLifecycle(s, c, Confirmed);
    var t := After(s, Approve(p, otherwiseFresh));
    ConfirmTxExactly(s, c, map[]);
    ConfirmedAfterSupersede(confirmed, s.items[c].supersedes, c, c);
    NotYetResting(confirmed, p);
    SupersedeKeepsProposal(confirmed, s.items[c].supersedes, c, p);
  }

  lemma NotYetResting(s: Store, p: Id)
    requires p in s.proposals && s.proposals[p].status == Proposed && s.proposals[p].candidate in s.items
    requires s.items[s.proposals[p].candidate].source == FromProposal(p)
    ensures forall x :: !RestsOn(s, s.proposals[p].candidate, x)
  {
    var c := s.proposals[p].candidate;
    forall x, n: nat
      ensures !RestsWithin(s, c, x, n)
    {
      forall q | n > 0
        ensures !RestsThrough(s, c, x, n, q)
      {
      }
    }
  }

  lemma SupersedeKeepsProposal(s: Store, olds: seq<Id>, replacement: Id, p: Id)
    requires p in s.proposals
    ensures p in SupersedeAll(s, olds, replacement).proposals
    ensures SupersedeAll(s, olds, replacement).proposals[p].status == Proposed ==>
              SupersedeAll(s, olds, replacement).proposals[p] == s.proposals[p]
  {
    ProposalsAfterSupersede(s, olds, replacement);
  }

  // ---------------------------------------------------------------- imports

  ghost predicate StandsFor(ids: map<string, Id>, legacy: seq<string>, x: Id, i: int) {
    0 <= i < |legacy| && legacy[i] in ids && ids[legacy[i]] == x
  }

  /** The items a legacy record's names stand for: unknown names are passed over. */
  lemma {:induction false} KnownExactly(ids: map<string, Id>, legacy: seq<string>, x: Id)
    ensures x in Known(ids, legacy) <==> exists i :: StandsFor(ids, legacy, x, i)
  {
    if legacy != [] {
      KnownExactly(ids, legacy[1..], x);
      assert StandsFor(ids, legacy, x, 0) <==> legacy[0] in ids && ids[legacy[0]] == x;
      if i :| StandsFor(ids, legacy, x, i) {
        assert i > 0 ==> StandsFor(ids, legacy[1..], x, i - 1);
      }
      if i :| StandsFor(ids, legacy[1..], x, i) {
        assert StandsFor(ids, legacy, x, i + 1);
      }
    }
  }

  /** A legacy id stands for the item of the last record that carries it. */
  lemma {:induction false} CanonicalIDsExactly(records: seq<LegacyRecord>, legacyID: string, id: Id)
    ensures legacyID in CanonicalIDs(records) && CanonicalIDs(records)[legacyID] == id
       <==> exists i :: LastWith(records, legacyID, i) && records[i].id == id
  {
    if records != [] {
      var n := |records| - 1;
      CanonicalIDsExactly(records[..n], legacyID, id);
      if records[n].legacyID == legacyID {
        assert LastWith(records, legacyID, n);
      } else {
        forall i
          ensures LastWith(records, legacyID, i) <==> LastWith(records[..n], legacyID, i)
        {
        }
      }
    }
  }

  ghost predicate LastWith(records: seq<LegacyRecord>, legacyID: string, i: int) {
    0 <= i < |records| && records[i].legacyID == legacyID && forall j | i < j < |records| :: records[j].legacyID != legacyID
  }

  // ---------------------------------------------------------------- rejections are final

  predicate RejectedByOperator(s: Store, id: Id) {
    id in s.items && s.items[id].lifecycle == Rejected && s.items[id].operatorRejection
  }

  lemma CommandKeepsRejection(s: Store, command: Command, id: Id)
    requires RejectedByOperator(s, id)
    ensures RejectedByOperator(After(s, command), id)
  {
    match command
    case Confirm(scope, ids) =>
      if Outcome(s, command).Some? {
        ConfirmAllDoes(s, ids, map[], id);
      }
    case Reject(scope, ids) =>
      if Reviewable(s, scope, ids) {
        RejectDoes(s, scope, ids);
      }
    case Supersede(scope, olds, replacement) =>
      if Outcome(s, command).Some? {
        SupersedeAllEvolves(s, olds, replacement);
      }
    case Approve(p, otherwiseFresh) =>
      if Outcome(s, command).Some? {
        ConfirmedOneOf(s, s.proposals[p].candidate, id);
      }
    case Import(rows, records) =>
      if Outcome(s, command).Some? {
        ImportLinksExactly(s.(items := s.items + rows), CanonicalIDs(records), records);
      }
    case _ =>
  }

  lemma ConfirmedOneOf(s: Store, c: Id, x: Id)
    requires ConfirmTx(s, c, map[]).Some? && x in s.items && s.items[x].lifecycle != Candidate
    ensures
      var t := ConfirmTx(s, c, map[]).value.0;
      x in t.items && DemotedAtMost(s.items[x], t.items[x]) && t.items[x].operatorRejection == s.items[x].operatorRejection
  {
    ConfirmRelinks(s, c, map[]);
  }

  /** What an operator has rejected stays rejected through every run, and keeps the evidence of it. */
  lemma {:induction false} RejectionIsFinal(s: Store, commands: seq<Command>, id: Id)
    requires RejectedByOperator(s, id)
    ensures RejectedByOperator(Execute(s, commands), id)
    decreases |commands|
  {
    if commands != [] {
      var n := |commands| - 1;
      RejectionIsFinal(s, commands[..n], id);
      CommandKeepsRejection(Execute(s, commands[..n]), commands[n], id);
    }
  }
}
