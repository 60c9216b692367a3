/**
  The commands that change the memory store (cmd/hufu/contextcmd.go) and the repository
  transactions they run (internal/context).  Each command is given as a function on
  stores; the methods of `Repository` are the loops of the code, proved to compute it.
  A failed transaction leaves the store as it was.
*/
module MemoryCommands {
  import opened Options
  import opened Texts
  import opened Sequences
  import opened MemoryStore

  // ---------------------------------------------------------------- transactions

  /** Ids that the transactions on candidates pass over. */
  predicate Blank(id: Id) {
    Trim(id) == ""
  }

  function Link(s: Store, prior: Id, replacement: Id): Store {
    if prior in s.items
    then s.(items := s.items[prior := s.items[prior].(supersededBy := Some(replacement))])
    else s
  }

  ghost function SupersedeAll(s: Store, olds: seq<Id>, replacement: Id): Store
    decreases |olds|
  {
    if olds == [] then s
    else SupersedeAll(Demote(Link(s, olds[0], replacement), olds[0]), olds[1..], replacement)
  }

  function WithLifecycle(s: Store, id: Id, lifecycle: Lifecycle): Store
    requires id in s.items
  {
    s.(items := s.items[id := s.items[id].(lifecycle := lifecycle)])
  }

  type Seen = map<Id, Id>

  /** Applies the candidate's recorded supersession links, each to current knowledge. */
  ghost function LinkOlder(s: Store, c: Id, olds: seq<Id>, seen: Seen): Option<(Store, Seen)>
    decreases |olds|
  {
    if olds == [] then
      Some((s, seen))
    else if olds[0] in seen && seen[olds[0]] != c then
      None
    else if !Current(s, olds[0]) then
      None
    else
      LinkOlder(Demote(Link(s, olds[0], c), olds[0]), c, olds[1..], seen[olds[0] := c])
  }

  ghost function ConfirmTx(s: Store, c: Id, seen: Seen): Option<(Store, Seen)> {
    if c !in s.items || s.items[c].lifecycle != Candidate then None
    else LinkOlder(WithLifecycle(s, c, Confirmed), c, s.items[c].supersedes, seen)
  }

  ghost function ConfirmAll(s: Store, ids: seq<Id>, seen: Seen): Option<Store>
    decreases |ids|
  {
    if ids == [] then
      Some(s)
    else if Blank(ids[0]) then
      ConfirmAll(s, ids[1..], seen)
    else if ids[0] !in s.items || s.items[ids[0]].source != Ordinary then
      None
    else
      match ConfirmTx(s, ids[0], seen)
      case None => None
      case Some(next) => ConfirmAll(next.0, ids[1..], next.1)
  }

  function RejectAll(s: Store, ids: seq<Id>): Option<Store>
    decreases |ids|
  {
    if ids == [] then Some(s)
    else if Blank(ids[0]) then RejectAll(s, ids[1..])
    else if ids[0] !in s.items || s.items[ids[0]].source != Ordinary || s.items[ids[0]].lifecycle != Candidate then None
    else RejectAll(WithLifecycle(s, ids[0], Rejected), ids[1..])
  }

  /** Binds evidence of the operator's rejection to candidates, in a transaction of its own. */
  function BindAll(s: Store, ids: seq<Id>): Option<Store>
    decreases |ids|
  {
    if ids == [] then Some(s)
    else if Blank(ids[0]) then BindAll(s, ids[1..])
    else if ids[0] !in s.items || s.items[ids[0]].source != Ordinary || s.items[ids[0]].lifecycle != Candidate then None
    else BindAll(s.(items := s.items[ids[0] := s.items[ids[0]].(operatorRejection := true)]), ids[1..])
  }

  // ---------------------------------------------------------------- commands

  /** The project and team a command is restricted to; no team means any team. */
  datatype Scope = Scope(project: string, team: string) {
    predicate Admits(i: Identity) {
      i.project == project && (team == "" || i.team == team)
    }
  }

  predicate Loads(s: Store, scope: Scope, ids: seq<Id>) {
    forall i | 0 <= i < |ids| :: ids[i] in s.items && scope.Admits(s.items[ids[i]].identity)
  }

  /** What confirm and reject demand of every item they are given. */
  predicate Reviewable(s: Store, scope: Scope, ids: seq<Id>) {
    && Loads(s, scope, ids)
    && forall i | 0 <= i < |ids| :: s.items[ids[i]].source == Ordinary && s.items[ids[i]].lifecycle == Candidate
  }

  predicate Replaceable(s: Store, scope: Scope, olds: seq<Id>, replacement: Id) {
    && Loads(s, scope, olds) && Loads(s, scope, [replacement])
    && Current(s, replacement)
    && forall i | 0 <= i < |olds| ::
         Current(s, olds[i]) && s.items[olds[i]].identity == s.items[replacement].identity
  }

  /** What the runtime demands of the items that a record names as superseded. */
  predicate NamesCurrent(s: Store, identity: Identity, olds: seq<Id>) {
    forall i | 0 <= i < |olds| :: Current(s, olds[i]) && s.items[olds[i]].identity == identity
  }

  predicate Recordable(s: Store, id: Id, item: Item) {
    && id !in s.items && item.source == Ordinary && item.supersededBy == None
    && NamesCurrent(s, item.identity, item.supersedes)
  }

  /** A candidate that a later run may refresh, or reopen unless an operator rejected it. */
  predicate Refreshable(s: Store, id: Id, supersedes: seq<Id>) {
    && id in s.items && s.items[id].source == Ordinary && s.items[id].lifecycle != Confirmed
    && !(s.items[id].lifecycle == Rejected && s.items[id].operatorRejection)
    && NamesCurrent(s, s.items[id].identity, supersedes)
  }

  /** The rows that an import adds: new, without links, and none of a consolidation. */
  predicate Importable(s: Store, rows: map<Id, Item>) {
    rows.Keys !! s.items.Keys && forall id | id in rows :: rows[id].source == Ordinary && rows[id].supersededBy == None
  }

  predicate Consolidates(s: Store, p: Id, candidate: Id, scope: Scope, sources: set<Id>) {
    && p !in s.proposals && candidate !in s.items && |sources| >= 2
    && (forall x | x in sources ::
          Current(s, x) && s.items[x].identity.project == scope.project && s.items[x].identity.team == scope.team)
    && forall x, y | x in sources && y in sources :: s.items[x].identity == s.items[y].identity
  }

  /** The part of a proposal's freshness that lies in the store; the rest is a parameter. */
  predicate Approvable(s: Store, p: Id) {
    && p in s.proposals && s.proposals[p].status == Proposed
    && s.proposals[p].candidate in s.items
    && s.items[s.proposals[p].candidate].source == FromProposal(p)
    && s.items[s.proposals[p].candidate].lifecycle == Candidate
    && forall x | x in s.proposals[p].sources ::
         Current(s, x) && s.items[x].identity.project == s.proposals[p].project
  }

  predicate Refusable(s: Store, p: Id) {
    && p in s.proposals && s.proposals[p].status in {Proposed, Stale}
    && s.proposals[p].candidate in s.items
    && s.items[s.proposals[p].candidate].source == FromProposal(p)
    && s.items[s.proposals[p].candidate].lifecycle == Candidate
  }

  function WithStatus(s: Store, p: Id, status: Status): Store
    requires p in s.proposals
  {
    s.(proposals := s.proposals[p := s.proposals[p].(status := status)])
  }

  datatype Command =
    | Record(id: Id, item: Item)
    | Refresh(id: Id, supersedes: seq<Id>, sameSource: bool)
    | Confirm(scope: Scope, ids: seq<Id>)
    | Reject(scope: Scope, ids: seq<Id>)
    | Supersede(scope: Scope, olds: seq<Id>, replacement: Id)
    | Propose(p: Id, candidate: Id, scope: Scope, sources: set<Id>)
    | Approve(p: Id, otherwiseFresh: bool)
    | Refuse(p: Id)
    | Import(rows: map<Id, Item>, records: seq<LegacyRecord>)

  /** What a command does to the store; `None` when it is refused. */
  ghost function Outcome(s: Store, command: Command): Option<Store> {
    match command
    case Record(id, item) =>
      if Recordable(s, id, item) then Some(s.(items := s.items[id := item])) else None
    case Refresh(id, supersedes, sameSource) =>
      if Refreshable(s, id, supersedes) && sameSource then
        Some(s.(items := s.items[id :=
          s.items[id].(lifecycle := Candidate, supersedes := supersedes, operatorRejection := false)]))
      else
        None
    case Confirm(scope, ids) =>
      if Reviewable(s, scope, ids) then ConfirmAll(s, ids, map[]) else None
    case Reject(scope, ids) =>
      if Reviewable(s, scope, ids) && BindAll(s, ids).Some? then RejectAll(BindAll(s, ids).value, ids) else None
    case Supersede(scope, olds, replacement) =>
      if Replaceable(s, scope, olds, replacement) then Some(SupersedeAll(s, olds, replacement)) else None
    case Propose(p, candidate, scope, sources) =>
      if Consolidates(s, p, candidate, scope, sources) then
        var x :| x in sources;
        var item := Item(s.items[x].identity.(visibility := ""), Candidate, None, FromProposal(p), [], false);
        Some(Store(s.items[candidate := item],
                   s.proposals[p := Proposal(scope.project, candidate, sources, Proposed)]))
      else
        None
    case Approve(p, otherwiseFresh) =>
      if Approvable(s, p) && otherwiseFresh then
        match ConfirmTx(s, s.proposals[p].candidate, map[])
        case None => None
        case Some(next) =>
          if p in next.0.proposals && next.0.proposals[p].status == Proposed
          then Some(WithStatus(next.0, p, Approved))
          else None
      else
        None
    case Refuse(p) =>
      if Refusable(s, p)
      then
        var c := s.proposals[p].candidate;
        var t := s.(items := s.items[c := s.items[c].(lifecycle := Rejected, operatorRejection := true)]);
        Some(WithStatus(t, p, Refused))
      else None
    case Import(rows, records) =>
      if Importable(s, rows)
      then Some(ImportLinks(s.(items := s.items + rows), CanonicalIDs(records), records))
      else None
  }

  /** The store after a command; of a refused one only the evidence bound before a rejection stays. */
  ghost function After(s: Store, command: Command): Store {
    match Outcome(s, command)
    case Some(t) => t
    case None =>
      if command.Reject? && Reviewable(s, command.scope, command.ids) && BindAll(s, command.ids).Some?
      then BindAll(s, command.ids).value
      else s
  }

  /** A record of the legacy store: imported as item `id`; `live` when confirmed and unexpired. */
  datatype LegacyRecord = LegacyRecord(id: Id, legacyID: string, supersedes: seq<string>, live: bool)

  /** The items that the legacy ids name, unknown ids dropped. */
  function Known(ids: map<string, Id>, legacy: seq<string>): seq<Id> {
    if legacy == [] then []
    else (if legacy[0] in ids then [ids[legacy[0]]] else []) + Known(ids, legacy[1..])
  }

  ghost function ImportLinks(s: Store, ids: map<string, Id>, records: seq<LegacyRecord>): Store
    decreases |records|
  {
    if records == [] then
      s
    else
      var r := records[0];
      var next := if r.live && r.legacyID in ids
                  then SupersedeAll(s, Known(ids, r.supersedes), ids[r.legacyID]) else s;
      ImportLinks(next, ids, records[1..])
  }

  // ---------------------------------------------------------------- the repository

  class Repository {
    var store: Store

    constructor (s: Store)
      ensures store == s
    {
      store := s;
    }

    method MarkSuperseded(olds: seq<Id>, replacement: Id)
      modifies this
      ensures store == SupersedeAll(old(store), olds, replacement)
    {
      var tx := store;
      for i := 0 to |olds|
        invariant SupersedeAll(tx, olds[i..], replacement) == SupersedeAll(old(store), olds, replacement)
      {
        assert olds[i..][0] == olds[i] && olds[i..][1..] == olds[i + 1..];
        tx := DemoteDerived(Link(tx, olds[i], replacement), olds[i]);
      }
      store := tx;
    }

    method ConfirmCandidates(ids: seq<Id>) returns (ok: bool)
      modifies this
      ensures ok <==> ConfirmAll(old(store), ids, map[]).Some?
      ensures store == if ok then ConfirmAll(old(store), ids, map[]).value else old(store)
    {
      var tx := store;
      var seenOld: Seen := map[];
      for i := 0 to |ids|
        invariant store == old(store)
        invariant ConfirmAll(tx, ids[i..], seenOld) == ConfirmAll(old(store), ids, map[])
      {
        assert ids[i..][0] == ids[i] && ids[i..][1..] == ids[i + 1..];
        if Blank(ids[i]) {
          continue;
        }
        if ids[i] !in tx.items || tx.items[ids[i]].source != Ordinary {
          return false;
        }
        var confirmed;
        confirmed, tx, seenOld := ConfirmCandidateTx(tx, ids[i], seenOld);
        if !confirmed {
          return false;
        }
      }
      store := tx;
      return true;
    }

    static method ConfirmCandidateTx(s: Store, c: Id, seen0: Seen) returns (ok: bool, tx: Store, seen: Seen)
      ensures ConfirmTx(s, c, seen0) == if ok then Some((tx, seen)) else None
    {
      ok, tx, seen := false, s, seen0;
      if c !in s.items || s.items[c].lifecycle != Candidate {
        return;
      }
      var olds := s.items[c].supersedes;
      tx := WithLifecycle(s, c, Confirmed);
      for i := 0 to |olds|
        invariant LinkOlder(tx, c, olds[i..], seen) == ConfirmTx(s, c, seen0)
      {
        var oldID := olds[i];
        assert olds[i..][0] == oldID && olds[i..][1..] == olds[i + 1..];
        if oldID in seen && seen[oldID] != c {
          return;
        }
        seen := seen[oldID := c];
        if oldID !in tx.items || tx.items[oldID].lifecycle != Confirmed || tx.items[oldID].supersededBy != None {
          return;
        }
        tx := DemoteDerived(Link(tx, oldID, c), oldID);
      }
      ok := true;
    }

    method RejectCandidates(ids: seq<Id>) returns (ok: bool)
      modifies this
      ensures ok <==> RejectAll(old(store), ids).Some?
      ensures store == if ok then RejectAll(old(store), ids).value else old(store)
    {
      var tx := store;
      for i := 0 to |ids|
        invariant store == old(store)
        invariant RejectAll(tx, ids[i..]) == RejectAll(old(store), ids)
      {
        assert ids[i..][0] == ids[i] && ids[i..][1..] == ids[i + 1..];
        if Blank(ids[i]) {
          continue;
        }
        if ids[i] !in tx.items || tx.items[ids[i]].source != Ordinary || tx.items[ids[i]].lifecycle != Candidate {
          return false;
        }
        tx := WithLifecycle(tx, ids[i], Rejected);
      }
      store := tx;
      return true;
    }

    method BindCandidates(ids: seq<Id>) returns (ok: bool)
      modifies this
      ensures ok <==> BindAll(old(store), ids).Some?
      ensures store == if ok then BindAll(old(store), ids).value else old(store)
    {
      var tx := store;
      for i := 0 to |ids|
        invariant store == old(store)
        invariant BindAll(tx, ids[i..]) == BindAll(old(store), ids)
      {
        assert ids[i..][0] == ids[i] && ids[i..][1..] == ids[i + 1..];
        if Blank(ids[i]) {
          continue;
        }
        if ids[i] !in tx.items || tx.items[ids[i]].source != Ordinary || tx.items[ids[i]].lifecycle != Candidate {
          return false;
        }
        tx := tx.(items := tx.items[ids[i] := tx.items[ids[i]].(operatorRejection := true)]);
      }
      store := tx;
      return true;
    }

    method LoadExactMutationItems(scope: Scope, ids: seq<Id>) returns (ok: bool)
      ensures ok <==> forall i | 0 <= i < |ids| ::
                && ids[i] in store.items && store.items[ids[i]].identity.project == scope.project
                && (scope.team == "" || store.items[ids[i]].identity.team == scope.team)
    {
      for i := 0 to |ids|
        invariant forall k | 0 <= k < i :: ids[k] in store.items
      {
        if ids[i] !in store.items {
          return false;
        }
      }
      for i := 0 to |ids|
        invariant forall k | 0 <= k < i :: scope.Admits(store.items[ids[k]].identity)
      {
        if !scope.Admits(store.items[ids[i]].identity) {
          return false;
        }
      }
      return true;
    }

    method CheckReviewable(scope: Scope, ids: seq<Id>) returns (ok: bool)
      ensures ok <==> Reviewable(store, scope, ids)
    {
      ok := LoadExactMutationItems(scope, ids);
      if !ok {
        return;
      }
      for i := 0 to |ids|
        invariant forall k | 0 <= k < i :: store.items[ids[k]].source == Ordinary
      {
        if store.items[ids[i]].source != Ordinary {
          return false;
        }
      }
      for i := 0 to |ids|
        invariant forall k | 0 <= k < i :: store.items[ids[k]].lifecycle == Candidate
      {
        if store.items[ids[i]].lifecycle != Candidate {
          return false;
        }
      }
    }

    method RunContextConfirm(scope: Scope, ids: seq<Id>) returns (ok: bool)
      modifies this
      ensures ok <==> Outcome(old(store), Confirm(scope, ids)).Some?
      ensures store == After(old(store), Confirm(scope, ids))
    {
      ok := CheckReviewable(scope, ids);
      if ok {
        ok := ConfirmCandidates(ids);
      }
    }

    method RunContextReject(scope: Scope, ids: seq<Id>) returns (ok: bool)
      modifies this
      ensures ok <==> Outcome(old(store), Reject(scope, ids)).Some?
      ensures store == After(old(store), Reject(scope, ids))
    {
      ok := CheckReviewable(scope, ids);
      if ok {
        ok := BindCandidates(ids);
      }
      if ok {
        ok := RejectCandidates(ids);
      }
    }

    method RunContextSupersede(scope: Scope, olds: seq<Id>, replacement: Id) returns (ok: bool)
      modifies this
      ensures ok <==> Outcome(old(store), Supersede(scope, olds, replacement)).Some?
      ensures store == After(old(store), Supersede(scope, olds, replacement))
    {
      ok := LoadExactMutationItems(scope, olds);
      if !ok {
        return;
      }
      ok := LoadExactMutationItems(scope, [replacement]);
      if !ok {
        return;
      }
      assert [replacement][0] in store.items;
      if !Current(store, replacement) {
        return false;
      }
      for i := 0 to |olds|
        invariant forall k | 0 <= k < i ::
          Current(store, olds[k]) && store.items[olds[k]].identity == store.items[replacement].identity
      {
        if !Current(store, olds[i]) || store.items[olds[i]].identity != store.items[replacement].identity {
          return false;
        }
      }
      MarkSuperseded(olds, replacement);
    }

    /** `context migrate-memory`: adds the rows that are not there yet and links what they supersede. */
    method RunContextMigrateMemory(rows: map<Id, Item>, records: seq<LegacyRecord>) returns (ok: bool)
      modifies this
      ensures ok <==> Outcome(old(store), Import(rows, records)).Some?
      ensures store == After(old(store), Import(rows, records))
    {
      ok := Importable(store, rows);
      if ok {
        store := store.(items := store.items + rows);
        MigrateSupersessions(records);
      }
    }

    /** The supersession loop, after the items were appended. */
    method MigrateSupersessions(records: seq<LegacyRecord>)
      modifies this
      ensures store == ImportLinks(old(store), CanonicalIDs(records), records)
    {
      var canonicalIDs: map<string, Id> := map[];
      for i := 0 to |records|
        invariant canonicalIDs == CanonicalIDs(records[..i])
      {
        canonicalIDs := canonicalIDs[records[i].legacyID := records[i].id];
        assert records[..i + 1][..i] == records[..i];
      }
      assert records[..|records|] == records;
      for i := 0 to |records|
        invariant ImportLinks(store, canonicalIDs, records[i..]) == ImportLinks(old(store), canonicalIDs, records)
      {
        var r := records[i];
        assert records[i..][0] == r && records[i..][1..] == records[i + 1..];
        if !r.live {
          continue;
        }
        CanonicalIDsHasAll(records, i);
        var oldIDs := KnownIDs(canonicalIDs, r.supersedes);
        if |oldIDs| > 0 {
          MarkSuperseded(oldIDs, canonicalIDs[r.legacyID]);
        }
      }
    }

    static method KnownIDs(ids: map<string, Id>, legacy: seq<string>) returns (known: seq<Id>)
      ensures known == Known(ids, legacy)
    {
      known := [];
      for k := 0 to |legacy|
        invariant known + Known(ids, legacy[k..]) == Known(ids, legacy)
      {
        assert legacy[k..][0] == legacy[k] && legacy[k..][1..] == legacy[k + 1..];
        ghost var rest := Known(ids, legacy[k + 1..]);
        if legacy[k] in ids {
          Assoc(known, [ids[legacy[k]]], rest);
          known := known + [ids[legacy[k]]];
        }
      }
    }
  }

  /** Each legacy id stands for the item of the last record that carries it. */
  function CanonicalIDs(records: seq<LegacyRecord>): map<string, Id> {
    if records == [] then map[]
    else
      var last := records[|records| - 1];
      CanonicalIDs(records[..|records| - 1])[last.legacyID := last.id]
  }

  lemma {:induction false} CanonicalIDsHasAll(records: seq<LegacyRecord>, i: nat)
    requires i < |records|
    ensures records[i].legacyID in CanonicalIDs(records)
  {
    if i < |records| - 1 {
      CanonicalIDsHasAll(records[..|records| - 1], i);
    }
  }
}
