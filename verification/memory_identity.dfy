/**
  Items of one supersession chain share project, team, visibility and agent: what each command
  needs to keep it so, and exactly when an import does.
*/
module MemoryIdentity {
  import opened Options
  import opened MemoryStore
  import opened MemoryCommands
  import opened MemoryLaws
  import opened MemoryGraph

  // ---------------------------------------------------------------- what is kept

  /** A superseded item and its replacement exist and share project, team, visibility and agent. */
  ghost predicate OneIdentity(s: Store) {
    forall id | id in s.items && s.items[id].supersededBy.Some? ::
      var next := s.items[id].supersededBy.value;
      next in s.items && s.items[next].identity == s.items[id].identity
  }

  predicate FitItem(s: Store, id: Id)
    requires id in s.items
  {
    forall i | 0 <= i < |s.items[id].supersedes| ::
      var x := s.items[id].supersedes[i];
      x in s.items ==> s.items[x].identity == s.items[id].identity
  }

  /** What an item names as superseded shares its identity, where it exists. */
  ghost predicate NamesFit(s: Store) {
    forall id | id in s.items :: FitItem(s, id)
  }

  // ---------------------------------------------------------------- identity along links

  lemma EvolvesKeepsIdentity(s: Store, t: Store, olds: set<Id>, replacement: Id)
    requires OneIdentity(s) && Evolves(s, t, olds, replacement) && replacement in s.items
    requires forall x | x in olds :: x in s.items && s.items[x].identity == s.items[replacement].identity
    ensures OneIdentity(t)
  {
  }

  lemma EvolvesKeepsFit(s: Store, t: Store, olds: set<Id>, replacement: Id)
    requires NamesFit(s) && Evolves(s, t, olds, replacement)
    ensures NamesFit(t)
  {
    forall id | id in t.items
      ensures FitItem(t, id)
    {
      assert FitItem(s, id);
    }
  }

  lemma ConfirmTxFits(s: Store, c: Id, seen: Seen)
    requires OneIdentity(s) && ConfirmTx(s, c, seen).Some? && FitItem(s, c)
    ensures OneIdentity(ConfirmTx(s, c, seen).value.0)
  {
    var confirmed := WithLifecycle(s, c, Confirmed);
    ConfirmRelinks(s, c, seen);
    assert OneIdentity(confirmed);
    EvolvesKeepsIdentity(confirmed, ConfirmTx(s, c, seen).value.0, Ids(s.items[c].supersedes), c);
  }

  lemma ConfirmTxKeepsIdentity(s: Store, c: Id, seen: Seen)
    requires OneIdentity(s) && NamesFit(s) && ConfirmTx(s, c, seen).Some?
    ensures OneIdentity(ConfirmTx(s, c, seen).value.0) && NamesFit(ConfirmTx(s, c, seen).value.0)
  {
    var confirmed := WithLifecycle(s, c, Confirmed);
    var t, olds := ConfirmTx(s, c, seen).value.0, Ids(s.items[c].supersedes);
    ConfirmRelinks(s, c, seen);
    assert FitItem(s, c);
    SameNamesFit(s, confirmed);
    ConfirmTxFits(s, c, seen);
    EvolvesKeepsFit(confirmed, t, olds, c);
  }

  lemma SameNamesFit(s: Store, t: Store)
    requires NamesFit(s) && SameGraph(s.items, t.items)
    requires forall id | id in s.items :: t.items[id].identity == s.items[id].identity
    ensures NamesFit(t)
  {
    forall id | id in t.items
      ensures FitItem(t, id)
    {
      assert FitItem(s, id);
    }
  }

  lemma {:induction false} ConfirmAllKeepsIdentity(s: Store, ids: seq<Id>, seen: Seen)
    requires OneIdentity(s) && NamesFit(s) && ConfirmAll(s, ids, seen).Some?
    ensures OneIdentity(ConfirmAll(s, ids, seen).value) && NamesFit(ConfirmAll(s, ids, seen).value)
    decreases |ids|
  {
    if ids != [] {
      if Blank(ids[0]) {
        ConfirmAllKeepsIdentity(s, ids[1..], seen);
      } else {
        ConfirmTxKeepsIdentity(s, ids[0], seen);
        var next := ConfirmTx(s, ids[0], seen).value;
        ConfirmAllKeepsIdentity(next.0, ids[1..], next.1);
      }
    }
  }

  /** Every link of an import leads to an item that exists and shares the identity of the one it replaces. */
  predicate LinksFit(items: map<Id, Item>, ids: map<string, Id>, records: seq<LegacyRecord>) {
    forall x | x in items && Named(ids, records, x).Some? ::
      var replacement := Named(ids, records, x).value;
      replacement in items && items[replacement].identity == items[x].identity
  }

  /** An import keeps one identity along links exactly when its own links do. */
  lemma ImportKeepsIdentity(s: Store, ids: map<string, Id>, records: seq<LegacyRecord>)
    requires OneIdentity(s)
    ensures OneIdentity(ImportLinks(s, ids, records)) <==> LinksFit(s.items, ids, records)
  {
    var t := ImportLinks(s, ids, records);
    ImportLinksExactly(s, ids, records);
    forall x | x in s.items
      ensures t.items[x].supersededBy == Linked(s.items, ids, records, x)
    {
      assert Successor(t.items, x) == Linked(s.items, ids, records, x);
    }
  }

  lemma ImportKeepsFit(s: Store, ids: map<string, Id>, records: seq<LegacyRecord>)
    requires NamesFit(s)
    ensures NamesFit(ImportLinks(s, ids, records))
  {
    var t := ImportLinks(s, ids, records);
    ImportLinksExactly(s, ids, records);
    forall id | id in t.items
      ensures FitItem(t, id)
    {
      assert FitItem(s, id);
    }
  }

  /** Whoever names `id` shares its identity. */
  ghost predicate NamedByKin(s: Store, id: Id, identity: Identity) {
    forall x | x in s.items && id in s.items[x].supersedes :: s.items[x].identity == identity
  }

  /** A new id is not named already by an item of another identity, and what is imported fits. */
  ghost predicate Fits(s: Store, command: Command) {
    match command
    case Record(id, item) => NamedByKin(s, id, item.identity)
    case Propose(_, c, _, _) => Outcome(s, command).Some? ==> NamedByKin(s, c, After(s, command).items[c].identity)
    case Import(rows, records) =>
      var t := s.(items := s.items + rows);
      NamesFit(t) && LinksFit(t.items, CanonicalIDs(records), records)
    case _ => true
  }

  lemma SupersedeKeepsIdentity(s: Store, scope: Scope, olds: seq<Id>, replacement: Id)
    requires OneIdentity(s) && NamesFit(s) && Outcome(s, Supersede(scope, olds, replacement)).Some?
    ensures OneIdentity(SupersedeAll(s, olds, replacement)) && NamesFit(SupersedeAll(s, olds, replacement))
  {
    var t := SupersedeAll(s, olds, replacement);
    SupersedeAllEvolves(s, olds, replacement);
    assert Ids(olds) * s.items.Keys == Ids(olds);
    EvolvesKeepsIdentity(s, t, Ids(olds), replacement);
    EvolvesKeepsFit(s, t, Ids(olds), replacement);
  }

  lemma RejectKeepsIdentity(s: Store, scope: Scope, ids: seq<Id>)
    requires OneIdentity(s) && NamesFit(s)
    ensures OneIdentity(After(s, Reject(scope, ids))) && NamesFit(After(s, Reject(scope, ids)))
  {
    var t := After(s, Reject(scope, ids));
    RejectChangesLifecycles(s, scope, ids);
    SameNamesFit(s, t);
  }

  /** Rejecting changes no link, no name and no identity, and only candidates of no proposal. */
  lemma RejectChangesLifecycles(s: Store, scope: Scope, ids: seq<Id>)
    ensures
      var t := After(s, Reject(scope, ids));
      && SameGraph(s.items, t.items)
      && forall id | id in s.items ::
           && t.items[id].identity == s.items[id].identity && t.items[id].source == s.items[id].source
           && (s.items[id].lifecycle == Confirmed <==> t.items[id].lifecycle == Confirmed)
  {
    if Reviewable(s, scope, ids) && BindAll(s, ids).Some? {
      BindAllChanges(s, ids);
      if RejectAll(BindAll(s, ids).value, ids).Some? {
        RejectAllChanges(BindAll(s, ids).value, ids);
      }
    }
  }

  lemma {:induction false} RejectAllChanges(s: Store, ids: seq<Id>)
    requires RejectAll(s, ids).Some?
    ensures
      var t := RejectAll(s, ids).value;
      && SameGraph(s.items, t.items)
      && forall id | id in s.items ::
           && t.items[id].identity == s.items[id].identity && t.items[id].source == s.items[id].source
           && (s.items[id].lifecycle == Confirmed <==> t.items[id].lifecycle == Confirmed)
    decreases |ids|
  {
    if ids != [] {
      RejectAllChanges(if Blank(ids[0]) then s else WithLifecycle(s, ids[0], Rejected), ids[1..]);
    }
  }

  lemma {:induction false} BindAllChanges(s: Store, ids: seq<Id>)
    requires BindAll(s, ids).Some?
    ensures
      var t := BindAll(s, ids).value;
      && SameGraph(s.items, t.items)
      && forall id | id in s.items ::
           && t.items[id].identity == s.items[id].identity && t.items[id].source == s.items[id].source
           && t.items[id].lifecycle == s.items[id].lifecycle
    decreases |ids|
  {
    if ids != [] {
      BindAllChanges(if Blank(ids[0]) then s
                     else s.(items := s.items[ids[0] := s.items[ids[0]].(operatorRejection := true)]), ids[1..]);
    }
  }

  lemma NewItemKeepsFit(s: Store, id: Id, item: Item)
    requires OneIdentity(s) && NamesFit(s) && NamedByKin(s, id, item.identity)
    requires id !in s.items && item.supersededBy == None && NamesCurrent(s, item.identity, item.supersedes)
    ensures
      var t := s.(items := s.items[id := item]);
      OneIdentity(t) && NamesFit(t)
  {
    var t := s.(items := s.items[id := item]);
    forall x | x in t.items
      ensures FitItem(t, x)
    {
      if x != id {
        assert FitItem(s, x);
      }
    }
  }

  lemma RefreshKeepsIdentity(s: Store, id: Id, supersedes: seq<Id>)
    requires OneIdentity(s) && NamesFit(s) && Refreshable(s, id, supersedes)
    ensures
      var t := After(s, Refresh(id, supersedes, true));
      OneIdentity(t) && NamesFit(t)
  {
    var t := After(s, Refresh(id, supersedes, true));
    forall x | x in t.items
      ensures FitItem(t, x)
    {
      assert FitItem(s, x);
    }
  }

  lemma RefuseKeepsIdentity(s: Store, p: Id)
    requires OneIdentity(s) && NamesFit(s)
    ensures OneIdentity(After(s, Refuse(p))) && NamesFit(After(s, Refuse(p)))
  {
    SameNamesFit(s, After(s, Refuse(p)));
  }

  /** Every command that fits keeps one identity along links and among names. */
  lemma CommandKeepsIdentity(s: Store, command: Command)
    requires OneIdentity(s) && NamesFit(s) && Fits(s, command)
    ensures OneIdentity(After(s, command)) && NamesFit(After(s, command))
  {
    if command.Reject? {
      RejectKeepsIdentity(s, command.scope, command.ids);
    } else if Outcome(s, command).Some? {
      match command
      case Record(id, item) => NewItemKeepsFit(s, id, item);
      case Refresh(id, supersedes, _) => RefreshKeepsIdentity(s, id, supersedes);
      case Confirm(_, ids) => ConfirmAllKeepsIdentity(s, ids, map[]);
      case Supersede(scope, olds, replacement) => SupersedeKeepsIdentity(s, scope, olds, replacement);
      case Propose(p, c, _, _) =>
        NewItemKeepsFit(s, c, After(s, command).items[c]);
        SameNamesFit(s.(items := After(s, command).items), After(s, command));
      case Approve(p, _) => ApproveKeepsIdentity(s, command);
      case Refuse(p) => RefuseKeepsIdentity(s, p);
      case Import(rows, records) =>
        var t := s.(items := s.items + rows);
        ImportKeepsIdentity(t, CanonicalIDs(records), records);
        ImportKeepsFit(t, CanonicalIDs(records), records);
    }
  }

  lemma ApproveKeepsIdentity(s: Store, command: Command)
    requires OneIdentity(s) && NamesFit(s) && command.Approve? && Outcome(s, command).Some?
    ensures OneIdentity(After(s, command)) && NamesFit(After(s, command))
  {
    var c := s.proposals[command.p].candidate;
    ConfirmTxKeepsIdentity(s, c, map[]);
    SameNamesFit(ConfirmTx(s, c, map[]).value.0, After(s, command));
  }

  // ---------------------------------------------------------------- exactly when links keep one identity

  /** Only items without a link are linked, so identity once lost along a link stays lost. */
  lemma IdentityBefore(s: Store, t: Store, olds: set<Id>, replacement: Id)
    requires Evolves(s, t, olds, replacement) && OneIdentity(t)
    requires forall x | x in olds :: Current(s, x)
    ensures OneIdentity(s)
  {
    forall id | id in s.items && s.items[id].supersededBy.Some?
      ensures s.items[id].supersededBy.value in s.items
      ensures s.items[s.items[id].supersededBy.value].identity == s.items[id].identity
    {
      assert id !in olds;
      assert t.items[id].supersededBy == s.items[id].supersededBy;
    }
  }

  lemma ConfirmTxFitted(s: Store, c: Id, seen: Seen)
    requires ConfirmTx(s, c, seen).Some? && OneIdentity(ConfirmTx(s, c, seen).value.0)
    ensures OneIdentity(s) && FitItem(s, c)
  {
    var confirmed := WithLifecycle(s, c, Confirmed);
    var t, olds := ConfirmTx(s, c, seen).value.0, Ids(s.items[c].supersedes);
    ConfirmRelinks(s, c, seen);
    IdentityBefore(confirmed, t, olds, c);
    assert OneIdentity(s) by {
      SameIdentity(s, confirmed);
    }
    forall x | x in olds
      ensures s.items[x].identity == s.items[c].identity
    {
      assert t.items[x].supersededBy == Some(c);
    }
  }

  lemma SameIdentity(s: Store, t: Store)
    requires OneIdentity(t) && SameGraph(s.items, t.items)
    requires forall id | id in s.items :: t.items[id].identity == s.items[id].identity
    ensures OneIdentity(s)
  {
  }

  /** Confirming a candidate keeps one identity along links exactly when the items it names share it. */
  lemma ConfirmTxIdentityExactly(s: Store, c: Id, seen: Seen)
    requires ConfirmTx(s, c, seen).Some?
    ensures OneIdentity(ConfirmTx(s, c, seen).value.0) <==> OneIdentity(s) && FitItem(s, c)
  {
    if OneIdentity(ConfirmTx(s, c, seen).value.0) {
      ConfirmTxFitted(s, c, seen);
    } else if OneIdentity(s) && FitItem(s, c) {
      ConfirmTxFits(s, c, seen);
    }
  }

  /** Each candidate's identity is that of the items it names. */
  ghost predicate AllFit(s: Store, ids: seq<Id>) {
    forall i | 0 <= i < |ids| && !Blank(ids[i]) :: ids[i] in s.items && FitItem(s, ids[i])
  }

  lemma SameFit(s: Store, t: Store, ids: seq<Id>)
    requires s.items.Keys == t.items.Keys
    requires forall id | id in s.items ::
      t.items[id].identity == s.items[id].identity && t.items[id].supersedes == s.items[id].supersedes
    ensures AllFit(s, ids) <==> AllFit(t, ids)
  {
    forall id | id in s.items
      ensures FitItem(s, id) <==> FitItem(t, id)
    {
    }
  }

  lemma FitFirst(s: Store, ids: seq<Id>)
    requires ids != []
    ensures AllFit(s, ids) <==> (Blank(ids[0]) || (ids[0] in s.items && FitItem(s, ids[0]))) && AllFit(s, ids[1..])
  {
    assert forall i | 0 < i < |ids| :: ids[i] == ids[1..][i - 1];
  }

  lemma {:induction false} ConfirmAllIdentityExactly(s: Store, ids: seq<Id>, seen: Seen)
    requires ConfirmAll(s, ids, seen).Some?
    ensures OneIdentity(ConfirmAll(s, ids, seen).value) <==> OneIdentity(s) && AllFit(s, ids)
    decreases |ids|
  {
    if ids != [] {
      FitFirst(s, ids);
      if Blank(ids[0]) {
        ConfirmAllIdentityExactly(s, ids[1..], seen);
      } else {
        var next := ConfirmTx(s, ids[0], seen).value;
        ConfirmTxIdentityExactly(s, ids[0], seen);
        ConfirmAllIdentityExactly(next.0, ids[1..], next.1);
        ConfirmRelinks(s, ids[0], seen);
        SameFit(s, next.0, ids[1..]);
      }
    }
  }

  /** What a command must meet to keep one identity along links, on the store before it. */
  ghost predicate KeepsKin(s: Store, command: Command) {
    Outcome(s, command).Some? ==>
      match command
      case Confirm(_, ids) => AllFit(s, ids)
      case Approve(p, _) => FitItem(s, s.proposals[p].candidate)
      case Import(rows, records) => LinksFit(s.items + rows, CanonicalIDs(records), records)
      case _ => true
  }

  lemma ApproveIdentityExactly(s: Store, command: Command)
    requires command.Approve? && Outcome(s, command).Some?
    ensures OneIdentity(After(s, command)) <==> OneIdentity(s) && KeepsKin(s, command)
  {
    var c := s.proposals[command.p].candidate;
    ConfirmTxIdentityExactly(s, c, map[]);
    assert After(s, command).items == ConfirmTx(s, c, map[]).value.0.items;
  }

  lemma SupersedeIdentity(s: Store, scope: Scope, olds: seq<Id>, replacement: Id)
    requires OneIdentity(s) && Outcome(s, Supersede(scope, olds, replacement)).Some?
    ensures OneIdentity(SupersedeAll(s, olds, replacement))
  {
    SupersedeAllEvolves(s, olds, replacement);
    assert Ids(olds) * s.items.Keys == Ids(olds);
    EvolvesKeepsIdentity(s, SupersedeAll(s, olds, replacement), Ids(olds), replacement);
  }

  /** From a store with one identity along links, a command keeps it so exactly when it meets its condition. */
  lemma CommandIdentityExactly(s: Store, command: Command)
    requires OneIdentity(s)
    ensures OneIdentity(After(s, command)) <==> KeepsKin(s, command)
  {
    if command.Reject? {
      RejectChangesLifecycles(s, command.scope, command.ids);
    } else if Outcome(s, command).Some? {
      match command
      case Confirm(_, ids) => ConfirmAllIdentityExactly(s, ids, map[]);
      case Supersede(scope, olds, replacement) => SupersedeIdentity(s, scope, olds, replacement);
      case Approve(_, _) => ApproveIdentityExactly(s, command);
      case Import(rows, records) =>
        ImportKeepsIdentity(s.(items := s.items + rows), CanonicalIDs(records), records);
      case _ =>
    }
  }

  ghost predicate KinAt(s: Store, commands: seq<Command>, k: nat)
    requires k < |commands|
  {
    KeepsKin(Execute(s, commands[..k]), commands[k])
  }

  /** Every command meets its condition in the store it finds. */
  ghost predicate AllKin(s: Store, commands: seq<Command>) {
    forall k | 0 <= k < |commands| :: KinAt(s, commands, k)
  }

  ghost predicate AlwaysOneIdentity(s: Store, commands: seq<Command>) {
    forall k | 0 <= k <= |commands| :: OneIdentity(Execute(s, commands[..k]))
  }

  lemma KinBefore(s: Store, commands: seq<Command>)
    requires commands != []
    ensures
      var n, before := |commands| - 1, commands[..|commands| - 1];
      AllKin(s, commands) <==> AllKin(s, before) && KeepsKin(Execute(s, before), commands[n])
  {
    var n, before := |commands| - 1, commands[..|commands| - 1];
    forall k | 0 <= k < n
      ensures KinAt(s, before, k) <==> KinAt(s, commands, k)
    {
      assert before[..k] == commands[..k] && before[k] == commands[k];
    }
    assert KinAt(s, commands, n) <==> KeepsKin(Execute(s, before), commands[n]);
  }

  lemma AlwaysBefore(s: Store, commands: seq<Command>)
    requires commands != []
    ensures
      var before := commands[..|commands| - 1];
      AlwaysOneIdentity(s, commands) <==> AlwaysOneIdentity(s, before) && OneIdentity(Execute(s, commands))
  {
    var n, before := |commands| - 1, commands[..|commands| - 1];
    assert commands[..n + 1] == commands;
    forall k | 0 <= k <= n
      ensures before[..k] == commands[..k]
    {
    }
    if AlwaysOneIdentity(s, commands) {
      assert OneIdentity(Execute(s, commands[..n + 1]));
    }
  }

  /** Over any run, links always keep one identity exactly when each command meets its condition where it comes. */
  lemma {:induction false} RunIdentityExactly(s: Store, commands: seq<Command>)
    requires OneIdentity(s)
    ensures AlwaysOneIdentity(s, commands) <==> AllKin(s, commands)
    decreases |commands|
  {
    if commands != [] {
      var n := |commands| - 1;
      var before := commands[..n];
      RunIdentityExactly(s, before);
      KinBefore(s, commands);
      AlwaysBefore(s, commands);
      if AlwaysOneIdentity(s, before) {
        assert before[..n] == before;
        assert OneIdentity(Execute(s, before[..n]));
        CommandIdentityExactly(Execute(s, before), commands[n]);
      }
    } else {
      assert commands[..0] == commands;
    }
  }
}
