/**
  What every run of the memory commands keeps, and where the commands do not suffice.
*/
module MemoryRuns {
  import opened Options
  import opened MemoryStore
  import opened MemoryCommands
  import opened MemoryLaws
  import opened MemoryGraph
  import opened MemoryApprovals
  import opened MemoryIdentity

  predicate KnownNames(s: Store, id: Id)
    requires id in s.items
  {
    forall i | 0 <= i < |s.items[id].supersedes| ::
      s.items[id].supersedes[i] != id && s.items[id].supersedes[i] in s.items
  }

  /** What an item names as superseded exists and is another item. */
  ghost predicate NamesKnown(s: Store) {
    forall id | id in s.items :: KnownNames(s, id)
  }

  /** Superseded items are Confirmed, but for those that their proposals own. */
  ghost predicate Settled(s: Store) {
    forall id | id in s.items && s.items[id].source == Ordinary && s.items[id].supersededBy.Some? ::
      s.items[id].lifecycle == Confirmed
  }

  // ---------------------------------------------------------------- settled items and known names

  lemma EvolvesKeepsSettled(s: Store, t: Store, olds: set<Id>, replacement: Id)
    requires Settled(s) && Evolves(s, t, olds, replacement)
    requires forall x | x in olds :: Current(s, x)
    ensures Settled(t)
  {
  }

  lemma EvolvesKeepsKnown(s: Store, t: Store, olds: set<Id>, replacement: Id)
    requires NamesKnown(s) && Evolves(s, t, olds, replacement)
    ensures NamesKnown(t)
  {
    forall id | id in t.items
      ensures KnownNames(t, id)
    {
      assert KnownNames(s, id);
    }
  }

  lemma ConfirmTxKeepsSettled(s: Store, c: Id, seen: Seen)
    requires Settled(s) && NamesKnown(s) && ConfirmTx(s, c, seen).Some?
    ensures Settled(ConfirmTx(s, c, seen).value.0) && NamesKnown(ConfirmTx(s, c, seen).value.0)
  {
    var confirmed := WithLifecycle(s, c, Confirmed);
    var t, olds := ConfirmTx(s, c, seen).value.0, Ids(s.items[c].supersedes);
    ConfirmRelinks(s, c, seen);
    SameNamesKnown(s, confirmed);
    EvolvesKeepsSettled(confirmed, t, olds, c);
    EvolvesKeepsKnown(confirmed, t, olds, c);
  }

  lemma SameNamesKnown(s: Store, t: Store)
    requires NamesKnown(s) && SameGraph(s.items, t.items)
    ensures NamesKnown(t)
  {
    forall id | id in t.items
      ensures KnownNames(t, id)
    {
      assert KnownNames(s, id);
    }
  }

  /** Confirming settled candidates that name other, known items is harmless and keeps items settled. */
  lemma {:induction false} ConfirmAllIsHarmless(s: Store, ids: seq<Id>, seen: Seen)
    requires Settled(s) && NamesKnown(s) && ConfirmAll(s, ids, seen).Some?
    ensures EndsAreFree(s.items, ids)
    ensures Settled(ConfirmAll(s, ids, seen).value) && NamesKnown(ConfirmAll(s, ids, seen).value)
    decreases |ids|
  {
    if ids != [] {
      if Blank(ids[0]) {
        ConfirmAllIsHarmless(s, ids[1..], seen);
      } else {
        var c, next := ids[0], ConfirmTx(s, ids[0], seen).value;
        ConfirmTxKeepsSettled(s, c, seen);
        ConfirmAllIsHarmless(next.0, ids[1..], next.1);
        ConfirmGraph(s, c, seen);
        SameGraphEndsAreFree(next.0.items, Relink(s.items, s.items[c].supersedes, c), ids[1..]);
        OwnEndIsFree(s, c);
      }
    }
  }

  lemma OwnEndIsFree(s: Store, c: Id)
    requires c in s.items && s.items[c].supersededBy == None && KnownNames(s, c)
    ensures EndIsFree(s.items, c)
  {
    assert EndsWithin(s.items, c, 0) && Head(s.items, c, 0) == c;
    assert HasHead(s.items, c, c);
  }

  /** The operator does not replace an item by itself; no other command needs such care. */
  predicate Careful(command: Command) {
    !command.Import? && (command.Supersede? ==> command.replacement !in command.olds)
  }

  lemma NewItemKeepsSettled(s: Store, id: Id, item: Item)
    requires Settled(s) && NamesKnown(s) && id !in s.items && item.supersededBy == None
    requires forall i | 0 <= i < |item.supersedes| :: item.supersedes[i] in s.items
    ensures
      var t := s.(items := s.items[id := item]);
      Settled(t) && NamesKnown(t)
  {
    var t := s.(items := s.items[id := item]);
    forall x | x in t.items
      ensures KnownNames(t, x)
    {
      if x != id {
        assert KnownNames(s, x);
      }
    }
  }

  lemma RefreshKeepsSettled(s: Store, id: Id, supersedes: seq<Id>)
    requires Settled(s) && NamesKnown(s) && Refreshable(s, id, supersedes)
    ensures
      var t := After(s, Refresh(id, supersedes, true));
      Settled(t) && NamesKnown(t)
  {
    var t := After(s, Refresh(id, supersedes, true));
    forall x | x in t.items
      ensures KnownNames(t, x)
    {
      assert KnownNames(s, x);
    }
  }

  lemma SupersedeKeepsSettled(s: Store, scope: Scope, olds: seq<Id>, replacement: Id)
    requires Settled(s) && NamesKnown(s) && Outcome(s, Supersede(scope, olds, replacement)).Some?
    ensures Settled(SupersedeAll(s, olds, replacement)) && NamesKnown(SupersedeAll(s, olds, replacement))
  {
    var t := SupersedeAll(s, olds, replacement);
    SupersedeAllEvolves(s, olds, replacement);
    assert Ids(olds) * s.items.Keys == Ids(olds);
    EvolvesKeepsSettled(s, t, Ids(olds), replacement);
    EvolvesKeepsKnown(s, t, Ids(olds), replacement);
  }

  lemma RejectKeepsSettled(s: Store, scope: Scope, ids: seq<Id>)
    requires Settled(s) && NamesKnown(s)
    ensures Settled(After(s, Reject(scope, ids))) && NamesKnown(After(s, Reject(scope, ids)))
  {
    RejectChangesLifecycles(s, scope, ids);
    SameNamesKnown(s, After(s, Reject(scope, ids)));
  }

  lemma ReviewKeepsSettled(s: Store, command: Command)
    requires Owned(s) && Settled(s) && NamesKnown(s) && (command.Approve? || command.Refuse?)
    ensures Settled(After(s, command)) && NamesKnown(After(s, command))
    ensures AllEnd(s.items) ==> Harmless(s, command)
  {
    if Outcome(s, command).Some? {
      var c := s.proposals[command.p].candidate;
      assert OwnedItem(s, c);
      SameNamesKnown(s, After(s, command));
      if command.Approve? {
        ApproveIsHarmless(s, c);
      }
    }
  }

  lemma ApproveIsHarmless(s: Store, c: Id)
    requires c in s.items && s.items[c].supersedes == []
    ensures AllEnd(s.items) ==> EndIsFree(s.items, c)
  {
    if AllEnd(s.items) {
      assert Ends(s.items, c);
      var n :| EndsWithin(s.items, c, n);
      assert HasHead(s.items, c, Head(s.items, c, n));
    }
  }

  /** Every command but an import keeps superseded items settled and names known. */
  lemma CommandKeepsSettled(s: Store, command: Command)
    requires Owned(s) && Settled(s) && NamesKnown(s) && !command.Import?
    ensures Settled(After(s, command)) && NamesKnown(After(s, command))
  {
    if command.Reject? {
      RejectKeepsSettled(s, command.scope, command.ids);
    } else if Outcome(s, command).Some? {
      match command
      case Record(id, item) => NewItemKeepsSettled(s, id, item);
      case Refresh(id, supersedes, _) => RefreshKeepsSettled(s, id, supersedes);
      case Confirm(_, ids) => ConfirmAllIsHarmless(s, ids, map[]);
      case Supersede(scope, olds, replacement) => SupersedeKeepsSettled(s, scope, olds, replacement);
      case Propose(p, c, _, _) => NewItemKeepsSettled(s, c, After(s, command).items[c]);
      case Approve(_, _) => ReviewKeepsSettled(s, command);
      case Refuse(_) => ReviewKeepsSettled(s, command);
    }
  }

  // ---------------------------------------------------------------- runs

  ghost predicate Inv(s: Store) {
    AllEnd(s.items) && Approvals(s) && OneIdentity(s) && NamesFit(s) && Settled(s) && NamesKnown(s)
  }

  lemma CarefulIsHarmless(s: Store, command: Command)
    requires Inv(s) && Careful(command)
    ensures Harmless(s, command)
  {
    if command.Confirm? && Outcome(s, command).Some? {
      ConfirmAllIsHarmless(s, command.ids, map[]);
    }
    if command.Approve? {
      ReviewKeepsSettled(s, command);
    }
  }

  lemma NewIdIsNotNamed(s: Store, id: Id, identity: Identity)
    requires NamesKnown(s) && id !in s.items
    ensures NamedByKin(s, id, identity)
  {
    forall x | x in s.items
      ensures id !in s.items[x].supersedes
    {
      assert KnownNames(s, x);
    }
  }

  lemma CarefulFits(s: Store, command: Command)
    requires NamesKnown(s) && Outcome(s, command).Some? && !command.Import?
    ensures Fits(s, command)
  {
    if command.Record? {
      NewIdIsNotNamed(s, command.id, command.item.identity);
    }
    if command.Propose? {
      NewIdIsNotNamed(s, command.candidate, After(s, command).items[command.candidate].identity);
    }
  }

  lemma CommandKeepsInv(s: Store, command: Command)
    requires Inv(s) && Careful(command)
    ensures Inv(After(s, command))
  {
    CarefulIsHarmless(s, command);
    CommandKeepsEnds(s, command);
    CommandKeepsApprovals(s, command);
    CommandKeepsSettled(s, command);
    if command.Reject? {
      CommandKeepsIdentity(s, command);
    } else if Outcome(s, command).Some? {
      CarefulFits(s, command);
      CommandKeepsIdentity(s, command);
    }
  }

  lemma {:induction false} RunKeepsInv(s: Store, commands: seq<Command>)
    requires Inv(s) && forall i | 0 <= i < |commands| :: Careful(commands[i])
    ensures Inv(Execute(s, commands))
    decreases |commands|
  {
    if commands != [] {
      RunKeepsInv(s, commands[..|commands| - 1]);
      CommandKeepsInv(Execute(s, commands[..|commands| - 1]), commands[|commands| - 1]);
    }
  }

  const EMPTY := Store(map[], map[])

  lemma EmptyInv()
    ensures Inv(EMPTY)
  {
    forall id
      ensures Ends(EMPTY.items, id)
    {
      assert EndsWithin(EMPTY.items, id, 0);
    }
  }

  /** Over every run of careful commands from the empty store, all invariants hold. */
  lemma RunFromEmpty(commands: seq<Command>)
    requires forall i | 0 <= i < |commands| :: Careful(commands[i])
    ensures Inv(Execute(EMPTY, commands))
  {
    EmptyInv();
    RunKeepsInv(EMPTY, commands);
  }

  /** Over every run from sound approvals, imports included, approvals are sound. */
  lemma {:induction false} RunKeepsApprovals(s: Store, commands: seq<Command>)
    requires Approvals(s)
    ensures Approvals(Execute(s, commands))
    decreases |commands|
  {
    if commands != [] {
      RunKeepsApprovals(s, commands[..|commands| - 1]);
      CommandKeepsApprovals(Execute(s, commands[..|commands| - 1]), commands[|commands| - 1]);
    }
  }

  ghost predicate FitsAt(s: Store, commands: seq<Command>, k: nat)
    requires k < |commands|
  {
    Fits(Execute(s, commands[..k]), commands[k])
  }

  /** Over every run whose new items and imports fit, links and names keep one identity. */
  lemma {:induction false} RunKeepsIdentity(s: Store, commands: seq<Command>)
    requires OneIdentity(s) && NamesFit(s) && forall k | 0 <= k < |commands| :: FitsAt(s, commands, k)
    ensures OneIdentity(Execute(s, commands)) && NamesFit(Execute(s, commands))
    decreases |commands|
  {
    if commands != [] {
      var n, before := |commands| - 1, commands[..|commands| - 1];
      forall k | 0 <= k < n
        ensures FitsAt(s, before, k)
      {
        assert FitsAt(s, commands, k) && before[..k] == commands[..k] && before[k] == commands[k];
      }
      RunKeepsIdentity(s, before);
      assert FitsAt(s, commands, n);
      CommandKeepsIdentity(Execute(s, before), commands[n]);
    }
  }

  /**
    Over any run from the empty store, imports and careless commands included: approvals are
    sound, the links never have a cycle exactly when every command was harmless where it came,
    and they always keep one identity exactly when every command met its condition for that.
  */
  lemma AnyRunFromEmpty(commands: seq<Command>)
    ensures Approvals(Execute(EMPTY, commands))
    ensures NeverACycle(EMPTY, commands) <==> AllHarmless(EMPTY, commands)
    ensures AlwaysOneIdentity(EMPTY, commands) <==> AllKin(EMPTY, commands)
  {
    EmptyInv();
    RunKeepsApprovals(EMPTY, commands);
    RunKeepsEnds(EMPTY, commands);
    RunIdentityExactly(EMPTY, commands);
  }

  /** Where items are owned and settled, a superseded one is Confirmed exactly when ordinary or approved. */
  lemma SupersededIsConfirmed(s: Store, id: Id)
    requires Owned(s) && Settled(s) && id in s.items && s.items[id].supersededBy.Some?
    ensures s.items[id].source.FromProposal? ==> s.items[id].source.proposal in s.proposals
    ensures s.items[id].lifecycle == Confirmed
       <==> s.items[id].source == Ordinary || s.proposals[s.items[id].source.proposal].status == Approved
  {
    assert OwnedItem(s, id);
  }

  /** Over every run without imports, superseded ordinary items stay Confirmed, and names known. */
  lemma {:induction false} RunKeepsSettled(s: Store, commands: seq<Command>)
    requires Approvals(s) && Settled(s) && NamesKnown(s)
    requires forall i | 0 <= i < |commands| :: !commands[i].Import?
    ensures Settled(Execute(s, commands)) && NamesKnown(Execute(s, commands))
    decreases |commands|
  {
    if commands != [] {
      var before := commands[..|commands| - 1];
      RunKeepsSettled(s, before);
      RunKeepsApprovals(s, before);
      CommandKeepsSettled(Execute(s, before), commands[|commands| - 1]);
    }
  }

  /** Over every run without imports from the empty store, superseded items are Confirmed with that exception. */
  lemma SupersededInRuns(commands: seq<Command>, id: Id)
    requires forall i | 0 <= i < |commands| :: !commands[i].Import?
    requires var s := Execute(EMPTY, commands); id in s.items && s.items[id].supersededBy.Some?
    ensures
      var s := Execute(EMPTY, commands);
      && (s.items[id].source.FromProposal? ==> s.items[id].source.proposal in s.proposals)
      && (s.items[id].lifecycle == Confirmed
          <==> s.items[id].source == Ordinary || s.proposals[s.items[id].source.proposal].status == Approved)
  {
    EmptyInv();
    RunKeepsApprovals(EMPTY, commands);
    RunKeepsSettled(EMPTY, commands);
    SupersededIsConfirmed(Execute(EMPTY, commands), id);
  }

  // ---------------------------------------------------------------- where the commands do not suffice

  /** `context supersede a --with a` is accepted, and the history of `a` then never ends. */
  lemma SelfReplacementIsAccepted(s: Store, scope: Scope, id: Id)
    requires AllEnd(s.items) && Current(s, id) && scope.Admits(s.items[id].identity)
    ensures Outcome(s, Supersede(scope, [id], id)).Some?
    ensures !AllEnd(After(s, Supersede(scope, [id], id)).items)
  {
    SupersedeKeepsEnds(s, scope, [id], id);
  }

  /** Confirming can close a cycle too: a superseded candidate may name the item its chain has come to end in. */
  lemma ConfirmCanCloseACycle(s: Store, scope: Scope, c: Id, head: Id)
    requires AllEnd(s.items) && HasHead(s.items, c, head) && head != c && Current(s, head)
    requires Reviewable(s, scope, [c]) && !Blank(c) && s.items[c].supersedes == [head]
    ensures Outcome(s, Confirm(scope, [c])).Some?
    ensures !AllEnd(After(s, Confirm(scope, [c])).items)
  {
    assert [c][0] == c;
    var confirmed := WithLifecycle(s, c, Confirmed);
    assert Current(confirmed, head);
    assert LinkOlder(confirmed, c, [head], map[]).Some?;
    ConfirmKeepsEnds(s, c, map[], head);
    var next := ConfirmTx(s, c, map[]).value;
    assert ConfirmAll(s, [c], map[]) == ConfirmAll(next.0, [], next.1) == Some(next.0);
  }

  lemma SupersedeOne(s: Store, prior: Id, replacement: Id)
    ensures SupersedeAll(s, [prior], replacement) == Demote(Link(s, prior, replacement), prior)
  {
    var t := Demote(Link(s, prior, replacement), prior);
    assert SupersedeAll(t, [], replacement) == t;
    assert [prior][1..] == [];
  }

  lemma DemotesItsConsolidation(s: Store, root: Id, p: Id)
    requires Demotable(s, p) && Uses(s, p, root)
    ensures
      var t, c := Demote(s, root), s.proposals[p].candidate;
      && t.items.Keys == s.items.Keys && t.proposals.Keys == s.proposals.Keys
      && t.items[c] == s.items[c].(lifecycle := Candidate) && t.proposals[p].status == Stale
      && (root != c ==> t.items[root].supersededBy == s.items[root].supersededBy)
  {
    assert root in Demoted(s, root) + {root};
    DemotedIsClosed(s, root);
  }

  lemma AfterSupersedeOne(s: Store, scope: Scope, prior: Id, replacement: Id)
    requires Replaceable(s, scope, [prior], replacement)
    ensures Current(s, prior)
    ensures After(s, Supersede(scope, [prior], replacement)) == Demote(Link(s, prior, replacement), prior)
  {
    assert [prior][0] == prior;
    SupersedeOne(s, prior, replacement);
  }

  /** Superseding a source of an approved consolidation makes that a candidate, and its proposal stale. */
  lemma SupersedingASource(s: Store, scope: Scope, source: Id, replacement: Id, p: Id)
    requires Grounded(s) && p in s.proposals && s.proposals[p].status == Approved
    requires source in s.proposals[p].sources && source != s.proposals[p].candidate
    requires Replaceable(s, scope, [source], replacement)
    ensures
      var t, c := After(s, Supersede(scope, [source], replacement)), s.proposals[p].candidate;
      && source in t.items && t.items[source].supersededBy == Some(replacement)
      && c in s.items && c in t.items && t.items[c] == s.items[c].(lifecycle := Candidate)
      && p in t.proposals && t.proposals[p].status == Stale
  {
    AfterSupersedeOne(s, scope, source, replacement);
    assert Demotable(s, p) && Rests(s, p);
    DemotesItsConsolidation(Link(s, source, replacement), source, p);
  }

  /** A superseded consolidation becomes a candidate, still superseded, when one of its sources is superseded. */
  lemma SupersededBecomesCandidate(s: Store, scope: Scope, source: Id, replacement: Id, p: Id)
    requires Grounded(s) && p in s.proposals && s.proposals[p].status == Approved && source in s.proposals[p].sources
    requires s.proposals[p].candidate in s.items && s.items[s.proposals[p].candidate].supersededBy.Some?
    requires Replaceable(s, scope, [source], replacement)
    ensures
      var t, c := After(s, Supersede(scope, [source], replacement)), s.proposals[p].candidate;
      c in t.items && t.items[c].supersededBy.Some? && t.items[c].lifecycle == Candidate
  {
    assert [source][0] == source;
    SupersedingASource(s, scope, source, replacement, p);
  }

  // ---------------------------------------------------------------- concrete runs

  const SHARED := Identity("project", "team", "", "")
  const HERE := Scope("project", "team")

  function Plain(lifecycle: Lifecycle, supersedes: seq<Id>): Item {
    Item(SHARED, lifecycle, None, Ordinary, supersedes, false)
  }

  /** Nothing uses the item, so nothing goes with it. */
  lemma NothingUses(s: Store, root: Id)
    requires forall p :: !Uses(s, p, root)
    ensures Demote(s, root) == s
  {
    assert Closed(s, root, {});
    DemotedIsLeast(s, root, {});
    assert forall p :: !AffectedBy(s, p, {root});
    assert {} + {root} == {root};
  }

  /** Five ids of a run: two sources, what is to replace, the consolidation, and its proposal. */
  datatype Cast = Cast(a: Id, b: Id, r: Id, c: Id, p: Id) {
    predicate Differ() {
      a != b && a != r && a != c && b != r && b != c && r != c
    }

    function Three(): map<Id, Item> {
      map[a := Plain(Confirmed, []), b := Plain(Confirmed, []), r := Plain(Confirmed, [])]
    }

    function Consolidation(lifecycle: Lifecycle, next: Option<Id>): Item {
      Item(SHARED, lifecycle, next, FromProposal(p), [], false)
    }

    /** The store after the consolidation was proposed, approved, and then replaced. */
    function At(lifecycle: Lifecycle, next: Option<Id>, status: Status): Store {
      Store(Three()[c := Consolidation(lifecycle, next)], map[p := Proposal("project", c, {a, b}, status)])
    }

    function Records(): seq<Command> {
      [Record(a, Plain(Confirmed, [])), Record(b, Plain(Confirmed, [])), Record(r, Plain(Confirmed, []))]
    }
  }

  lemma OneMore(s: Store, commands: seq<Command>, command: Command)
    ensures Execute(s, commands + [command]) == After(Execute(s, commands), command)
  {
    assert (commands + [command])[..|commands|] == commands;
  }

  lemma RecordedOne(items: map<Id, Item>, id: Id)
    requires id !in items
    ensures
      var command := Record(id, Plain(Confirmed, []));
      After(Store(items, map[]), command) == Store(items[id := Plain(Confirmed, [])], map[])
  {
  }

  lemma Recorded(k: Cast)
    requires k.Differ()
    ensures Execute(EMPTY, k.Records()) == Store(k.Three(), map[])
  {
    var item := Plain(Confirmed, []);
    var a, b, r := Record(k.a, item), Record(k.b, item), Record(k.r, item);
    OneMore(EMPTY, [], a);
    OneMore(EMPTY, [a], b);
    OneMore(EMPTY, [a, b], r);
    RecordedOne(map[], k.a);
    RecordedOne(map[k.a := item], k.b);
    RecordedOne(map[k.a := item, k.b := item], k.r);
    assert [] + [a] == [a] && [a] + [b] == [a, b] && [a, b] + [r] == [a, b, r];
  }

  lemma Proposed(k: Cast)
    requires k.Differ()
    ensures After(Store(k.Three(), map[]), Propose(k.p, k.c, HERE, {k.a, k.b})) == k.At(Candidate, None, Status.Proposed)
  {
    var s := Store(k.Three(), map[]);
    assert |{k.a, k.b}| == 2;
    assert Consolidates(s, k.p, k.c, HERE, {k.a, k.b});
  }

  lemma ApprovedThen(k: Cast)
    requires k.Differ()
    ensures After(k.At(Candidate, None, Status.Proposed), Approve(k.p, true)) == k.At(Confirmed, None, Approved)
  {
    var s := k.At(Candidate, None, Status.Proposed);
    assert Approvable(s, k.p);
    assert ConfirmTx(s, k.c, map[]) == Some((WithLifecycle(s, k.c, Confirmed), map[]));
    assert WithLifecycle(s, k.c, Confirmed) == k.At(Confirmed, None, Status.Proposed);
  }

  lemma ReplacedThen(k: Cast)
    requires k.Differ()
    ensures After(k.At(Confirmed, None, Approved), Supersede(HERE, [k.c], k.r)) == k.At(Confirmed, Some(k.r), Approved)
  {
    var s := k.At(Confirmed, None, Approved);
    assert Replaceable(s, HERE, [k.c], k.r);
    AfterSupersedeOne(s, HERE, k.c, k.r);
    assert Link(s, k.c, k.r) == k.At(Confirmed, Some(k.r), Approved);
    NothingUses(Link(s, k.c, k.r), k.c);
  }

  lemma SourceReplacedThen(k: Cast)
    requires k.Differ()
    ensures
      var t := After(k.At(Confirmed, Some(k.r), Approved), Supersede(HERE, [k.a], k.r));
      k.c in t.items && t.items[k.c].supersededBy.Some? && t.items[k.c].lifecycle == Candidate
  {
    var s := k.At(Confirmed, Some(k.r), Approved);
    assert Replaceable(s, HERE, [k.a], k.r);
    SupersededBecomesCandidate(s, HERE, k.a, k.r, k.p);
  }

  function FirstFive(k: Cast): seq<Command> {
    k.Records() + [Propose(k.p, k.c, HERE, {k.a, k.b})] + [Approve(k.p, true)]
  }

  function RunOf(k: Cast): seq<Command> {
    FirstFive(k) + [Supersede(HERE, [k.c], k.r)] + [Supersede(HERE, [k.a], k.r)]
  }

  /** For any ids, a careful run from the empty store after which an item is superseded and a candidate. */
  lemma SupersededCandidateIsReached(k: Cast)
    requires k.Differ()
    ensures forall i | 0 <= i < |RunOf(k)| :: Careful(RunOf(k)[i])
    ensures
      var s := Execute(EMPTY, RunOf(k));
      k.c in s.items && s.items[k.c].supersededBy.Some? && s.items[k.c].lifecycle == Candidate
  {
    ReachedConsolidation(k);
    ReplacedThen(k);
    var five := FirstFive(k);
    OneMore(EMPTY, five, Supersede(HERE, [k.c], k.r));
    OneMore(EMPTY, five + [Supersede(HERE, [k.c], k.r)], Supersede(HERE, [k.a], k.r));
    SourceReplacedThen(k);
    CarefulRun(k);
  }

  lemma ReachedConsolidation(k: Cast)
    requires k.Differ()
    ensures Execute(EMPTY, FirstFive(k)) == k.At(Confirmed, None, Approved)
  {
    Recorded(k);
    OneMore(EMPTY, k.Records(), Propose(k.p, k.c, HERE, {k.a, k.b}));
    Proposed(k);
    OneMore(EMPTY, k.Records() + [Propose(k.p, k.c, HERE, {k.a, k.b})], Approve(k.p, true));
    ApprovedThen(k);
  }

  lemma CarefulRun(k: Cast)
    requires k.Differ()
    ensures forall i | 0 <= i < |RunOf(k)| :: Careful(RunOf(k)[i])
  {
  }

  function ReplacingRun(k: Cast): seq<Command> {
    FirstFive(k) + [Supersede(HERE, [k.a], k.c)]
  }

  lemma ReplacedByConsolidation(k: Cast)
    requires k.Differ()
    ensures
      var t := After(k.At(Confirmed, None, Approved), Supersede(HERE, [k.a], k.c));
      && k.a in t.items && t.items[k.a].supersededBy == Some(k.c)
      && k.c in t.items && t.items[k.c].lifecycle == Candidate
  {
    var s := k.At(Confirmed, None, Approved);
    assert Replaceable(s, HERE, [k.a], k.c);
    SupersedingASource(s, HERE, k.a, k.c, k.p);
  }

  /** For any ids, a run from the empty store after which an item's replacement is a candidate: its own consolidation. */
  lemma UnconfirmedReplacementIsReached(k: Cast)
    requires k.Differ()
    ensures
      var s := Execute(EMPTY, ReplacingRun(k));
      && k.a in s.items && s.items[k.a].supersededBy == Some(k.c)
      && k.c in s.items && s.items[k.c].lifecycle == Candidate
  {
    ReachedConsolidation(k);
    OneMore(EMPTY, FirstFive(k), Supersede(HERE, [k.a], k.c));
    ReplacedByConsolidation(k);
  }

  /** Two items and their records: `a` replaces the candidate `c`, which names `a`. */
  function CyclicRows(a: Id, c: Id): map<Id, Item> {
    map[a := Plain(Confirmed, []), c := Plain(Candidate, [a])]
  }

  function CyclicRecords(a: Id, c: Id): seq<LegacyRecord> {
    [LegacyRecord(a, a, [c], true), LegacyRecord(c, c, [a], false)]
  }

  /**
    An import can leave a superseded candidate that names the item which replaces it.  The
    imported store has no cycle, confirming the candidate is accepted, and then it has one.
  */
  lemma ImportCanPrepareACycle(a: Id, c: Id)
    requires a != c && !Blank(c)
    ensures
      var imported := After(EMPTY, Import(CyclicRows(a, c), CyclicRecords(a, c)));
      && Outcome(EMPTY, Import(CyclicRows(a, c), CyclicRecords(a, c))).Some? && AllEnd(imported.items)
      && Outcome(imported, Confirm(HERE, [c])).Some?
      && !AllEnd(After(imported, Confirm(HERE, [c])).items)
  {
    var s := Store(CyclicRows(a, c), map[]);
    assert EMPTY.items + CyclicRows(a, c) == CyclicRows(a, c);
    var t := Link(s, c, a);
    CyclicLinks(s, a, c);
    assert After(EMPTY, Import(CyclicRows(a, c), CyclicRecords(a, c))) == t;
    forall id
      ensures Ends(t.items, id)
    {
      assert EndsWithin(t.items, id, 1);
    }
    assert EndsWithin(t.items, c, 1) && Head(t.items, c, 1) == a;
    assert HasHead(t.items, c, a);
    ConfirmCanCloseACycle(t, HERE, c, a);
  }

  lemma CyclicLinks(s: Store, a: Id, c: Id)
    requires s.proposals == map[] && a != c
    ensures ImportLinks(s, CanonicalIDs(CyclicRecords(a, c)), CyclicRecords(a, c)) == Link(s, c, a)
  {
    var ra, rc := LegacyRecord(a, a, [c], true), LegacyRecord(c, c, [a], false);
    var records := CyclicRecords(a, c);
    assert records[..1] == [ra] && [ra][..0] == [] && records[1..] == [rc] && [rc][1..] == [];
    var ids := CanonicalIDs(records);
    assert CanonicalIDs([ra]) == map[a := a];
    assert ids == map[a := a, c := c];
    KnownOne(ids, c);
    SupersedeOne(s, c, a);
    NothingUses(Link(s, c, a), c);
    assert ImportLinks(Link(s, c, a), ids, [rc]) == Link(s, c, a);
  }

  lemma KnownOne(ids: map<string, Id>, c: Id)
    requires c in ids
    ensures Known(ids, [c]) == [ids[c]]
  {
    assert [c][1..] == [];
  }

  // ---------------------------------------------------------------- rejecting twice

  predicate Distinct(ids: seq<Id>) {
    forall i, j | 0 <= i < j < |ids| && !Blank(ids[i]) :: ids[i] != ids[j]
  }

  predicate AllCandidates(s: Store, ids: seq<Id>) {
    forall i | 0 <= i < |ids| && !Blank(ids[i]) ::
      ids[i] in s.items && s.items[ids[i]].source == Ordinary && s.items[ids[i]].lifecycle == Candidate
  }

  lemma {:induction false} RejectAllExactly(s: Store, ids: seq<Id>)
    ensures RejectAll(s, ids).Some? <==> AllCandidates(s, ids) && Distinct(ids)
    decreases |ids|
  {
    if ids != [] {
      var first, rest := ids[0], ids[1..];
      assert forall i | 0 < i < |ids| :: ids[i] == rest[i - 1];
      if Blank(first) {
        RejectAllExactly(s, rest);
      } else if AllCandidates(s, [first]) {
        assert [first][0] == first;
        RejectAllExactly(WithLifecycle(s, first, Rejected), rest);
      } else {
        assert !AllCandidates(s, ids);
      }
    }
  }

  lemma {:induction false} BindAllSucceeds(s: Store, ids: seq<Id>)
    requires AllCandidates(s, ids)
    ensures BindAll(s, ids).Some?
    decreases |ids|
  {
    if ids != [] {
      var first, rest := ids[0], ids[1..];
      var t := if Blank(first) then s else s.(items := s.items[first := s.items[first].(operatorRejection := true)]);
      assert forall i | 0 <= i < |rest| :: rest[i] == ids[i + 1];
      BindAllSucceeds(t, rest);
    }
  }

  /**
    `context reject` of candidates that pass its checks fails exactly when an id is given twice;
    the evidence of the rejection is bound to the candidates all the same.
  */
  lemma RejectExactly(s: Store, scope: Scope, ids: seq<Id>)
    requires Reviewable(s, scope, ids)
    ensures Outcome(s, Reject(scope, ids)).Some? <==> Distinct(ids)
    ensures !Distinct(ids) ==> BindAll(s, ids) == Some(After(s, Reject(scope, ids)))
    ensures forall id | id in ids && !Blank(id) ::
      var t := After(s, Reject(scope, ids));
      id in t.items && t.items[id].operatorRejection && (t.items[id].lifecycle == Rejected <==> Distinct(ids))
  {
    assert AllCandidates(s, ids);
    BindAllSucceeds(s, ids);
    var bound := BindAll(s, ids).value;
    BindAllChanges(s, ids);
    assert AllCandidates(bound, ids);
    RejectAllExactly(bound, ids);
    BoundEvidence(s, ids);
    if Distinct(ids) {
      RejectedLifecycle(bound, ids);
    }
    forall id | id in ids && !Blank(id)
      ensures bound.items[id].lifecycle == Candidate
    {
      assert AllCandidates(bound, ids);
    }
  }

  lemma {:induction false} BoundEvidence(s: Store, ids: seq<Id>)
    requires BindAll(s, ids).Some?
    ensures
      var t := BindAll(s, ids).value;
      && t.items.Keys == s.items.Keys
      && forall id | id in s.items :: t.items[id].operatorRejection
           == (s.items[id].operatorRejection || (id in ids && !Blank(id)))
    decreases |ids|
  {
    if ids != [] {
      BoundEvidence(if Blank(ids[0]) then s
                    else s.(items := s.items[ids[0] := s.items[ids[0]].(operatorRejection := true)]), ids[1..]);
    }
  }

  lemma {:induction false} RejectedLifecycle(s: Store, ids: seq<Id>)
    requires RejectAll(s, ids).Some?
    ensures
      var t := RejectAll(s, ids).value;
      && t.items.Keys == s.items.Keys
      && forall id | id in s.items ::
           && t.items[id].operatorRejection == s.items[id].operatorRejection
           && t.items[id].lifecycle == if id in ids && !Blank(id) then Rejected else s.items[id].lifecycle
    decreases |ids|
  {
    if ids != [] {
      RejectedLifecycle(if Blank(ids[0]) then s else WithLifecycle(s, ids[0], Rejected), ids[1..]);
    }
  }
}
