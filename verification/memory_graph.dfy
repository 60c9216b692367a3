/**
  When the memory commands leave the supersession graph without a cycle: exact conditions for
  every command, on the graph as it is before the command, and for whole runs from any store.
*/
module MemoryGraph {
  import opened Options
  import opened MemoryStore
  import opened MemoryCommands
  import opened MemoryLaws

  // ---------------------------------------------------------------- graphs alone

  /** The stores differ in nothing that supersession looks at. */
  ghost predicate SameGraph(s: map<Id, Item>, t: map<Id, Item>) {
    && s.Keys == t.Keys
    && forall id | id in s :: t[id].supersededBy == s[id].supersededBy && t[id].supersedes == s[id].supersedes
  }

  function Relink(items: map<Id, Item>, olds: seq<Id>, replacement: Id): map<Id, Item> {
    map id | id in items :: if id in olds then items[id].(supersededBy := Some(replacement)) else items[id]
  }

  lemma {:induction false} SameLinksEndsWithin(s: map<Id, Item>, t: map<Id, Item>, id: Id, n: nat)
    requires forall x :: Successor(t, x) == Successor(s, x)
    requires EndsWithin(s, id, n)
    ensures EndsWithin(t, id, n) && Head(t, id, n) == Head(s, id, n)
    decreases n
  {
    match Successor(s, id)
    case None =>
    case Some(next) => SameLinksEndsWithin(s, t, next, n - 1);
  }

  lemma SameLinksEnd(s: map<Id, Item>, t: map<Id, Item>)
    requires AllEnd(s) && forall x :: Successor(t, x) == Successor(s, x)
    ensures AllEnd(t)
  {
    forall id
      ensures Ends(t, id)
    {
      assert Ends(s, id);
      var n :| EndsWithin(s, id, n);
      SameLinksEndsWithin(s, t, id, n);
    }
  }

  /** The item's chain ends in an item that it does not name as superseded. */
  ghost predicate EndIsFree(items: map<Id, Item>, c: Id)
    requires c in items
  {
    exists head :: HasHead(items, c, head) && head !in items[c].supersedes
  }

  /** Confirmed one after the other, no candidate names the item its chain ends in by then. */
  ghost predicate EndsAreFree(items: map<Id, Item>, ids: seq<Id>)
    decreases |ids|
  {
    if ids == [] then true
    else if Blank(ids[0]) then EndsAreFree(items, ids[1..])
    else
      && ids[0] in items && EndIsFree(items, ids[0])
      && EndsAreFree(Relink(items, items[ids[0]].supersedes, ids[0]), ids[1..])
  }

  lemma SameGraphEndIsFree(s: map<Id, Item>, t: map<Id, Item>, c: Id)
    requires SameGraph(s, t) && c in s && EndIsFree(s, c)
    ensures EndIsFree(t, c)
  {
    var head :| HasHead(s, c, head) && head !in s[c].supersedes;
    var n :| EndsWithin(s, c, n) && Head(s, c, n) == head;
    SameLinksEndsWithin(s, t, c, n);
    assert HasHead(t, c, head);
  }

  lemma {:induction false} SameGraphEndsAreFree(s: map<Id, Item>, t: map<Id, Item>, ids: seq<Id>)
    requires SameGraph(s, t) && EndsAreFree(s, ids)
    ensures EndsAreFree(t, ids)
    decreases |ids|
  {
    if ids != [] {
      if Blank(ids[0]) {
        SameGraphEndsAreFree(s, t, ids[1..]);
      } else {
        var olds := s[ids[0]].supersedes;
        SameGraphEndIsFree(s, t, ids[0]);
        assert SameGraph(Relink(s, olds, ids[0]), Relink(t, olds, ids[0]));
        SameGraphEndsAreFree(Relink(s, olds, ids[0]), Relink(t, olds, ids[0]), ids[1..]);
      }
    }
  }

  // ---------------------------------------------------------------- cycles stay

  lemma {:induction false} EndedBefore(s: map<Id, Item>, t: map<Id, Item>, olds: set<Id>, replacement: Id, id: Id, n: nat)
    requires Relinked(s, t, olds, replacement) && EndsWithin(t, id, n)
    requires forall x | x in olds :: Successor(s, x) == None
    ensures EndsWithin(s, id, n)
    decreases n
  {
    if id !in olds {
      match Successor(t, id)
      case None =>
      case Some(next) => EndedBefore(s, t, olds, replacement, next, n - 1);
    }
  }

  /** Only items without a link are linked, so a cycle is never opened again. */
  lemma RelinkKeepsCycles(s: map<Id, Item>, t: map<Id, Item>, olds: set<Id>, replacement: Id)
    requires Relinked(s, t, olds, replacement) && AllEnd(t)
    requires forall x | x in olds :: Successor(s, x) == None
    ensures AllEnd(s)
  {
    forall id
      ensures Ends(s, id)
    {
      assert Ends(t, id);
      var n :| EndsWithin(t, id, n);
      EndedBefore(s, t, olds, replacement, id, n);
    }
  }

  lemma {:induction false} ConfirmAllKeepsCycles(s: Store, ids: seq<Id>, seen: Seen)
    requires ConfirmAll(s, ids, seen).Some? && AllEnd(ConfirmAll(s, ids, seen).value.items)
    ensures AllEnd(s.items)
    decreases |ids|
  {
    if ids != [] {
      if Blank(ids[0]) {
        ConfirmAllKeepsCycles(s, ids[1..], seen);
      } else {
        var next := ConfirmTx(s, ids[0], seen).value;
        ConfirmAllKeepsCycles(next.0, ids[1..], next.1);
        ConfirmRelinks(s, ids[0], seen);
        RelinkKeepsCycles(s.items, next.0.items, Ids(s.items[ids[0]].supersedes), ids[0]);
      }
    }
  }

  // ---------------------------------------------------------------- confirming several candidates

  lemma ConfirmGraph(s: Store, c: Id, seen: Seen)
    requires ConfirmTx(s, c, seen).Some?
    ensures SameGraph(ConfirmTx(s, c, seen).value.0.items, Relink(s.items, s.items[c].supersedes, c))
  {
    ConfirmRelinks(s, c, seen);
    var olds := s.items[c].supersedes;
    forall id
      ensures id in Ids(olds) <==> id in olds
    {
    }
  }

  lemma EndIsFreeExactly(s: Store, c: Id, seen: Seen)
    requires AllEnd(s.items) && ConfirmTx(s, c, seen).Some?
    ensures AllEnd(ConfirmTx(s, c, seen).value.0.items) <==> EndIsFree(s.items, c)
  {
    if EndIsFree(s.items, c) {
      var head :| HasHead(s.items, c, head) && head !in s.items[c].supersedes;
      ConfirmKeepsEnds(s, c, seen, head);
    } else {
      assert Ends(s.items, c);
      var n :| EndsWithin(s.items, c, n);
      assert HasHead(s.items, c, Head(s.items, c, n));
      ConfirmKeepsEnds(s, c, seen, Head(s.items, c, n));
    }
  }

  /** An accepted confirmation of any candidates closes a cycle exactly when one names its end. */
  lemma {:induction false} ConfirmAllKeepsEnds(s: Store, ids: seq<Id>, seen: Seen)
    requires AllEnd(s.items) && ConfirmAll(s, ids, seen).Some?
    ensures AllEnd(ConfirmAll(s, ids, seen).value.items) <==> EndsAreFree(s.items, ids)
    decreases |ids|
  {
    if ids != [] {
      if Blank(ids[0]) {
        ConfirmAllKeepsEnds(s, ids[1..], seen);
      } else {
        EndIsFreeExactly(s, ids[0], seen);
        ConfirmRest(s, ids, seen);
      }
    }
  }

  lemma ConfirmRest(s: Store, ids: seq<Id>, seen: Seen)
    requires AllEnd(s.items) && ids != [] && !Blank(ids[0]) && ConfirmAll(s, ids, seen).Some?
    ensures
      var next := ConfirmTx(s, ids[0], seen).value;
      if AllEnd(next.0.items) then
        (AllEnd(ConfirmAll(s, ids, seen).value.items)
         <==> EndsAreFree(Relink(s.items, s.items[ids[0]].supersedes, ids[0]), ids[1..]))
      else
        !AllEnd(ConfirmAll(s, ids, seen).value.items)
    decreases |ids|, 0
  {
    var next := ConfirmTx(s, ids[0], seen).value;
    var relinked := Relink(s.items, s.items[ids[0]].supersedes, ids[0]);
    ConfirmGraph(s, ids[0], seen);
    if AllEnd(next.0.items) {
      ConfirmAllKeepsEnds(next.0, ids[1..], next.1);
      if EndsAreFree(next.0.items, ids[1..]) {
        SameGraphEndsAreFree(next.0.items, relinked, ids[1..]);
      }
      if EndsAreFree(relinked, ids[1..]) {
        SameGraphEndsAreFree(relinked, next.0.items, ids[1..]);
      }
    } else if AllEnd(ConfirmAll(s, ids, seen).value.items) {
      ConfirmAllKeepsCycles(next.0, ids[1..], next.1);
    }
  }

  // ---------------------------------------------------------------- imports

  /** The replacement that the last live record to name `x` gives it. */
  function Named(ids: map<string, Id>, records: seq<LegacyRecord>, x: Id): Option<Id>
    decreases |records|
  {
    if records == [] then None
    else
      var r, later := records[0], Named(ids, records[1..], x);
      if later.Some? then later
      else if r.live && r.legacyID in ids && x in Known(ids, r.supersedes) then Some(ids[r.legacyID])
      else None
  }

  /** Where an import links `x` to. */
  function Linked(items: map<Id, Item>, ids: map<string, Id>, records: seq<LegacyRecord>, x: Id): Option<Id> {
    if x !in items then None
    else match Named(ids, records, x)
      case Some(replacement) => Some(replacement)
      case None => items[x].supersededBy
  }

  /** The link parts of items that supersession does not touch. */
  ghost predicate SameButLinks(s: Store, t: Store) {
    && t.items.Keys == s.items.Keys && t.proposals.Keys == s.proposals.Keys
    && forall id | id in s.items ::
         && t.items[id].identity == s.items[id].identity && t.items[id].source == s.items[id].source
         && t.items[id].supersedes == s.items[id].supersedes && DemotedAtMost(s.items[id], t.items[id])
         && t.items[id].operatorRejection == s.items[id].operatorRejection
  }

  lemma {:induction false} ImportLinksExactly(s: Store, ids: map<string, Id>, records: seq<LegacyRecord>)
    ensures SameButLinks(s, ImportLinks(s, ids, records))
    ensures forall x :: Successor(ImportLinks(s, ids, records).items, x) == Linked(s.items, ids, records, x)
    decreases |records|
  {
    if records != [] {
      var r := records[0];
      var next := s;
      if r.live && r.legacyID in ids {
        next := SupersedeAll(s, Known(ids, r.supersedes), ids[r.legacyID]);
        OneRecord(s, Known(ids, r.supersedes), ids[r.legacyID]);
      }
      ImportLinksExactly(next, ids, records[1..]);
    }
  }

  lemma OneRecord(s: Store, olds: seq<Id>, replacement: Id)
    ensures SameButLinks(s, SupersedeAll(s, olds, replacement))
    ensures forall x | x in s.items :: SupersedeAll(s, olds, replacement).items[x].supersededBy
              == if x in olds then Some(replacement) else s.items[x].supersededBy
  {
    SupersedeAllEvolves(s, olds, replacement);
    forall x | x in s.items
      ensures x in Ids(olds) * s.items.Keys <==> x in olds
    {
    }
  }

  /** The old links, with those of the legacy records put over them, lead to smaller and smaller ranks. */
  ghost predicate Ranked(items: map<Id, Item>, ids: map<string, Id>, records: seq<LegacyRecord>, rank: Id -> nat) {
    forall x | Linked(items, ids, records, x).Some? :: rank(Linked(items, ids, records, x).value) < rank(x)
  }

  /** The legacy relation has no cycle, nor one together with the links there are. */
  ghost predicate Acyclic(items: map<Id, Item>, ids: map<string, Id>, records: seq<LegacyRecord>) {
    exists rank: Id -> nat :: Ranked(items, ids, records, rank)
  }

  lemma {:induction false} RankedEndsWithin(items: map<Id, Item>, rank: Id -> nat, id: Id)
    requires forall x | Successor(items, x).Some? :: rank(Successor(items, x).value) < rank(x)
    ensures EndsWithin(items, id, rank(id))
    decreases rank(id)
  {
    match Successor(items, id)
    case None =>
    case Some(next) =>
      RankedEndsWithin(items, rank, next);
      MoreSteps(items, next, rank(next), rank(id) - 1);
  }

  /** How many links there are to the end of a chain. */
  ghost function Length(items: map<Id, Item>, id: Id, n: nat): (k: nat)
    requires EndsWithin(items, id, n)
    decreases n
  {
    match Successor(items, id)
    case None => 0
    case Some(next) => 1 + Length(items, next, n - 1)
  }

  lemma {:induction false} LengthIsUnique(items: map<Id, Item>, id: Id, n: nat, m: nat)
    requires EndsWithin(items, id, n) && EndsWithin(items, id, m)
    ensures Length(items, id, n) == Length(items, id, m)
    decreases n
  {
    match Successor(items, id)
    case None =>
    case Some(next) => LengthIsUnique(items, next, n - 1, m - 1);
  }

  ghost function LengthOf(items: map<Id, Item>, id: Id): (k: nat)
    requires Ends(items, id)
    ensures exists n: nat :: EndsWithin(items, id, n) && Length(items, id, n) == k
  {
    var n: nat :| EndsWithin(items, id, n);
    Length(items, id, n)
  }

  lemma LinkIsLonger(items: map<Id, Item>, id: Id, next: Id)
    requires Ends(items, id) && Ends(items, next) && Successor(items, id) == Some(next)
    ensures LengthOf(items, next) < LengthOf(items, id)
  {
    var n: nat :| EndsWithin(items, id, n) && Length(items, id, n) == LengthOf(items, id);
    var m: nat :| EndsWithin(items, next, m) && Length(items, next, m) == LengthOf(items, next);
    LengthIsUnique(items, next, n - 1, m);
  }

  /** Importing leaves no cycle exactly when the records, over the links there are, have none. */
  lemma ImportKeepsEnds(s: Store, ids: map<string, Id>, records: seq<LegacyRecord>)
    ensures AllEnd(ImportLinks(s, ids, records).items) <==> Acyclic(s.items, ids, records)
  {
    var t := ImportLinks(s, ids, records);
    ImportLinksExactly(s, ids, records);
    if Acyclic(s.items, ids, records) {
      var rank: Id -> nat :| Ranked(s.items, ids, records, rank);
      forall id
        ensures Ends(t.items, id)
      {
        RankedEndsWithin(t.items, rank, id);
      }
    }
    if AllEnd(t.items) {
      assert forall id :: Ends(t.items, id);
      var rank: Id -> nat := id => if Ends(t.items, id) then LengthOf(t.items, id) else 0;
      forall x | Linked(s.items, ids, records, x).Some?
        ensures rank(Linked(s.items, ids, records, x).value) < rank(x)
      {
        LinkIsLonger(t.items, x, Linked(s.items, ids, records, x).value);
      }
      assert Ranked(s.items, ids, records, rank);
    }
  }

  // ---------------------------------------------------------------- every command

  /** What a command must meet to close no cycle, on the store before it. */
  ghost predicate Harmless(s: Store, command: Command) {
    Outcome(s, command).Some? ==>
      match command
      case Supersede(_, olds, replacement) => replacement !in olds
      case Confirm(_, ids) => EndsAreFree(s.items, ids)
      case Approve(p, _) => EndIsFree(s.items, s.proposals[p].candidate)
      case Import(rows, records) => Acyclic(s.items + rows, CanonicalIDs(records), records)
      case _ => true
  }

  lemma {:induction false} RejectAllLinks(s: Store, ids: seq<Id>)
    requires RejectAll(s, ids).Some?
    ensures SameGraph(s.items, RejectAll(s, ids).value.items)
    decreases |ids|
  {
    if ids != [] {
      RejectAllLinks(if Blank(ids[0]) then s else WithLifecycle(s, ids[0], Rejected), ids[1..]);
    }
  }

  lemma {:induction false} BindAllLinks(s: Store, ids: seq<Id>)
    requires BindAll(s, ids).Some?
    ensures SameGraph(s.items, BindAll(s, ids).value.items)
    decreases |ids|
  {
    if ids != [] {
      BindAllLinks(if Blank(ids[0]) then s
                   else s.(items := s.items[ids[0] := s.items[ids[0]].(operatorRejection := true)]), ids[1..]);
    }
  }

  /** The commands that only add items without links, or change what supersession does not look at. */
  lemma OtherCommandsLinks(s: Store, command: Command)
    requires !command.Supersede? && !command.Confirm? && !command.Approve? && !command.Import?
    ensures forall x :: Successor(After(s, command).items, x) == Successor(s.items, x)
  {
    if command.Reject? {
      if Reviewable(s, command.scope, command.ids) && BindAll(s, command.ids).Some? {
        BindAllLinks(s, command.ids);
        if RejectAll(BindAll(s, command.ids).value, command.ids).Some? {
          RejectAllLinks(BindAll(s, command.ids).value, command.ids);
        }
      }
    }
  }

  /** From a store without cycles, a command leaves none exactly when it is harmless. */
  lemma CommandKeepsEnds(s: Store, command: Command)
    requires AllEnd(s.items)
    ensures AllEnd(After(s, command).items) <==> Harmless(s, command)
  {
    match command
    case Supersede(scope, olds, replacement) =>
      if Outcome(s, command).Some? {
        SupersedeKeepsEnds(s, scope, olds, replacement);
      }
    case Confirm(scope, ids) =>
      if Outcome(s, command).Some? {
        ConfirmAllKeepsEnds(s, ids, map[]);
      }
    case Approve(p, otherwiseFresh) =>
      if Outcome(s, command).Some? {
        EndIsFreeExactly(s, s.proposals[p].candidate, map[]);
      }
    case Import(rows, records) =>
      if Outcome(s, command).Some? {
        ImportKeepsEnds(s.(items := s.items + rows), CanonicalIDs(records), records);
      }
    case _ =>
      OtherCommandsLinks(s, command);
      SameLinksEnd(s.items, After(s, command).items);
  }

  /** A cycle, once there, stays whatever command follows, but for an import that links anew. */
  lemma CyclesStay(s: Store, command: Command)
    requires !command.Import? && AllEnd(After(s, command).items)
    ensures AllEnd(s.items)
  {
    match command
    case Supersede(scope, olds, replacement) =>
      if Outcome(s, command).Some? {
        SupersedeRelinks(s, scope, olds, replacement);
        RelinkKeepsCycles(s.items, After(s, command).items, Ids(olds), replacement);
      }
    case Confirm(scope, ids) =>
      if Outcome(s, command).Some? {
        ConfirmAllKeepsCycles(s, ids, map[]);
      }
    case Approve(p, otherwiseFresh) =>
      if Outcome(s, command).Some? {
        var c := s.proposals[p].candidate;
        ConfirmRelinks(s, c, map[]);
        RelinkKeepsCycles(s.items, After(s, command).items, Ids(s.items[c].supersedes), c);
      }
    case _ =>
      OtherCommandsLinks(s, command);
      SameLinksEnd(After(s, command).items, s.items);
  }

  // ---------------------------------------------------------------- runs

  ghost function Execute(s: Store, commands: seq<Command>): Store
    decreases |commands|
  {
    if commands == [] then s
    else After(Execute(s, commands[..|commands| - 1]), commands[|commands| - 1])
  }

  ghost predicate HarmlessAt(s: Store, commands: seq<Command>, k: nat)
    requires k < |commands|
  {
    Harmless(Execute(s, commands[..k]), commands[k])
  }

  /** Every command is harmless in the store it finds. */
  ghost predicate AllHarmless(s: Store, commands: seq<Command>) {
    forall k | 0 <= k < |commands| :: HarmlessAt(s, commands, k)
  }

  ghost predicate NeverACycle(s: Store, commands: seq<Command>) {
    forall k | 0 <= k <= |commands| :: AllEnd(Execute(s, commands[..k]).items)
  }

  lemma HarmlessBefore(s: Store, commands: seq<Command>)
    requires commands != []
    ensures
      var n, before := |commands| - 1, commands[..|commands| - 1];
      AllHarmless(s, commands) <==> AllHarmless(s, before) && Harmless(Execute(s, before), commands[n])
  {
    var n, before := |commands| - 1, commands[..|commands| - 1];
    forall k | 0 <= k < n
      ensures HarmlessAt(s, before, k) <==> HarmlessAt(s, commands, k)
    {
      assert before[..k] == commands[..k] && before[k] == commands[k];
    }
    assert HarmlessAt(s, commands, n) <==> Harmless(Execute(s, before), commands[n]);
  }

  lemma NeverBefore(s: Store, commands: seq<Command>)
    requires commands != []
    ensures
      var before := commands[..|commands| - 1];
      NeverACycle(s, commands) <==> NeverACycle(s, before) && AllEnd(Execute(s, commands).items)
  {
    var n, before := |commands| - 1, commands[..|commands| - 1];
    assert commands[..n + 1] == commands;
    forall k | 0 <= k <= n
      ensures before[..k] == commands[..k]
    {
    }
    if NeverACycle(s, commands) {
      assert AllEnd(Execute(s, commands[..n + 1]).items);
    }
  }

  /** From any store without cycles, a run never has one exactly when each command is harmless where it comes. */
  lemma {:induction false} RunKeepsEnds(s: Store, commands: seq<Command>)
    requires AllEnd(s.items)
    ensures NeverACycle(s, commands) <==> AllHarmless(s, commands)
    decreases |commands|
  {
    if commands != [] {
      var n := |commands| - 1;
      var before := commands[..n];
      RunKeepsEnds(s, before);
      HarmlessBefore(s, commands);
      NeverBefore(s, commands);
      if NeverACycle(s, before) {
        assert before[..n] == before;
        assert AllEnd(Execute(s, before[..n]).items);
        CommandKeepsEnds(Execute(s, before), commands[n]);
      }
    } else {
      assert commands[..0] == commands;
    }
  }

  /** Without imports the store at the end tells: it has no cycle exactly when the run never had one. */
  lemma {:induction false} EndOfRunTells(s: Store, commands: seq<Command>)
    requires forall i | 0 <= i < |commands| :: !commands[i].Import?
    requires AllEnd(s.items)
    ensures AllEnd(Execute(s, commands).items) <==> AllHarmless(s, commands)
    decreases |commands|
  {
    if commands != [] {
      var n := |commands| - 1;
      EndOfRunTells(s, commands[..n]);
      HarmlessBefore(s, commands);
      if AllEnd(Execute(s, commands).items) {
        CyclesStay(Execute(s, commands[..n]), commands[n]);
      }
      if AllEnd(Execute(s, commands[..n]).items) {
        CommandKeepsEnds(Execute(s, commands[..n]), commands[n]);
      }
    }
  }
}
