/**
  What the memory commands keep: supersession chains end, share one identity, and no
  approved consolidation rests on a source that is no longer current.
*/
module MemoryLaws {
  import opened Options
  import opened MemoryStore
  import opened MemoryCommands

  // ---------------------------------------------------------------- chains

  function Successor(items: map<Id, Item>, id: Id): Option<Id> {
    if id in items then items[id].supersededBy else None
  }

  /** Following the links from `id` stops within `n` steps. */
  predicate EndsWithin(items: map<Id, Item>, id: Id, n: nat)
    decreases n
  {
    match Successor(items, id)
    case None => true
    case Some(next) => n > 0 && EndsWithin(items, next, n - 1)
  }

  ghost predicate Ends(items: map<Id, Item>, id: Id) {
    exists n :: EndsWithin(items, id, n)
  }

  /** Every chain of links ends: the supersession graph has no cycle. */
  ghost predicate AllEnd(items: map<Id, Item>) {
    forall id :: Ends(items, id)
  }

  /** Where following the links from `id` stops. */
  function Head(items: map<Id, Item>, id: Id, n: nat): Id
    requires EndsWithin(items, id, n)
    decreases n
  {
    match Successor(items, id)
    case None => id
    case Some(next) => Head(items, next, n - 1)
  }

  ghost predicate HasHead(items: map<Id, Item>, id: Id, head: Id) {
    exists n :: EndsWithin(items, id, n) && Head(items, id, n) == head
  }

  lemma {:induction false} HeadHasNoSuccessor(items: map<Id, Item>, id: Id, n: nat)
    requires EndsWithin(items, id, n)
    ensures Successor(items, Head(items, id, n)) == None
    decreases n
  {
    match Successor(items, id)
    case None =>
    case Some(next) => HeadHasNoSuccessor(items, next, n - 1);
  }

  /** `t` has the items of `s`, with the links of `olds` turned to `replacement`. */
  ghost predicate Relinked(s: map<Id, Item>, t: map<Id, Item>, olds: set<Id>, replacement: Id) {
    && olds <= s.Keys
    && forall id :: Successor(t, id) == if id in olds then Some(replacement) else Successor(s, id)
  }

  lemma {:induction false} EndsAvoiding(s: map<Id, Item>, t: map<Id, Item>, olds: set<Id>, replacement: Id,
                                        id: Id, n: nat)
    requires Relinked(s, t, olds, replacement) && EndsWithin(s, id, n)
    requires forall x | x in olds :: Successor(s, x) == None
    requires Head(s, id, n) !in olds
    ensures EndsWithin(t, id, n)
    decreases n
  {
    match Successor(s, id)
    case None =>
    case Some(next) => EndsAvoiding(s, t, olds, replacement, next, n - 1);
  }

  lemma {:induction false} EndsThrough(s: map<Id, Item>, t: map<Id, Item>, olds: set<Id>, replacement: Id,
                                       id: Id, n: nat, m: nat)
    requires Relinked(s, t, olds, replacement) && EndsWithin(s, id, n) && EndsWithin(t, replacement, m)
    requires forall x | x in olds :: Successor(s, x) == None
    ensures EndsWithin(t, id, n + m + 1)
    decreases n
  {
    if id in olds {
      MoreSteps(t, replacement, m, n + m);
    } else {
      match Successor(s, id)
      case None =>
      case Some(next) => EndsThrough(s, t, olds, replacement, next, n - 1, m);
    }
  }

  lemma {:induction false} MoreSteps(items: map<Id, Item>, id: Id, n: nat, m: nat)
    requires EndsWithin(items, id, n) && n <= m
    ensures EndsWithin(items, id, m)
    decreases n
  {
    match Successor(items, id)
    case None =>
    case Some(next) => MoreSteps(items, next, n - 1, m - 1);
  }

  /** With its own head among the relinked items, the replacement's chain has become a cycle. */
  lemma {:induction false} NeverEnds(s: map<Id, Item>, t: map<Id, Item>, olds: set<Id>, replacement: Id,
                                     id: Id, n: nat, m: nat)
    requires Relinked(s, t, olds, replacement)
    requires EndsWithin(s, id, n) && Head(s, id, n) in olds && HasHead(s, replacement, Head(s, id, n))
    ensures !EndsWithin(t, id, m)
    decreases m
  {
    HeadHasNoSuccessor(s, id, n);
    if m > 0 {
      if id in olds {
        var h := Head(s, id, n);
        var k :| EndsWithin(s, replacement, k) && Head(s, replacement, k) == h;
        NeverEnds(s, t, olds, replacement, replacement, k, m - 1);
      } else {
        NeverEnds(s, t, olds, replacement, Successor(s, id).value, n - 1, m - 1);
      }
    }
  }

  /**
    Turning the links of current items to a replacement keeps every chain ending exactly
    when the replacement's own chain does not end in one of them.
  */
  lemma RelinkKeepsEnds(s: map<Id, Item>, t: map<Id, Item>, olds: set<Id>, replacement: Id, head: Id)
    requires AllEnd(s) && Relinked(s, t, olds, replacement) && HasHead(s, replacement, head)
    requires forall x | x in olds :: Successor(s, x) == None
    ensures AllEnd(t) <==> head !in olds
  {
    var k :| EndsWithin(s, replacement, k) && Head(s, replacement, k) == head;
    if head in olds {
      forall m ensures !EndsWithin(t, replacement, m) {
        NeverEnds(s, t, olds, replacement, replacement, k, m);
      }
      assert !Ends(t, replacement);
    } else {
      EndsAvoiding(s, t, olds, replacement, replacement, k);
      forall id
        ensures Ends(t, id)
      {
        assert Ends(s, id);
        var n :| EndsWithin(s, id, n);
        EndsThrough(s, t, olds, replacement, id, n, k);
      }
    }
  }

  // ---------------------------------------------------------------- effects of the transactions

  /** Lifecycles only change by demoting confirmed consolidated items. */
  predicate DemotedAtMost(before: Item, after: Item) {
    after.lifecycle == before.lifecycle
    || (before.source.FromProposal? && before.lifecycle == Confirmed && after.lifecycle == Candidate)
  }

  /** `t` comes from `s` by turning the links of `olds` to `replacement` and by demotions. */
  ghost predicate Evolves(s: Store, t: Store, olds: set<Id>, replacement: Id) {
    && t.items.Keys == s.items.Keys
    && t.proposals.Keys == s.proposals.Keys
    && forall id | id in s.items ::
         && t.items[id].identity == s.items[id].identity
         && t.items[id].source == s.items[id].source
         && t.items[id].supersedes == s.items[id].supersedes
         && t.items[id].operatorRejection == s.items[id].operatorRejection
         && t.items[id].supersededBy == (if id in olds then Some(replacement) else s.items[id].supersededBy)
         && DemotedAtMost(s.items[id], t.items[id])
  }

  lemma EvolvesChain(s: Store, t: Store, u: Store, xs: set<Id>, ys: set<Id>, replacement: Id)
    requires Evolves(s, t, xs, replacement) && Evolves(t, u, ys, replacement)
    ensures Evolves(s, u, xs + ys, replacement)
  {
  }

  lemma EvolvesRelinks(s: Store, t: Store, olds: set<Id>, replacement: Id)
    requires Evolves(s, t, olds, replacement) && olds <= s.items.Keys
    ensures Relinked(s.items, t.items, olds, replacement)
  {
  }

  /** An item is demoted only through an approved proposal that owns it and is affected. */
  lemma DemotedHasCause(s: Store, root: Id, c: Id) returns (p: Id)
    requires c in Demoted(s, root)
    ensures Demotable(s, p) && s.proposals[p].candidate == c && AffectedBy(s, p, Demoted(s, root) + {root})
  {
    var all := Demoted(s, root);
    var fewer := all - {c};
    DemotedIsClosed(s, root);
    if Closed(s, root, fewer) {
      DemotedIsLeast(s, root, fewer);
      assert false;
    }
    p :| Demotable(s, p) && AffectedBy(s, p, fewer + {root}) && s.proposals[p].candidate !in fewer;
    var x :| x in fewer + {root} && Uses(s, p, x);
    assert x in all + {root};
  }

  lemma DemoteEvolves(s: Store, root: Id, replacement: Id)
    ensures Evolves(s, Demote(s, root), {}, replacement)
  {
    forall c | c in Demoted(s, root)
      ensures s.items[c].source.FromProposal? && s.items[c].lifecycle == Confirmed
    {
      var p := DemotedHasCause(s, root, c);
    }
  }

  lemma LinkAloneEvolves(s: Store, prior: Id, replacement: Id)
    ensures Evolves(s, Link(s, prior, replacement), {prior} * s.items.Keys, replacement)
  {
  }

  lemma LinkEvolves(s: Store, prior: Id, replacement: Id)
    ensures Evolves(s, Demote(Link(s, prior, replacement), prior), {prior} * s.items.Keys, replacement)
  {
    var linked := Link(s, prior, replacement);
    LinkAloneEvolves(s, prior, replacement);
    DemoteEvolves(linked, prior, replacement);
    EvolvesChain(s, linked, Demote(linked, prior), {prior} * s.items.Keys, {}, replacement);
    assert {prior} * s.items.Keys + {} == {prior} * s.items.Keys;
  }

  ghost function Ids(ids: seq<Id>): set<Id> {
    set i | 0 <= i < |ids| :: ids[i]
  }

  lemma IdsSplit(ids: seq<Id>)
    requires ids != []
    ensures Ids(ids) == {ids[0]} + Ids(ids[1..])
  {
    forall id | id in Ids(ids)
      ensures id in {ids[0]} + Ids(ids[1..])
    {
      var i :| 0 <= i < |ids| && ids[i] == id;
      if i > 0 {
        assert ids[1..][i - 1] == id;
      }
    }
    forall id | id in Ids(ids[1..])
      ensures id in Ids(ids)
    {
      var i :| 0 <= i < |ids[1..]| && ids[1..][i] == id;
      assert ids[i + 1] == id;
    }
  }

  lemma {:induction false} SupersedeAllEvolves(s: Store, olds: seq<Id>, replacement: Id)
    ensures Evolves(s, SupersedeAll(s, olds, replacement), Ids(olds) * s.items.Keys, replacement)
    decreases |olds|
  {
    if olds != [] {
      var next := Demote(Link(s, olds[0], replacement), olds[0]);
      LinkEvolves(s, olds[0], replacement);
      SupersedeAllEvolves(next, olds[1..], replacement);
      EvolvesChain(s, next, SupersedeAll(s, olds, replacement),
                   {olds[0]} * s.items.Keys, Ids(olds[1..]) * s.items.Keys, replacement);
      IdsSplit(olds);
      assert {olds[0]} * s.items.Keys + Ids(olds[1..]) * s.items.Keys == Ids(olds) * s.items.Keys;
    }
  }

  /** Confirming links only items that were current before, and links all that are named. */
  lemma {:induction false} LinkOlderEvolves(s: Store, c: Id, olds: seq<Id>, seen: Seen)
    requires LinkOlder(s, c, olds, seen).Some?
    ensures Evolves(s, LinkOlder(s, c, olds, seen).value.0, Ids(olds), c)
    ensures forall x | x in Ids(olds) :: Current(s, x)
    decreases |olds|
  {
    if olds != [] {
      var next := Demote(Link(s, olds[0], c), olds[0]);
      LinkEvolves(s, olds[0], c);
      assert {olds[0]} * s.items.Keys == {olds[0]};
      LinkOlderEvolves(next, c, olds[1..], seen[olds[0] := c]);
      EvolvesChain(s, next, LinkOlder(s, c, olds, seen).value.0, {olds[0]}, Ids(olds[1..]), c);
      IdsSplit(olds);
      forall x | x in Ids(olds[1..])
        ensures Current(s, x)
      {
        assert Current(next, x);
      }
    }
  }

  // ---------------------------------------------------------------- when chains keep ending

  lemma CurrentIsOwnHead(s: Store, id: Id)
    requires Current(s, id)
    ensures HasHead(s.items, id, id)
  {
    assert EndsWithin(s.items, id, 0) && Head(s.items, id, 0) == id;
  }

  /**
    `context supersede` keeps every chain ending exactly when the replacement is not one
    of the items it replaces; the command itself does not check that.
  */
  lemma SupersedeKeepsEnds(s: Store, scope: Scope, olds: seq<Id>, replacement: Id)
    requires AllEnd(s.items) && Outcome(s, Supersede(scope, olds, replacement)).Some?
    ensures AllEnd(After(s, Supersede(scope, olds, replacement)).items) <==> replacement !in olds
  {
    SupersedeRelinks(s, scope, olds, replacement);
    CurrentIsOwnHead(s, replacement);
    RelinkKeepsEnds(s.items, SupersedeAll(s, olds, replacement).items, Ids(olds), replacement, replacement);
    assert replacement in Ids(olds) <==> replacement in olds;
  }

  lemma SupersedeRelinks(s: Store, scope: Scope, olds: seq<Id>, replacement: Id)
    requires Outcome(s, Supersede(scope, olds, replacement)).Some?
    ensures Relinked(s.items, SupersedeAll(s, olds, replacement).items, Ids(olds), replacement)
    ensures forall x | x in Ids(olds) :: Successor(s.items, x) == None
  {
    SupersedeAllEvolves(s, olds, replacement);
    assert Ids(olds) * s.items.Keys == Ids(olds);
    EvolvesRelinks(s, SupersedeAll(s, olds, replacement), Ids(olds), replacement);
  }

  /**
    Confirming a candidate keeps every chain ending exactly when the head of the
    candidate's own chain is not among the items it names as superseded.
  */
  lemma ConfirmKeepsEnds(s: Store, c: Id, seen: Seen, head: Id)
    requires AllEnd(s.items) && ConfirmTx(s, c, seen).Some? && HasHead(s.items, c, head)
    ensures AllEnd(ConfirmTx(s, c, seen).value.0.items) <==> head !in s.items[c].supersedes
  {
    var olds := s.items[c].supersedes;
    ConfirmRelinks(s, c, seen);
    RelinkKeepsEnds(s.items, ConfirmTx(s, c, seen).value.0.items, Ids(olds), c, head);
    assert head in Ids(olds) <==> head in olds;
  }

  lemma ConfirmRelinks(s: Store, c: Id, seen: Seen)
    requires ConfirmTx(s, c, seen).Some?
    ensures Evolves(WithLifecycle(s, c, Confirmed), ConfirmTx(s, c, seen).value.0, Ids(s.items[c].supersedes), c)
    ensures Relinked(s.items, ConfirmTx(s, c, seen).value.0.items, Ids(s.items[c].supersedes), c)
    ensures forall x | x in Ids(s.items[c].supersedes) :: Successor(s.items, x) == None
    ensures forall x | x in Ids(s.items[c].supersedes) :: Current(WithLifecycle(s, c, Confirmed), x)
  {
    var olds := s.items[c].supersedes;
    var confirmed := WithLifecycle(s, c, Confirmed);
    LinkOlderEvolves(confirmed, c, olds, seen);
    EvolvesRelinks(confirmed, ConfirmTx(s, c, seen).value.0, Ids(olds), c);
    forall x | x in Ids(olds)
      ensures Successor(s.items, x) == None
    {
      assert Current(confirmed, x);
    }
  }
}
