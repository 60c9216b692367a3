/**
  Which consolidations rest on an item, through any number of consolidations in between, and so
  stop being confirmed when it is superseded.
*/
module MemoryRests {
  import opened Options
  import opened MemoryStore
  import opened MemoryCommands
  import opened MemoryLaws

  /** Approved consolidations lead from `c` down to its source `x` in at most `n` steps. */
  ghost predicate RestsWithin(s: Store, c: Id, x: Id, n: nat)
    decreases n
  {
    n > 0 && exists p :: RestsThrough(s, c, x, n, p)
  }

  ghost predicate RestsThrough(s: Store, c: Id, x: Id, n: nat, p: Id)
    requires n > 0
    decreases n, 0
  {
    && p in s.proposals && s.proposals[p].status == Approved && s.proposals[p].candidate == c
    && c in s.items && s.items[c].source == FromProposal(p) && s.items[c].lifecycle == Confirmed
    && (IsSource(s, p, x) || exists y :: IsSource(s, p, y) && RestsWithin(s, y, x, n - 1))
  }

  /** An existing item of the proposal's project is among its sources. */
  predicate IsSource(s: Store, p: Id, x: Id)
    requires p in s.proposals
  {
    x in s.proposals[p].sources && x in s.items && s.items[x].identity.project == s.proposals[p].project
  }

  /** `c` is an approved consolidation of `x`, or of a consolidation that rests on `x`. */
  ghost predicate RestsOn(s: Store, c: Id, x: Id) {
    exists n: nat :: RestsWithin(s, c, x, n)
  }

  lemma RestsDirectly(s: Store, c: Id, x: Id, p: Id)
    requires Demotable(s, p) && s.proposals[p].candidate == c && Uses(s, p, x)
    ensures RestsOn(s, c, x)
  {
    assert RestsThrough(s, c, x, 1, p);
    assert RestsWithin(s, c, x, 1);
  }

  lemma RestsFurther(s: Store, c: Id, y: Id, x: Id, p: Id)
    requires Demotable(s, p) && s.proposals[p].candidate == c && Uses(s, p, y) && RestsOn(s, y, x)
    ensures RestsOn(s, c, x)
  {
    var n: nat :| RestsWithin(s, y, x, n);
    assert IsSource(s, p, y);
    assert RestsThrough(s, c, x, n + 1, p);
    assert RestsWithin(s, c, x, n + 1);
  }

  // ---------------------------------------------------------------- what is demoted

  lemma {:induction false} RestsIsDemoted(s: Store, c: Id, x: Id, n: nat)
    requires RestsWithin(s, c, x, n)
    ensures c in Demoted(s, x)
    decreases n
  {
    var p :| RestsThrough(s, c, x, n, p);
    DemotedIsClosed(s, x);
    if Uses(s, p, x) {
      assert x in Demoted(s, x) + {x};
    } else {
      var y :| IsSource(s, p, y) && RestsWithin(s, y, x, n - 1);
      assert Uses(s, p, y);
      RestsIsDemoted(s, y, x, n - 1);
      assert y in Demoted(s, x) + {x};
    }
  }

  ghost function Resting(s: Store, x: Id): set<Id> {
    set c | c in s.items && RestsOn(s, c, x)
  }

  lemma RestingIsClosed(s: Store, x: Id)
    ensures Closed(s, x, Resting(s, x))
  {
    forall p | Demotable(s, p) && AffectedBy(s, p, Resting(s, x) + {x})
      ensures s.proposals[p].candidate in Resting(s, x)
    {
      var y :| y in Resting(s, x) + {x} && Uses(s, p, y);
      if y == x {
        RestsDirectly(s, s.proposals[p].candidate, x, p);
      } else {
        RestsFurther(s, s.proposals[p].candidate, y, x, p);
      }
    }
  }

  /** The items that stop being knowledge with `x` are those that rest on it. */
  lemma DemotedIsResting(s: Store, x: Id, c: Id)
    ensures c in Demoted(s, x) <==> RestsOn(s, c, x)
  {
    if c in Demoted(s, x) {
      RestingIsClosed(s, x);
      DemotedIsLeast(s, x, Resting(s, x));
    }
    if RestsOn(s, c, x) {
      var n: nat :| RestsWithin(s, c, x, n);
      RestsIsDemoted(s, c, x, n);
    }
  }

  // ---------------------------------------------------------------- what the cascade does to proposals

  /** An item that was among `olds`, or that is no longer what it was, is a source of a proposal not yet decided against. */
  ghost predicate LosesSource(s: Store, t: Store, olds: seq<Id>, p: Id)
    requires p in s.proposals && t.items.Keys == s.items.Keys
  {
    && (s.proposals[p].status == Proposed || s.proposals[p].status == Approved)
    && exists x ::
         && x in s.proposals[p].sources && x in s.items
         && s.items[x].identity.project == s.proposals[p].project
         && (x in olds || t.items[x].lifecycle != s.items[x].lifecycle)
  }

  /** The stores differ as a cascade makes them: lost proposals are stale, and items at most demoted. */
  ghost predicate Cascaded(s: Store, t: Store, olds: seq<Id>) {
    && t.items.Keys == s.items.Keys && t.proposals.Keys == s.proposals.Keys
    && (forall p | p in s.proposals ::
          t.proposals[p] == if LosesSource(s, t, olds, p) then s.proposals[p].(status := Stale) else s.proposals[p])
    && forall id | id in s.items ::
         && t.items[id].identity == s.items[id].identity && t.items[id].source == s.items[id].source
         && DemotedAtMost(s.items[id], t.items[id])
  }

  /**
    The cascade makes a proposal stale exactly when it was proposed or approved and an existing item
    of its project among its sources is the root or was demoted; it changes no other proposal.
  */
  lemma CascadeExactly(s: Store, root: Id)
    ensures Cascaded(s, Demote(s, root), [root])
    ensures forall id | id in s.items ::
      Demote(s, root).items[id] == if RestsOn(s, id, root) then s.items[id].(lifecycle := Candidate) else s.items[id]
  {
    var t, all := Demote(s, root), Demoted(s, root);
    DemoteEvolves(s, root, root);
    forall id | id in s.items
      ensures id in all <==> RestsOn(s, id, root)
      ensures id in all <==> t.items[id].lifecycle != s.items[id].lifecycle
    {
      DemotedIsResting(s, root, id);
      if id in all {
        var p := DemotedHasCause(s, root, id);
      }
    }
    forall p | p in s.proposals
      ensures AffectedBy(s, p, all + {root}) <==> LosesSource(s, t, [root], p)
    {
      AffectedLosesSource(s, root, p);
    }
  }

  lemma AffectedLosesSource(s: Store, root: Id, p: Id)
    requires p in s.proposals && Demote(s, root).items.Keys == s.items.Keys
    requires forall id | id in s.items ::
      id in Demoted(s, root) <==> Demote(s, root).items[id].lifecycle != s.items[id].lifecycle
    ensures AffectedBy(s, p, Demoted(s, root) + {root}) <==> LosesSource(s, Demote(s, root), [root], p)
  {
    var all := Demoted(s, root) + {root};
    if AffectedBy(s, p, all) {
      var x :| x in all && Uses(s, p, x);
      assert x in [root] <==> x == root;
    }
    if LosesSource(s, Demote(s, root), [root], p) {
      var x :| x in s.proposals[p].sources && x in s.items && s.items[x].identity.project == s.proposals[p].project
        && (x in [root] || Demote(s, root).items[x].lifecycle != s.items[x].lifecycle);
      assert Uses(s, p, x) && x in all;
    }
  }

  lemma SameLoses(s: Store, linked: Store, t: Store, olds: seq<Id>, p: Id)
    requires p in s.proposals && linked.proposals == s.proposals && linked.items.Keys == s.items.Keys == t.items.Keys
    requires forall x | x in s.items ::
      linked.items[x].lifecycle == s.items[x].lifecycle && linked.items[x].identity == s.items[x].identity
    ensures LosesSource(s, t, olds, p) <==> LosesSource(linked, t, olds, p)
  {
  }

  lemma LinkCascades(s: Store, prior: Id, replacement: Id)
    ensures Cascaded(s, Demote(Link(s, prior, replacement), prior), [prior])
  {
    var linked := Link(s, prior, replacement);
    LinkAloneEvolves(s, prior, replacement);
    CascadeExactly(linked, prior);
    CascadedFrom(s, linked, Demote(linked, prior), [prior]);
  }

  lemma CascadedFrom(s: Store, linked: Store, t: Store, olds: seq<Id>)
    requires Cascaded(linked, t, olds) && linked.proposals == s.proposals && linked.items.Keys == s.items.Keys
    requires forall x | x in s.items ::
      && linked.items[x].lifecycle == s.items[x].lifecycle && linked.items[x].identity == s.items[x].identity
      && linked.items[x].source == s.items[x].source
    ensures Cascaded(s, t, olds)
  {
    forall p | p in s.proposals
      ensures LosesSource(s, t, olds, p) <==> LosesSource(linked, t, olds, p)
    {
      SameLoses(s, linked, t, olds, p);
    }
  }

  lemma CascadesChain(s: Store, t: Store, u: Store, first: Id, rest: seq<Id>)
    requires Cascaded(s, t, [first]) && Cascaded(t, u, rest)
    ensures Cascaded(s, u, [first] + rest)
  {
    forall p | p in s.proposals
      ensures LosesSource(s, u, [first] + rest, p) <==> LosesSource(s, t, [first], p) || LosesSource(t, u, rest, p)
    {
      LosesSourceChain(s, t, u, first, rest, p);
    }
  }

  lemma LosesSourceChain(s: Store, t: Store, u: Store, first: Id, rest: seq<Id>, p: Id)
    requires Cascaded(s, t, [first]) && Cascaded(t, u, rest) && p in s.proposals
    ensures LosesSource(s, u, [first] + rest, p) <==> LosesSource(s, t, [first], p) || LosesSource(t, u, rest, p)
  {
    assert forall x :: x in [first] + rest <==> x == first || x in rest;
    if LosesSource(s, t, [first], p) {
      var x :| x in s.proposals[p].sources && x in s.items && s.items[x].identity.project == s.proposals[p].project
        && (x in [first] || t.items[x].lifecycle != s.items[x].lifecycle);
      assert x in [first] + rest || u.items[x].lifecycle != s.items[x].lifecycle;
    } else if LosesSource(t, u, rest, p) {
      var x :| x in t.proposals[p].sources && x in t.items && t.items[x].identity.project == t.proposals[p].project
        && (x in rest || u.items[x].lifecycle != t.items[x].lifecycle);
      assert x in [first] + rest || u.items[x].lifecycle != s.items[x].lifecycle;
    }
    if LosesSource(s, u, [first] + rest, p) && !LosesSource(s, t, [first], p) {
      var x :| x in s.proposals[p].sources && x in s.items && s.items[x].identity.project == s.proposals[p].project
        && (x in [first] + rest || u.items[x].lifecycle != s.items[x].lifecycle);
      assert x !in [first] && t.items[x].lifecycle == s.items[x].lifecycle;
    }
  }

  /**
    Superseding any items makes a proposal stale exactly when it was proposed or approved and an
    existing item of its project among its sources was superseded or demoted.
  */
  lemma {:induction false} ProposalsAfterSupersede(s: Store, olds: seq<Id>, replacement: Id)
    ensures Cascaded(s, SupersedeAll(s, olds, replacement), olds)
    decreases |olds|
  {
    if olds != [] {
      var next := Demote(Link(s, olds[0], replacement), olds[0]);
      LinkCascades(s, olds[0], replacement);
      ProposalsAfterSupersede(next, olds[1..], replacement);
      CascadesChain(s, next, SupersedeAll(s, olds, replacement), olds[0], olds[1..]);
      assert [olds[0]] + olds[1..] == olds;
    }
  }

  // ---------------------------------------------------------------- superseding one item

  /** `t` has no approved consolidation that `s` does not have. */
  ghost predicate FewerRest(s: Store, t: Store) {
    && (forall p | Demotable(t, p) :: Demotable(s, p) && t.proposals[p].candidate == s.proposals[p].candidate)
    && forall p, y | Uses(t, p, y) :: Uses(s, p, y)
  }

  lemma {:induction false} RestsInMore(s: Store, t: Store, c: Id, x: Id, n: nat)
    requires FewerRest(s, t) && RestsWithin(t, c, x, n)
    ensures RestsWithin(s, c, x, n)
    decreases n
  {
    var p :| RestsThrough(t, c, x, n, p);
    if !Uses(t, p, x) {
      var y :| IsSource(t, p, y) && RestsWithin(t, y, x, n - 1);
      assert Uses(t, p, y);
      RestsInMore(s, t, y, x, n - 1);
      assert Uses(s, p, y) && IsSource(s, p, y);
    }
    assert RestsThrough(s, c, x, n, p);
  }

  lemma LinkRests(s: Store, prior: Id, replacement: Id)
    ensures FewerRest(s, Link(s, prior, replacement)) && FewerRest(Link(s, prior, replacement), s)
  {
  }

  lemma DemoteRests(s: Store, root: Id)
    ensures FewerRest(s, Demote(s, root))
  {
  }

  /** An approved consolidation that is not demoted keeps its approval and its uses. */
  lemma NotAffected(s: Store, root: Id, p: Id)
    requires Demotable(s, p) && s.proposals[p].candidate !in Demoted(s, root)
    ensures Demotable(Demote(s, root), p)
    ensures Demote(s, root).proposals[p] == s.proposals[p]
    ensures forall y :: Uses(s, p, y) ==> Uses(Demote(s, root), p, y) && y !in Demoted(s, root)
  {
    DemotedIsClosed(s, root);
    assert !AffectedBy(s, p, Demoted(s, root) + {root});
    forall y | Uses(s, p, y)
      ensures y !in Demoted(s, root)
    {
      assert y in Demoted(s, root) ==> y in Demoted(s, root) + {root};
    }
  }

  /** What is not demoted rests on other items as before. */
  lemma {:induction false} RestsAfterDemote(s: Store, root: Id, c: Id, x: Id, n: nat)
    requires c !in Demoted(s, root) && RestsWithin(s, c, x, n)
    ensures RestsWithin(Demote(s, root), c, x, n)
    decreases n
  {
    var p :| RestsThrough(s, c, x, n, p);
    NotAffected(s, root, p);
    if !Uses(s, p, x) {
      var y :| IsSource(s, p, y) && RestsWithin(s, y, x, n - 1);
      assert Uses(s, p, y);
      RestsAfterDemote(s, root, y, x, n - 1);
      assert Uses(Demote(s, root), p, y) && IsSource(Demote(s, root), p, y);
    }
    assert RestsThrough(Demote(s, root), c, x, n, p);
  }

  lemma SameRest(s: Store, t: Store, c: Id, x: Id)
    requires FewerRest(s, t) && FewerRest(t, s)
    ensures RestsOn(s, c, x) <==> RestsOn(t, c, x)
  {
    if RestsOn(s, c, x) {
      var n: nat :| RestsWithin(s, c, x, n);
      RestsInMore(t, s, c, x, n);
    }
    if RestsOn(t, c, x) {
      var n: nat :| RestsWithin(t, c, x, n);
      RestsInMore(s, t, c, x, n);
    }
  }

  /** Superseding one item demotes what rests on it, and what else rests on anything rests on it as before. */
  lemma OneSuperseded(s: Store, prior: Id, replacement: Id, c: Id)
    requires c in s.items && s.items[c].lifecycle == Confirmed
    ensures
      var t := Demote(Link(s, prior, replacement), prior);
      && c in t.items
      && (t.items[c].lifecycle == Confirmed <==> !RestsOn(s, c, prior))
      && (!RestsOn(s, c, prior) ==> forall x :: RestsOn(t, c, x) <==> RestsOn(s, c, x))
  {
    var linked := Link(s, prior, replacement);
    LinkRests(s, prior, replacement);
    SameRest(s, linked, c, prior);
    DemotedIsResting(linked, prior, c);
    if !RestsOn(s, c, prior) {
      forall x
        ensures RestsOn(Demote(linked, prior), c, x) <==> RestsOn(s, c, x)
      {
        SameRest(s, linked, c, x);
        RestsSameAfter(linked, prior, c, x);
      }
    }
  }

  lemma RestsSameAfter(s: Store, root: Id, c: Id, x: Id)
    requires c !in Demoted(s, root)
    ensures RestsOn(Demote(s, root), c, x) <==> RestsOn(s, c, x)
  {
    if RestsOn(s, c, x) {
      var n: nat :| RestsWithin(s, c, x, n);
      RestsAfterDemote(s, root, c, x, n);
    }
    if RestsOn(Demote(s, root), c, x) {
      var n: nat :| RestsWithin(Demote(s, root), c, x, n);
      DemoteRests(s, root);
      RestsInMore(s, Demote(s, root), c, x, n);
    }
  }

  // ---------------------------------------------------------------- superseding any items

  /** After any items were superseded, what was confirmed still is exactly when it rested on none of them. */
  lemma {:induction false} ConfirmedAfterSupersede(s: Store, olds: seq<Id>, replacement: Id, c: Id)
    requires c in s.items && s.items[c].lifecycle == Confirmed
    ensures
      var t := SupersedeAll(s, olds, replacement);
      c in t.items && (t.items[c].lifecycle == Confirmed <==> forall x | x in olds :: !RestsOn(s, c, x))
    decreases |olds|
  {
    if olds != [] {
      var first, rest := olds[0], olds[1..];
      var next := Demote(Link(s, first, replacement), first);
      assert forall x :: x in olds <==> x == first || x in rest;
      OneSuperseded(s, first, replacement, c);
      if RestsOn(s, c, first) {
        SupersedeAllEvolves(next, rest, replacement);
      } else {
        ConfirmedAfterSupersede(next, rest, replacement, c);
      }
    }
  }

  /**
    After an accepted `context supersede` the replacement is still confirmed exactly when it rests
    on none of the items it replaces; the command does not look at that.
  */
  lemma ReplacementStaysConfirmed(s: Store, scope: Scope, olds: seq<Id>, replacement: Id)
    requires Outcome(s, Supersede(scope, olds, replacement)).Some?
    ensures
      var t := After(s, Supersede(scope, olds, replacement));
      && replacement in t.items
      && (t.items[replacement].lifecycle == Confirmed <==> forall x | x in olds :: !RestsOn(s, replacement, x))
  {
    assert [replacement][0] == replacement;
    ConfirmedAfterSupersede(s, olds, replacement, replacement);
  }
}
