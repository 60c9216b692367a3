/**
  `context history` (cmd/hufu/contextcmd.go): it checks one item and then follows the
  superseded-by links through the items its query returned, with no cycle check.
*/
module MemoryHistory {
  import opened Options
  import opened MemoryStore
  import opened MemoryCommands
  import opened MemoryLaws
  import opened MemoryIdentity

  /** The caller may see a private item only with its agent, or with all agents asked for. */
  predicate MaySee(i: Identity, agent: string, allAgents: bool) {
    i.agent == "" || i.agent == agent || allAgents
  }

  /** The subtree query: a named team also admits items that have none. */
  predicate InSubtree(i: Identity, scope: Scope) {
    i.project == scope.project && (scope.team == "" || i.team == "" || i.team == scope.team)
  }

  /** The items of the scope, without those the query leaves out as outside their validity window. */
  function Queried(s: Store, scope: Scope, hidden: set<Id>): map<Id, Item> {
    map id | id in s.items && id !in hidden && InSubtree(s.items[id].identity, scope) :: s.items[id]
  }

  /** The query returns the items of the project and of the team, or of no team, as they are stored. */
  lemma QueriedExactly(s: Store, scope: Scope, hidden: set<Id>, id: Id)
    ensures id in Queried(s, scope, hidden)
       <==> (&& id in s.items && id !in hidden && s.items[id].identity.project == scope.project
             && (scope.team == "" || s.items[id].identity.team in {"", scope.team}))
    ensures id in Queried(s, scope, hidden) ==> Queried(s, scope, hidden)[id] == s.items[id]
  {
  }

  /** The walk from `next` through the queried items stops within `n` of them. */
  predicate WalkEnds(byID: map<Id, Item>, next: Option<Id>, n: nat)
    decreases n
  {
    next.Some? && next.value in byID ==> n > 0 && WalkEnds(byID, byID[next.value].supersededBy, n - 1)
  }

  ghost predicate WalkStops(byID: map<Id, Item>, next: Option<Id>) {
    exists n: nat :: WalkEnds(byID, next, n)
  }

  function Walk(byID: map<Id, Item>, next: Option<Id>, n: nat): seq<Id>
    requires WalkEnds(byID, next, n)
    decreases n
  {
    if next.Some? && next.value in byID
    then [next.value] + Walk(byID, byID[next.value].supersededBy, n - 1)
    else []
  }

  function History(s: Store, byID: map<Id, Item>, id: Id, n: nat): seq<Id>
    requires WalkEnds(byID, Successor(s.items, id), n)
  {
    [id] + Walk(byID, Successor(s.items, id), n)
  }

  predicate Visible(s: Store, scope: Scope, agent: string, allAgents: bool, id: Id) {
    id in s.items && scope.Admits(s.items[id].identity) && MaySee(s.items[id].identity, agent, allAgents)
  }

  /** The loop has no check of its own against cycles: it is called where the walk ends. */
  method RunContextHistory(s: Store, scope: Scope, agent: string, allAgents: bool, id: Id, hidden: set<Id>)
    returns (ok: bool, chain: seq<Id>)
    requires Visible(s, scope, agent, allAgents, id) ==>
      WalkStops(Queried(s, scope, hidden), Successor(s.items, id))
    ensures ok <==> Visible(s, scope, agent, allAgents, id)
    ensures ok <==> (&& id in s.items && s.items[id].identity.project == scope.project
                     && (scope.team == "" || s.items[id].identity.team == scope.team)
                     && (s.items[id].identity.agent in {"", agent} || allAgents))
    ensures !ok ==> chain == []
    ensures ok ==> exists n: nat ::
      var byID := Queried(s, scope, hidden);
      WalkEnds(byID, Successor(s.items, id), n) && chain == History(s, byID, id, n)
  {
    ok, chain := false, [];
    if id !in s.items || !scope.Admits(s.items[id].identity) || !MaySee(s.items[id].identity, agent, allAgents) {
      return;
    }
    ok := true;
    var byID := Queried(s, scope, hidden);
    chain := [id];
    var next := s.items[id].supersededBy;
    ghost var n: nat :| WalkEnds(byID, next, n);
    ghost var whole := History(s, byID, id, n);
    while next.Some? && next.value in byID
      invariant WalkEnds(byID, next, n) && whole == chain + Walk(byID, next, n)
      decreases n
    {
      var replacement := byID[next.value];
      assert Walk(byID, next, n) == [next.value] + Walk(byID, replacement.supersededBy, n - 1);
      chain := chain + [next.value];
      next := replacement.supersededBy;
      n := n - 1;
    }
  }

  // ---------------------------------------------------------------- when the walk ends

  /** The item `k` links after `start`, if there is one. */
  function Nth(items: map<Id, Item>, start: Option<Id>, k: nat): Option<Id>
    decreases k
  {
    if k == 0 || start == None then start else Nth(items, Successor(items, start.value), k - 1)
  }

  /** After `k` links the chain has ended, or has left the queried items. */
  predicate StopsAt(items: map<Id, Item>, byID: map<Id, Item>, start: Option<Id>, k: nat) {
    var x := Nth(items, start, k);
    x == None || x.value !in byID
  }

  ghost predicate ChainStops(items: map<Id, Item>, byID: map<Id, Item>, start: Option<Id>) {
    exists k: nat :: StopsAt(items, byID, start, k)
  }

  lemma {:induction false} StopWithin(items: map<Id, Item>, byID: map<Id, Item>, start: Option<Id>, n: nat) returns (k: nat)
    requires WalkEnds(byID, start, n) && forall x | x in byID :: Successor(items, x) == byID[x].supersededBy
    ensures StopsAt(items, byID, start, k)
    decreases n
  {
    if start.Some? && start.value in byID {
      k := StopWithin(items, byID, byID[start.value].supersededBy, n - 1);
      k := k + 1;
    } else {
      k := 0;
    }
  }

  lemma {:induction false} EndsAtStop(items: map<Id, Item>, byID: map<Id, Item>, start: Option<Id>, k: nat)
    requires StopsAt(items, byID, start, k) && forall x | x in byID :: Successor(items, x) == byID[x].supersededBy
    ensures WalkEnds(byID, start, k)
    decreases k
  {
    if start.Some? && start.value in byID {
      EndsAtStop(items, byID, byID[start.value].supersededBy, k - 1);
    }
  }

  lemma {:induction false} SameWalk(byID: map<Id, Item>, next: Option<Id>, n: nat, m: nat)
    requires WalkEnds(byID, next, n) && WalkEnds(byID, next, m)
    ensures Walk(byID, next, n) == Walk(byID, next, m)
    decreases n
  {
    if next.Some? && next.value in byID {
      SameWalk(byID, byID[next.value].supersededBy, n - 1, m - 1);
    }
  }

  /** What follows the walk's entry `i` is the walk from that entry. */
  lemma {:induction false} WalkFrom(byID: map<Id, Item>, next: Option<Id>, n: nat, i: nat)
    requires WalkEnds(byID, next, n) && i < |Walk(byID, next, n)|
    ensures
      var x := Walk(byID, next, n)[i];
      i <= n && WalkEnds(byID, Some(x), n - i) && Walk(byID, Some(x), n - i) == Walk(byID, next, n)[i..]
    ensures Walk(byID, next, n)[i] in byID
    decreases i
  {
    if i > 0 {
      WalkFrom(byID, byID[next.value].supersededBy, n - 1, i - 1);
    }
  }

  lemma WalkDiffers(byID: map<Id, Item>, next: Option<Id>, n: nat, i: nat, j: nat)
    requires WalkEnds(byID, next, n) && i < j < |Walk(byID, next, n)|
    ensures Walk(byID, next, n)[i] != Walk(byID, next, n)[j]
  {
    var walk := Walk(byID, next, n);
    WalkFrom(byID, next, n, i);
    WalkFrom(byID, next, n, j);
    assert |walk[i..]| != |walk[j..]|;
    if walk[i] == walk[j] {
      SameWalk(byID, Some(walk[i]), n - i, n - j);
    }
  }

  lemma {:induction false} WalkEndsInLength(byID: map<Id, Item>, next: Option<Id>, n: nat, m: nat)
    requires WalkEnds(byID, next, n) && |Walk(byID, next, n)| <= m
    ensures WalkEnds(byID, next, m)
    decreases n
  {
    if next.Some? && next.value in byID {
      WalkEndsInLength(byID, byID[next.value].supersededBy, n - 1, m - 1);
    }
  }

  /** A walk that ends does so within as many entries as there are items. */
  lemma WalkIsBounded(byID: map<Id, Item>, next: Option<Id>)
    ensures WalkStops(byID, next) <==> WalkEnds(byID, next, |byID|)
  {
    if WalkStops(byID, next) {
      var n: nat :| WalkEnds(byID, next, n);
      var walk := Walk(byID, next, n);
      forall i | 0 <= i < |walk|
        ensures walk[i] in byID.Keys
      {
        WalkFrom(byID, next, n, i);
      }
      forall i, j | 0 <= i < j < |walk|
        ensures walk[i] != walk[j]
      {
        WalkDiffers(byID, next, n, i, j);
      }
      DistinctFitIn(walk, byID.Keys);
      WalkEndsInLength(byID, next, n, |byID|);
    }
  }

  /**
    The walk ends exactly when it does so within as many entries as the query returned, which is
    when the item's chain ends or leaves what the query returned.
  */
  lemma WalkEndsExactly(s: Store, scope: Scope, hidden: set<Id>, id: Id)
    ensures
      var byID, start := Queried(s, scope, hidden), Successor(s.items, id);
      && (WalkStops(byID, start) <==> WalkEnds(byID, start, |byID|))
      && (WalkStops(byID, start) <==> ChainStops(s.items, byID, start))
  {
    WalkIsBounded(Queried(s, scope, hidden), Successor(s.items, id));
    var byID, start := Queried(s, scope, hidden), Successor(s.items, id);
    if WalkStops(byID, start) {
      var n: nat :| WalkEnds(byID, start, n);
      var k := StopWithin(s.items, byID, start, n);
      assert StopsAt(s.items, byID, start, k);
    }
    if ChainStops(s.items, byID, start) {
      var k: nat :| StopsAt(s.items, byID, start, k);
      EndsAtStop(s.items, byID, start, k);
      assert WalkEnds(byID, start, k);
    }
  }

  /** A chain that ends makes every walk along it end, whatever the query returned. */
  lemma {:induction false} EndingChain(s: Store, scope: Scope, hidden: set<Id>, id: Id, n: nat)
    requires EndsWithin(s.items, id, n)
    ensures WalkEnds(Queried(s, scope, hidden), Successor(s.items, id), n)
    decreases n
  {
    match Successor(s.items, id)
    case None =>
    case Some(next) => EndingChain(s, scope, hidden, next, n - 1);
  }

  /** After an item has replaced itself, the walk from it does not end. */
  lemma {:induction false} SelfReplacedNeverEnds(byID: map<Id, Item>, id: Id, n: nat)
    requires id in byID && byID[id].supersededBy == Some(id)
    ensures !WalkEnds(byID, Some(id), n)
  {
    if n > 0 {
      SelfReplacedNeverEnds(byID, id, n - 1);
    }
  }

  /** `context supersede a --with a` followed by `context history a` does not end. */
  lemma HistoryAfterSelfReplacement(s: Store, scope: Scope, id: Id, n: nat)
    requires Current(s, id) && scope.Admits(s.items[id].identity)
    ensures
      var t := After(s, Supersede(scope, [id], id));
      !WalkEnds(Queried(t, scope, {}), Successor(t.items, id), n)
  {
    var t := After(s, Supersede(scope, [id], id));
    assert Outcome(s, Supersede(scope, [id], id)).Some?;
    SupersedeAllEvolves(s, [id], id);
    assert [id][0] == id;
    assert id in Ids([id]);
    SelfReplacedNeverEnds(Queried(t, scope, {}), id, n);
  }

  // ---------------------------------------------------------------- what the history shows

  /** Each item of a complete chain is there, shares the first item's identity, and has its head. */
  lemma {:induction false} ChainIsComplete(s: Store, scope: Scope, id: Id, n: nat)
    requires OneIdentity(s) && id in s.items && InSubtree(s.items[id].identity, scope)
    requires EndsWithin(s.items, id, n)
    ensures WalkEnds(Queried(s, scope, {}), Successor(s.items, id), n)
    ensures
      var chain := History(s, Queried(s, scope, {}), id, n);
      && chain[0] == id && chain[|chain| - 1] == Head(s.items, id, n)
      && (forall i | 0 < i < |chain| :: Successor(s.items, chain[i - 1]) == Some(chain[i]))
      && (forall i | 0 <= i < |chain| ::
            chain[i] in s.items && s.items[chain[i]].identity == s.items[id].identity)
    decreases n
  {
    EndingChain(s, scope, {}, id, n);
    match Successor(s.items, id)
    case None =>
    case Some(next) =>
      ChainIsComplete(s, scope, next, n - 1);
      var rest := History(s, Queried(s, scope, {}), next, n - 1);
      var chain := [id] + rest;
      assert chain == History(s, Queried(s, scope, {}), id, n);
      assert forall i | 0 < i < |chain| :: chain[i] == rest[i - 1];
  }

  /** Items of one chain are pairwise different: a repeated one would make the chain endless. */
  lemma {:induction false} LaterLinksEndSooner(items: map<Id, Item>, chain: seq<Id>, i: nat, j: nat, n: nat)
    requires forall k | 0 < k < |chain| :: Successor(items, chain[k - 1]) == Some(chain[k])
    requires i <= j < |chain| && EndsWithin(items, chain[i], n)
    ensures j - i <= n && EndsWithin(items, chain[j], n - (j - i))
    decreases j
  {
    if i < j {
      LaterLinksEndSooner(items, chain, i, j - 1, n);
      assert Successor(items, chain[j - 1]) == Some(chain[j]);
    }
  }

  lemma {:induction false} NoRepeats(items: map<Id, Item>, chain: seq<Id>, i: nat, j: nat, n: nat)
    requires forall k | 0 < k < |chain| :: Successor(items, chain[k - 1]) == Some(chain[k])
    requires i < j < |chain| && EndsWithin(items, chain[i], n)
    ensures chain[i] != chain[j]
    decreases n
  {
    LaterLinksEndSooner(items, chain, i, j, n);
    if chain[i] == chain[j] {
      NoRepeats(items, chain, i, j, n - (j - i));
    }
  }

  lemma {:induction false} DistinctFitIn(ids: seq<Id>, pool: set<Id>)
    requires forall i | 0 <= i < |ids| :: ids[i] in pool
    requires forall i, j | 0 <= i < j < |ids| :: ids[i] != ids[j]
    ensures |ids| <= |pool|
    decreases |ids|
  {
    if ids != [] {
      var last := ids[|ids| - 1];
      DistinctFitIn(ids[..|ids| - 1], pool - {last});
    }
  }

  /**
    Where linked items share their identity, the history of an item whose chain ends is its
    whole chain, oldest first; it is no longer than the store, and the one agent check on the
    first item holds for all of them.
  */
  lemma HistoryIsWhole(s: Store, scope: Scope, agent: string, allAgents: bool, id: Id, n: nat)
    requires OneIdentity(s) && Visible(s, scope, agent, allAgents, id) && EndsWithin(s.items, id, n)
    ensures WalkEnds(Queried(s, scope, {}), Successor(s.items, id), n)
    ensures
      var chain := History(s, Queried(s, scope, {}), id, n);
      && 1 <= |chain| <= |s.items|
      && Successor(s.items, chain[|chain| - 1]) == None
      && (forall i | 0 < i < |chain| :: Successor(s.items, chain[i - 1]) == Some(chain[i]))
      && (forall i | 0 <= i < |chain| :: chain[i] in s.items && (allAgents || s.items[chain[i]].identity.agent in {"", agent}))
      && (forall i | 0 <= i < |chain| :: HasHead(s.items, chain[i], chain[|chain| - 1]))
  {
    EndingChain(s, scope, {}, id, n);
    var chain := History(s, Queried(s, scope, {}), id, n);
    ChainIsComplete(s, scope, id, n);
    HeadHasNoSuccessor(s.items, id, n);
    forall i | 0 <= i < |chain|
      ensures HasHead(s.items, chain[i], chain[|chain| - 1])
    {
      HeadAlongChain(s.items, chain, i, n);
    }
    forall i, j | 0 <= i < j < |chain|
      ensures chain[i] != chain[j]
    {
      LaterLinksEndSooner(s.items, chain, 0, i, n);
      NoRepeats(s.items, chain, i, j, n - i);
    }
    DistinctFitIn(chain, s.items.Keys);
  }

  lemma {:induction false} HeadAlongChain(items: map<Id, Item>, chain: seq<Id>, i: nat, n: nat)
    requires forall k | 0 < k < |chain| :: Successor(items, chain[k - 1]) == Some(chain[k])
    requires i < |chain| && EndsWithin(items, chain[0], n) && Head(items, chain[0], n) == chain[|chain| - 1]
    ensures i <= n && EndsWithin(items, chain[i], n - i) && Head(items, chain[i], n - i) == chain[|chain| - 1]
    ensures HasHead(items, chain[i], chain[|chain| - 1])
    decreases i
  {
    if i == 0 {
      assert EndsWithin(items, chain[i], n - i);
    } else {
      HeadAlongChain(items, chain, i - 1, n);
      assert Successor(items, chain[i - 1]) == Some(chain[i]);
    }
  }
}
