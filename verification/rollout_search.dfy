/**
  The capped search of codex-session-export.py: breadth first from one session through
  the session ids its rollout file mentions, until nothing is left or the cap is reached.

  `refs` gives the ids mentioned in the rollout of a session; ids without a rollout in
  `index` are unresolved.  The ids of one file come in an arbitrary order.
*/
module RolloutSearch {

  type Id = string

  const MAX_CHILD_ROLLOUTS := 100

  /** A chain of mentions, each but the first one resolved. */
  ghost predicate IsPath(index: set<Id>, refs: Id -> set<Id>, path: seq<Id>) {
    && path != []
    && forall i | 0 < i < |path| :: path[i] in refs(path[i - 1]) && path[i] in index
  }

  ghost predicate Reaches(index: set<Id>, refs: Id -> set<Id>, from: Id, to: Id) {
    exists path: seq<Id> :: IsPath(index, refs, path) && path[0] == from && path[|path| - 1] == to
  }

  /** The rollouts reachable from the parent, itself included. */
  ghost function Reachable(index: set<Id>, refs: Id -> set<Id>, parent: Id): set<Id> {
    set id | id in index && Reaches(index, refs, parent, id)
  }

  /** The ids that reachable rollouts mention and that have no rollout. */
  ghost function Unresolved(index: set<Id>, refs: Id -> set<Id>, parent: Id): iset<Id> {
    iset ref | ref !in index && exists id :: id in Reachable(index, refs, parent) && ref in refs(id)
  }

  lemma ParentIsReachable(index: set<Id>, refs: Id -> set<Id>, parent: Id)
    requires parent in index
    ensures parent in Reachable(index, refs, parent)
  {
    assert IsPath(index, refs, [parent]);
    assert [parent][0] == parent && [parent][|[parent]| - 1] == parent;
  }

  lemma MentionedIsReachable(index: set<Id>, refs: Id -> set<Id>, parent: Id, id: Id, ref: Id)
    requires id in Reachable(index, refs, parent) && ref in refs(id) && ref in index
    ensures ref in Reachable(index, refs, parent)
  {
    var path: seq<Id> :| IsPath(index, refs, path) && path[0] == parent && path[|path| - 1] == id;
    var longer := path + [ref];
    assert IsPath(index, refs, longer);
    assert longer[0] == parent && longer[|longer| - 1] == ref;
  }

  ghost predicate ClosedUnder(index: set<Id>, refs: Id -> set<Id>, ids: set<Id>) {
    forall id, ref | id in ids && ref in refs(id) && ref in index :: ref in ids
  }

  lemma {:induction false} PathStaysInside(index: set<Id>, refs: Id -> set<Id>, ids: set<Id>, path: seq<Id>, n: nat)
    requires ClosedUnder(index, refs, ids) && IsPath(index, refs, path) && path[0] in ids && n < |path|
    ensures path[n] in ids
  {
    if n > 0 {
      PathStaysInside(index, refs, ids, path, n - 1);
    }
  }

  lemma ClosedHoldsReachable(index: set<Id>, refs: Id -> set<Id>, parent: Id, ids: set<Id>)
    requires parent in ids && ClosedUnder(index, refs, ids)
    ensures Reachable(index, refs, parent) <= ids
  {
    forall id | id in Reachable(index, refs, parent)
      ensures id in ids
    {
      var path: seq<Id> :| IsPath(index, refs, path) && path[0] == parent && path[|path| - 1] == id;
      PathStaysInside(index, refs, ids, path, |path| - 1);
    }
  }

  /** Everything a scanned rollout mentions is found or unresolved. */
  ghost predicate Scanned(refs: Id -> set<Id>, ids: set<Id>, found: set<Id>, unresolved: set<Id>) {
    forall id, ref | id in ids && ref in refs(id) :: ref in found || ref in unresolved
  }

  /** Every unresolved id has no rollout and is mentioned by one of the scanned rollouts. */
  ghost predicate Mentioned(index: set<Id>, refs: Id -> set<Id>, ids: set<Id>, unresolved: set<Id>) {
    forall ref | ref in unresolved :: ref !in index && exists id :: id in ids && ref in refs(id)
  }

  lemma AllScanned(index: set<Id>, refs: Id -> set<Id>, parent: Id, found: set<Id>, unresolved: set<Id>)
    requires parent in found && found <= Reachable(index, refs, parent)
    requires Scanned(refs, found, found, unresolved) && Mentioned(index, refs, found, unresolved)
    ensures found == Reachable(index, refs, parent)
    ensures (iset ref | ref in unresolved) == Unresolved(index, refs, parent)
  {
    assert ClosedUnder(index, refs, found);
    ClosedHoldsReachable(index, refs, parent, found);
  }

  // ---------------------------------------------------------------- distance

  /** The rollouts at most `d` mentions away from the parent. */
  ghost function Ball(index: set<Id>, refs: Id -> set<Id>, parent: Id, d: nat): set<Id> {
    if d == 0 then {parent}
    else
      var nearer := Ball(index, refs, parent, d - 1);
      nearer + set id | id in index && exists x :: x in nearer && id in refs(x)
  }

  lemma {:induction false} BallHoldsPaths(index: set<Id>, refs: Id -> set<Id>, parent: Id, path: seq<Id>, d: nat)
    requires IsPath(index, refs, path) && path[0] == parent && |path| <= d + 1
    ensures path[|path| - 1] in Ball(index, refs, parent, d)
    decreases d
  {
    var n := |path| - 1;
    if d > 0 {
      if n == 0 {
        BallHoldsPaths(index, refs, parent, path, d - 1);
      } else {
        BallHoldsPaths(index, refs, parent, path[..n], d - 1);
        assert path[n] in refs(path[n - 1]) && path[n] in index;
      }
    }
  }

  lemma {:induction false} BallHasPath(index: set<Id>, refs: Id -> set<Id>, parent: Id, id: Id, d: nat) returns (path: seq<Id>)
    requires id in Ball(index, refs, parent, d)
    ensures IsPath(index, refs, path) && path[0] == parent && path[|path| - 1] == id && |path| <= d + 1
    decreases d
  {
    if d == 0 {
      path := [parent];
    } else if id in Ball(index, refs, parent, d - 1) {
      path := BallHasPath(index, refs, parent, id, d - 1);
    } else {
      var x :| x in Ball(index, refs, parent, d - 1) && id in refs(x);
      var front := BallHasPath(index, refs, parent, x, d - 1);
      path := front + [id];
    }
  }

  /** Everything up to some distance was found, and nothing more than one mention farther. */
  ghost predicate NearestFirst(index: set<Id>, refs: Id -> set<Id>, parent: Id, found: set<Id>) {
    exists d: nat :: Ball(index, refs, parent, d) <= found <= Ball(index, refs, parent, d + 1)
  }

  /** What was found is no farther away than what was left out. */
  lemma FoundIsNoFarther(index: set<Id>, refs: Id -> set<Id>, parent: Id, found: set<Id>, near: Id, far: seq<Id>)
    returns (path: seq<Id>)
    requires NearestFirst(index, refs, parent, found) && near in found
    requires IsPath(index, refs, far) && far[0] == parent && far[|far| - 1] !in found
    ensures IsPath(index, refs, path) && path[0] == parent && path[|path| - 1] == near && |path| <= |far|
  {
    var d: nat :| Ball(index, refs, parent, d) <= found <= Ball(index, refs, parent, d + 1);
    if |far| <= d + 1 {
      BallHoldsPaths(index, refs, parent, far, d);
    }
    path := BallHasPath(index, refs, parent, near, d + 1);
  }

  /** The search is at distance `d`: the first `k` queued rollouts are that near, and all that near are queued or scanned. */
  ghost predicate Layer(index: set<Id>, refs: Id -> set<Id>, parent: Id, found: set<Id>, queue: seq<Id>,
                        scanned: set<Id>, d: nat, k: nat) {
    && Ball(index, refs, parent, d) <= found <= Ball(index, refs, parent, d + 1)
    && scanned <= Ball(index, refs, parent, d) && k <= |queue|
    && (forall i | 0 <= i < k :: queue[i] in Ball(index, refs, parent, d))
    && forall id | id in Ball(index, refs, parent, d) :: id in scanned || id in queue[..k]
  }

  /** With one distance scanned the search is at the next. */
  lemma NextLayer(index: set<Id>, refs: Id -> set<Id>, parent: Id, found: set<Id>, queue: seq<Id>,
                  scanned: set<Id>, unresolved: set<Id>, d: nat)
    requires Layer(index, refs, parent, found, queue, scanned, d, 0) && Frontier(found, queue, scanned)
    requires Scanned(refs, scanned, found, unresolved) && forall ref | ref in unresolved :: ref !in index
    ensures Layer(index, refs, parent, found, queue, scanned, d + 1, |queue|)
  {
    var ball, next := Ball(index, refs, parent, d), Ball(index, refs, parent, d + 1);
    assert queue[..0] == [] && queue[..|queue|] == queue;
    forall id | id in next
      ensures id in found
    {
      if id !in ball {
        var x :| x in ball && id in refs(x);
        assert x in scanned;
      }
    }
    assert next <= Ball(index, refs, parent, d + 2);
  }

  /** Scanning the first queued rollout of a distance leaves the rest of that distance. */
  lemma LayerStep(index: set<Id>, refs: Id -> set<Id>, parent: Id, found: set<Id>, queue: seq<Id>, scanned: set<Id>,
                  d: nat, k: nat, grown: set<Id>, longer: seq<Id>)
    requires Layer(index, refs, parent, found, queue, scanned, d, k) && k > 0
    requires found <= grown <= Ball(index, refs, parent, d + 1) && queue[1..] <= longer
    ensures Layer(index, refs, parent, grown, longer, scanned + {queue[0]}, d, k - 1)
  {
    forall i | 0 <= i < k - 1
      ensures longer[i] == queue[i + 1]
    {
      assert queue[1..][i] == longer[i];
    }
    forall id | id in queue[..k]
      ensures id == queue[0] || id in longer[..k - 1]
    {
      var i :| 0 <= i < k && queue[i] == id;
      if i > 0 {
        assert longer[..k - 1][i - 1] == id;
      }
    }
  }

  // ---------------------------------------------------------------- the search

  /** The queue holds each found rollout that was not taken from it yet, once. */
  ghost predicate Frontier(found: set<Id>, queue: seq<Id>, scanned: set<Id>) {
    && scanned <= found
    && (forall id | id in found :: id in scanned || id in queue)
    && (forall i | 0 <= i < |queue| :: queue[i] in found && queue[i] !in scanned)
    && forall i, j | 0 <= i < j < |queue| :: queue[i] != queue[j]
  }

  /** The inner loop: goes through the mentions of one rollout until the cap is reached. */
  method ScanRollout(index: set<Id>, refs: Id -> set<Id>, ghost parent: Id, sid: Id,
                     found0: set<Id>, queue0: seq<Id>, unresolved0: set<Id>, ghost scanned: set<Id>, ghost d: nat)
    returns (found: set<Id>, queue: seq<Id>, unresolved: set<Id>)
    requires sid in found0 && sid !in scanned && found0 <= Reachable(index, refs, parent) && |found0| < MAX_CHILD_ROLLOUTS
    requires Frontier(found0, queue0, scanned + {sid})
    requires Mentioned(index, refs, scanned, unresolved0) && Scanned(refs, scanned, found0, unresolved0)
    requires sid in Ball(index, refs, parent, d) && found0 <= Ball(index, refs, parent, d + 1)
    ensures found <= Ball(index, refs, parent, d + 1) && queue0 <= queue
    ensures found0 <= found <= Reachable(index, refs, parent) && |found| <= MAX_CHILD_ROLLOUTS
    ensures Frontier(found, queue, scanned + {sid})
    ensures Mentioned(index, refs, scanned + {sid}, unresolved)
    ensures |found| < MAX_CHILD_ROLLOUTS ==> Scanned(refs, scanned + {sid}, found, unresolved)
  {
    found, queue, unresolved := found0, queue0, unresolved0;
    var todo := refs(sid);
    while todo != {}
      invariant todo <= refs(sid)
      invariant found0 <= found <= Reachable(index, refs, parent) && |found| < MAX_CHILD_ROLLOUTS
      invariant found <= Ball(index, refs, parent, d + 1) && queue0 <= queue
      invariant Frontier(found, queue, scanned + {sid})
      invariant unresolved0 <= unresolved && Mentioned(index, refs, scanned + {sid}, unresolved)
      invariant forall ref | ref in refs(sid) - todo :: ref in found || ref in unresolved
    {
      var ref :| ref in todo;
      todo := todo - {ref};
      if ref in found {
        continue;
      }
      if ref in index {
        MentionedIsReachable(index, refs, parent, sid, ref);
        FrontierGrows(found, queue, scanned + {sid}, ref);
        found := found + {ref};
        queue := queue + [ref];
        if |found| >= MAX_CHILD_ROLLOUTS {
          break;
        }
      } else {
        unresolved := unresolved + {ref};
      }
    }
  }

  lemma FrontierGrows(found: set<Id>, queue: seq<Id>, scanned: set<Id>, ref: Id)
    requires Frontier(found, queue, scanned) && ref !in found
    ensures Frontier(found + {ref}, queue + [ref], scanned)
  {
    var longer := queue + [ref];
    assert longer[|queue|] == ref;
    forall id | id in queue
      ensures id in longer
    {
      var i :| 0 <= i < |queue| && queue[i] == id;
      assert longer[i] == id;
    }
  }

  /**
    Finds nothing without a rollout for the parent.  Otherwise it finds only reachable
    rollouts, as many as there are up to the cap, nearest ones first; and below the cap both
    results are the sets defined on the reference graph, whatever order the ids come in.
  */
  method DiscoverRollouts(index: set<Id>, refs: Id -> set<Id>, parent: Id)
    returns (found: set<Id>, unresolved: set<Id>)
    ensures parent !in index ==> found == {} && unresolved == {}
    ensures parent in index ==> parent in found && found <= Reachable(index, refs, parent)
    ensures
      var all := Reachable(index, refs, parent);
      parent in index ==> |found| == if |all| < 100 then |all| else 100
    ensures parent in index ==> NearestFirst(index, refs, parent, found)
    ensures parent in index && |Reachable(index, refs, parent)| < 100 ==>
              found == Reachable(index, refs, parent)
              && (iset ref | ref in unresolved) == Unresolved(index, refs, parent)
    ensures (iset ref | ref in unresolved) <= Unresolved(index, refs, parent)
  {
    found, unresolved := {}, {};
    if parent !in index {
      return;
    }
    found := {parent};
    var queue := [parent];
    ghost var scanned: set<Id> := {};
    ghost var d: nat, k: nat := 0, 1;
    ParentIsReachable(index, refs, parent);
    while queue != [] && |found| < MAX_CHILD_ROLLOUTS
      invariant parent in found && found <= Reachable(index, refs, parent) && |found| <= MAX_CHILD_ROLLOUTS
      invariant Frontier(found, queue, scanned)
      invariant Mentioned(index, refs, scanned, unresolved)
      invariant |found| < MAX_CHILD_ROLLOUTS ==> Scanned(refs, scanned, found, unresolved)
      invariant Layer(index, refs, parent, found, queue, scanned, d, k)
      decreases index - scanned
    {
      if k == 0 {
        NextLayer(index, refs, parent, found, queue, scanned, unresolved, d);
        d, k := d + 1, |queue|;
      }
      ghost var found0, queue0 := found, queue;
      var sid := queue[0];
      queue := queue[1..];
      found, queue, unresolved := ScanRollout(index, refs, parent, sid, found, queue, unresolved, scanned, d);
      LayerStep(index, refs, parent, found0, queue0, scanned, d, k, found, queue);
      scanned, k := scanned + {sid}, k - 1;
    }
    SearchEnds(index, refs, parent, found, queue, scanned, unresolved);
  }

  lemma SearchEnds(index: set<Id>, refs: Id -> set<Id>, parent: Id, found: set<Id>, queue: seq<Id>, scanned: set<Id>,
                   unresolved: set<Id>)
    requires queue == [] || |found| >= MAX_CHILD_ROLLOUTS
    requires parent in found && found <= Reachable(index, refs, parent) && |found| <= MAX_CHILD_ROLLOUTS
    requires Frontier(found, queue, scanned) && Mentioned(index, refs, scanned, unresolved)
    requires |found| < MAX_CHILD_ROLLOUTS ==> Scanned(refs, scanned, found, unresolved)
    ensures
      var all := Reachable(index, refs, parent);
      && |found| == (if |all| < 100 then |all| else 100)
      && (|all| < 100 ==> found == all && (iset ref | ref in unresolved) == Unresolved(index, refs, parent))
      && (iset ref | ref in unresolved) <= Unresolved(index, refs, parent)
  {
    if |found| < MAX_CHILD_ROLLOUTS {
      assert found == scanned;
      AllScanned(index, refs, parent, found, unresolved);
    } else {
      SubsetSize(found, Reachable(index, refs, parent));
    }
  }

  lemma {:induction false} SubsetSize<T>(a: set<T>, b: set<T>)
    requires a <= b
    ensures |a| <= |b|
    ensures |a| == |b| ==> a == b
  {
    if a != {} {
      var x :| x in a;
      SubsetSize(a - {x}, b - {x});
      assert a == a - {x} + {x} && b == b - {x} + {x};
    }
  }
}
