/**
  Clustering of memories for consolidation (cmd/hufu/context_consolidation_cmd.go): items
  are grouped under a textual key as they are iterated, and the groups of two and more come
  out sorted.
*/
module ConsolidationClusters {
  import opened NulText
  import opened Ordering

  datatype Item = Item(
    id: string, project: string, team: string, agent: string, kind: string, signature: string,
    confirmed: bool, superseded: bool)

  predicate Eligible(x: Item) {
    x.confirmed && !x.superseded
  }

  /** The fields that go into texts contain no NUL; a signature may, it comes last. */
  predicate Clean(x: Item) {
    NulFree(x.id) && NulFree(x.project) && NulFree(x.team) && NulFree(x.agent) && NulFree(x.kind)
  }

  function KeyOf(x: Item): string {
    x.project + [NUL] + x.team + [NUL] + x.agent + [NUL] + x.kind + [NUL] + x.signature
  }

  lemma {:induction false} SameHead(a: string, b: string, s: string, t: string)
    requires NulFree(a) && NulFree(b) && a + [NUL] + s == b + [NUL] + t
    ensures a == b && s == t
  {
    var u, v := a + [NUL] + s, b + [NUL] + t;
    if a == [] || b == [] {
      assert u[0] == v[0];
      assert a == [] ==> u[0] == NUL;
      assert b == [] ==> v[0] == NUL;
      assert u[1..] == v[1..] && (a == [] ==> u[1..] == s) && (b == [] ==> v[1..] == t);
    } else {
      assert u[0] == a[0] && v[0] == b[0];
      assert u[1..] == a[1..] + [NUL] + s && v[1..] == b[1..] + [NUL] + t;
      SameHead(a[1..], b[1..], s, t);
      assert a == [a[0]] + a[1..] && b == [b[0]] + b[1..];
    }
  }

  /** The key tells exactly the items apart that do not belong together. */
  lemma KeyIsExact(x: Item, y: Item)
    requires Clean(x) && Clean(y)
    ensures KeyOf(x) == KeyOf(y)
       <==> (x.project, x.team, x.agent, x.kind, x.signature) == (y.project, y.team, y.agent, y.kind, y.signature)
  {
    if KeyOf(x) == KeyOf(y) {
      var x4, y4 := x.kind + [NUL] + x.signature, y.kind + [NUL] + y.signature;
      var x3, y3 := x.agent + [NUL] + x4, y.agent + [NUL] + y4;
      var x2, y2 := x.team + [NUL] + x3, y.team + [NUL] + y3;
      assert KeyOf(x) == x.project + [NUL] + x2 && KeyOf(y) == y.project + [NUL] + y2;
      SameHead(x.project, y.project, x2, y2);
      SameHead(x.team, y.team, x3, y3);
      SameHead(x.agent, y.agent, x4, y4);
      SameHead(x.kind, y.kind, x.signature, y.signature);
    }
  }

  // ---------------------------------------------------------------- what the clusters are

  function Itself(s: string): string { s }

  /** The ids of the confirmed and not superseded items of the project, team, agent, kind and signature of `x`. */
  ghost function ClassOf(items: set<Item>, x: Item): set<string> {
    set y | && y in items && y.confirmed && !y.superseded
            && y.project == x.project && y.team == x.team && y.agent == x.agent && y.kind == x.kind
            && y.signature == x.signature
      :: y.id
  }

  ghost predicate IsCluster(items: set<Item>, c: seq<string>) {
    && (forall i, j | 0 <= i < j < |c| :: Less(c[i], c[j])) && |c| >= 2
    && exists x :: x in items && x.confirmed && !x.superseded && forall id :: id in c <==> id in ClassOf(items, x)
  }

  /** The ascending list of all classes of two and more, each an ascending list of ids. */
  ghost predicate IsClusterList(items: set<Item>, clusters: seq<seq<string>>) {
    && Ascending(clusters, Join)
    && forall c :: c in clusters <==> IsCluster(items, c)
  }

  /** There is one such list: neither the order of items nor that of groups shows in it. */
  lemma ClusterListIsUnique(items: set<Item>, a: seq<seq<string>>, b: seq<seq<string>>)
    requires IsClusterList(items, a) && IsClusterList(items, b)
    ensures a == b
  {
    AscendingIsUnique(a, b, Join);
  }

  // ---------------------------------------------------------------- the groups

  ghost function IdsUnder(items: set<Item>, key: string): set<string> {
    set y | y in items && Eligible(y) && KeyOf(y) == key :: y.id
  }

  ghost predicate CleanAndDistinct(items: set<Item>) {
    && (forall x | x in items :: Clean(x))
    && forall x, y | x in items && y in items && x.id == y.id :: x == y
  }

  ghost predicate Holds(items: set<Item>, key: string, ids: seq<string>) {
    KeysDiffer(ids, Itself) && forall id :: id in ids <==> id in IdsUnder(items, key)
  }

  /** `groups` has the ids of the eligible items of `items` under their keys, each once. */
  ghost predicate Grouped(items: set<Item>, groups: map<string, seq<string>>) {
    && groups.Keys == (set x | x in items && Eligible(x) :: KeyOf(x))
    && forall k | k in groups :: Holds(items, k, groups[k])
  }

  lemma ClassIsGroup(items: set<Item>, x: Item)
    requires CleanAndDistinct(items) && x in items
    ensures ClassOf(items, x) == IdsUnder(items, KeyOf(x))
  {
    forall y | y in items
      ensures KeyOf(y) == KeyOf(x)
         <==> (y.project, y.team, y.agent, y.kind, y.signature) == (x.project, x.team, x.agent, x.kind, x.signature)
    {
      KeyIsExact(x, y);
    }
  }

  lemma GroupsAreDisjoint(items: set<Item>, k: string, l: string, id: string)
    requires CleanAndDistinct(items) && id in IdsUnder(items, k) && id in IdsUnder(items, l)
    ensures k == l
  {
    var x :| x in items && Eligible(x) && KeyOf(x) == k && x.id == id;
    var y :| y in items && Eligible(y) && KeyOf(y) == l && y.id == id;
  }

  lemma GroupGrows(items: set<Item>, x: Item, key: string, ids: seq<string>)
    requires CleanAndDistinct(items + {x}) && x !in items && Eligible(x) && key == KeyOf(x)
    requires Holds(items, key, ids)
    ensures Holds(items + {x}, key, ids + [x.id])
  {
    var all := items + {x};
    forall id
      ensures id in ids + [x.id] <==> id in IdsUnder(all, key)
    {
      if id in IdsUnder(items, key) {
        var y :| y in items && Eligible(y) && KeyOf(y) == key && y.id == id;
        assert y in all;
      }
      assert x in all;
    }
    NewId(items, x, key);
  }

  lemma NewId(items: set<Item>, x: Item, key: string)
    requires CleanAndDistinct(items + {x}) && x !in items
    ensures x.id !in IdsUnder(items, key)
  {
    var all := items + {x};
    forall y | y in items
      ensures y.id != x.id
    {
      assert y in all && x in all && y != x;
    }
  }

  lemma GroupStays(items: set<Item>, x: Item, key: string, ids: seq<string>)
    requires Holds(items, key, ids) && (Eligible(x) ==> KeyOf(x) != key)
    ensures Holds(items + {x}, key, ids)
  {
    var all := items + {x};
    forall id
      ensures id in IdsUnder(all, key) <==> id in IdsUnder(items, key)
    {
      if id in IdsUnder(items, key) {
        var y :| y in items && Eligible(y) && KeyOf(y) == key && y.id == id;
        assert y in all;
      }
    }
  }

  /** The cluster of one group, when it has two members or more. */
  function Cluster(ids: seq<string>): seq<string> {
    SortBy(ids, Itself)
  }

  lemma GroupIsCluster(items: set<Item>, x: Item, ids: seq<string>)
    requires CleanAndDistinct(items) && x in items && Eligible(x) && Holds(items, KeyOf(x), ids) && |ids| >= 2
    ensures IsCluster(items, Cluster(ids))
  {
    SortByKeeps(ids, Itself);
    ClassIsGroup(items, x);
    forall id
      ensures id in Cluster(ids) <==> id in ClassOf(items, x)
    {
    }
  }

  lemma ClusterIsGroup(items: set<Item>, groups: map<string, seq<string>>, c: seq<string>) returns (k: string)
    requires CleanAndDistinct(items) && Grouped(items, groups) && IsCluster(items, c)
    ensures k in groups && |groups[k]| >= 2 && c == Cluster(groups[k])
  {
    var x :| x in items && Eligible(x) && forall id :: id in c <==> id in ClassOf(items, x);
    k := KeyOf(x);
    ClassIsGroup(items, x);
    assert Holds(items, k, groups[k]);
    SortByKeeps(groups[k], Itself);
    AscendingIsUnique(c, Cluster(groups[k]), Itself);
  }

  lemma ClustersDiffer(items: set<Item>, k: string, l: string, a: seq<string>, b: seq<string>)
    requires CleanAndDistinct(items) && k != l && Holds(items, k, a) && Holds(items, l, b) && a != [] && b != []
    ensures Join(Cluster(a)) != Join(Cluster(b))
  {
    SortByKeeps(a, Itself);
    SortByKeeps(b, Itself);
    IdsAreClean(items, k, Cluster(a));
    IdsAreClean(items, l, Cluster(b));
    if Join(Cluster(a)) == Join(Cluster(b)) {
      JoinIsInjective(Cluster(a), Cluster(b));
      var id := Cluster(a)[0];
      assert id in Cluster(a) && id in Cluster(b);
      GroupsAreDisjoint(items, k, l, id);
    }
  }

  lemma IdsAreClean(items: set<Item>, k: string, ids: seq<string>)
    requires CleanAndDistinct(items) && forall id :: id in ids ==> id in IdsUnder(items, k)
    ensures forall i | 0 <= i < |ids| :: NulFree(ids[i])
  {
    forall i | 0 <= i < |ids|
      ensures NulFree(ids[i])
    {
      assert ids[i] in ids;
      var y :| y in items && Eligible(y) && KeyOf(y) == k && y.id == ids[i];
    }
  }

  // ---------------------------------------------------------------- the builder

  class ClusterBuilder {
    var groups: map<string, seq<string>>

    constructor ()
      ensures Grouped({}, groups)
    {
      groups := map[];
    }

    /** Takes one more item; `items` are the ones taken before. */
    method Add(x: Item, ghost items: set<Item>)
      requires x !in items && CleanAndDistinct(items + {x}) && Grouped(items, groups)
      modifies this
      ensures Grouped(items + {x}, groups)
    {
      ghost var before := groups;
      if Eligible(x) {
        var key := KeyOf(x);
        groups := groups[key := (if key in groups then groups[key] else []) + [x.id]];
      }
      GroupedStep(items, x, before, groups);
    }

    /**
      The cluster list of the items taken, whatever order they and their groups came in. The
      groups are sorted where they are, so the builder still has them afterwards.
    */
    method Clusters(ghost items: set<Item>) returns (clusters: seq<seq<string>>)
      requires CleanAndDistinct(items) && Grouped(items, groups)
      modifies this
      ensures IsClusterList(items, clusters)
      ensures Grouped(items, groups)
    {
      var found: seq<seq<string>> := [];
      ghost var was, done := groups, {};
      var todo := groups.Keys;
      while todo != {}
        invariant groups.Keys == was.Keys
        invariant todo + done == was.Keys && todo !! done
        invariant Grouped(items, groups)
        invariant forall k | k in todo :: groups[k] == was[k]
        invariant FoundUnder(items, was, done, found)
      {
        var key :| key in todo;
        FoundStep(items, was, done, found, key);
        assert todo - {key} + (done + {key}) == todo + done;
        todo, done := todo - {key}, done + {key};
        var ids := groups[key];
        if |ids| >= 2 {
          SortedInPlace(items, groups, key);
          groups := groups[key := Cluster(ids)];
          found := found + [Cluster(ids)];
        }
      }
      assert done == was.Keys;
      FoundAll(items, was, found);
      clusters := SortBy(found, Join);
    }
  }

  lemma SortedInPlace(items: set<Item>, groups: map<string, seq<string>>, key: string)
    requires Grouped(items, groups) && key in groups
    ensures groups[key := Cluster(groups[key])].Keys == groups.Keys
    ensures Grouped(items, groups[key := Cluster(groups[key])])
  {
    assert Holds(items, key, groups[key]);
    SortByKeeps(groups[key], Itself);
    AscendingDiffers(Cluster(groups[key]));
    assert groups[key := Cluster(groups[key])].Keys == groups.Keys;
  }

  lemma AscendingDiffers(ids: seq<string>)
    requires Ascending(ids, Itself)
    ensures KeysDiffer(ids, Itself)
  {
    forall i, j | 0 <= i < j < |ids|
      ensures ids[i] != ids[j]
    {
      assert Less(Itself(ids[i]), Itself(ids[j]));
      LessTotal(ids[i], ids[i]);
    }
  }

  lemma GroupedStep(items: set<Item>, x: Item, before: map<string, seq<string>>, after: map<string, seq<string>>)
    requires x !in items && CleanAndDistinct(items + {x}) && Grouped(items, before)
    requires after == if Eligible(x)
                      then before[KeyOf(x) := (if KeyOf(x) in before then before[KeyOf(x)] else []) + [x.id]]
                      else before
    ensures Grouped(items + {x}, after)
  {
    var all := items + {x};
    forall k
      ensures k in after <==> exists y :: y in all && Eligible(y) && KeyOf(y) == k
    {
      if k in before {
        var y :| y in items && Eligible(y) && KeyOf(y) == k;
        assert y in all;
      }
      assert x in all;
    }
    forall k | k in after
      ensures Holds(all, k, after[k])
    {
      if Eligible(x) && k == KeyOf(x) {
        if k !in before {
          assert Holds(items, k, []);
        }
        GroupGrows(items, x, k, if k in before then before[k] else []);
      } else {
        GroupStays(items, x, k, before[k]);
      }
    }
  }

  ghost predicate ClusterOfSome(groups: map<string, seq<string>>, done: set<string>, c: seq<string>)
    requires done <= groups.Keys
  {
    exists k :: k in done && |groups[k]| >= 2 && c == Cluster(groups[k])
  }

  /** `found` has the clusters of the groups in `done`, with different joined texts. */
  ghost predicate FoundUnder(items: set<Item>, groups: map<string, seq<string>>, done: set<string>, found: seq<seq<string>>)
    requires done <= groups.Keys
  {
    && (forall i | 0 <= i < |found| :: ClusterOfSome(groups, done, found[i]))
    && (forall k | k in done && |groups[k]| >= 2 :: Cluster(groups[k]) in found)
    && KeysDiffer(found, Join)
  }

  lemma FoundStep(items: set<Item>, groups: map<string, seq<string>>, done: set<string>, found: seq<seq<string>>, key: string)
    requires CleanAndDistinct(items) && Grouped(items, groups) && done <= groups.Keys && key in groups && key !in done
    requires FoundUnder(items, groups, done, found)
    ensures FoundUnder(items, groups, done + {key}, if |groups[key]| >= 2 then found + [Cluster(groups[key])] else found)
  {
    var more := if |groups[key]| >= 2 then found + [Cluster(groups[key])] else found;
    FoundSources(groups, done, found, key);
    forall k | k in done + {key} && |groups[k]| >= 2
      ensures Cluster(groups[k]) in more
    {
      if k != key {
        assert k in done && Cluster(groups[k]) in found;
        assert found <= more;
      } else {
        assert more[|found|] == Cluster(groups[key]);
      }
    }
    if |groups[key]| >= 2 {
      FoundDiffer(items, groups, done, found, key);
    }
  }

  lemma FoundSources(groups: map<string, seq<string>>, done: set<string>, found: seq<seq<string>>, key: string)
    requires done <= groups.Keys && key in groups
    requires forall i | 0 <= i < |found| :: ClusterOfSome(groups, done, found[i])
    ensures var more := if |groups[key]| >= 2 then found + [Cluster(groups[key])] else found;
            forall i | 0 <= i < |more| :: ClusterOfSome(groups, done + {key}, more[i])
  {
    var more := if |groups[key]| >= 2 then found + [Cluster(groups[key])] else found;
    forall i | 0 <= i < |more|
      ensures ClusterOfSome(groups, done + {key}, more[i])
    {
      if i < |found| {
        assert ClusterOfSome(groups, done, found[i]);
        var k :| k in done && |groups[k]| >= 2 && found[i] == Cluster(groups[k]);
        assert k in done + {key};
      } else {
        assert key in done + {key};
      }
    }
  }

  lemma FoundDiffer(items: set<Item>, groups: map<string, seq<string>>, done: set<string>, found: seq<seq<string>>, key: string)
    requires CleanAndDistinct(items) && done <= groups.Keys && key in groups && key !in done && |groups[key]| >= 2
    requires forall k | k in groups :: Holds(items, k, groups[k])
    requires forall i | 0 <= i < |found| :: ClusterOfSome(groups, done, found[i])
    requires KeysDiffer(found, Join)
    ensures KeysDiffer(found + [Cluster(groups[key])], Join)
  {
    forall i | 0 <= i < |found|
      ensures Join(found[i]) != Join(Cluster(groups[key]))
    {
      assert ClusterOfSome(groups, done, found[i]);
      ghost var k :| k in done && |groups[k]| >= 2 && found[i] == Cluster(groups[k]);
      ClustersDiffer(items, k, key, groups[k], groups[key]);
    }
  }

  lemma FoundAll(items: set<Item>, groups: map<string, seq<string>>, found: seq<seq<string>>)
    requires CleanAndDistinct(items) && Grouped(items, groups)
    requires FoundUnder(items, groups, groups.Keys, found)
    ensures IsClusterList(items, SortBy(found, Join))
  {
    SortByKeeps(found, Join);
    forall c
      ensures c in found <==> IsCluster(items, c)
    {
      if c in found {
        var i :| 0 <= i < |found| && found[i] == c;
        var k :| k in groups.Keys && |groups[k]| >= 2 && found[i] == Cluster(groups[k]);
        assert k in groups;
        var x :| x in items && Eligible(x) && KeyOf(x) == k;
        GroupIsCluster(items, x, groups[k]);
      }
      if IsCluster(items, c) {
        var k := ClusterIsGroup(items, groups, c);
      }
    }
  }
}
