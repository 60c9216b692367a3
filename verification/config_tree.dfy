/**
  Nested configuration maps (cmd/hufu/configcmd.go): reading a dotted key, and setting one
  by walking down and creating the maps that are missing.

  `Get` and `Set` say what the two commands mean on trees.  `ConfigMaps` holds the nested
  maps by reference, as the code does, and updates them in place.
*/
module ConfigTree {
  import opened Options

  type Path = seq<string>

  /** A configuration value; a map carries the reference under which it is held. */
  datatype Tree = Scalar(text: string) | Dict(ref: nat, entries: map<string, Tree>)

  // ---------------------------------------------------------------- trees

  function Get(t: Tree, path: Path): Option<Tree>
    decreases |path|
  {
    if path == [] then Some(t)
    else if t.Dict? && path[0] in t.entries then Get(t.entries[path[0]], path[1..])
    else None
  }

  /** The map found under `part`, or the new one put there. */
  function Child(t: Tree, part: string, unused: nat): Tree {
    if t.Dict? && part in t.entries && t.entries[part].Dict? then t.entries[part] else Dict(unused, map[])
  }

  /** Setting `path` to `v`; maps created on the way are numbered from `unused` on. */
  function Set(t: Tree, path: Path, v: Tree, unused: nat): Tree
    requires t.Dict? && path != []
    decreases |path|
  {
    if |path| == 1 then
      t.(entries := t.entries[path[0] := v])
    else
      t.(entries := t.entries[path[0] := Set(Child(t, path[0], unused), path[1..], v, Next(t, path[0], unused))])
  }

  function Next(t: Tree, part: string, unused: nat): nat {
    if t.Dict? && part in t.entries && t.entries[part].Dict? then unused else unused + 1
  }

  lemma {:induction false} GetAfterSet(t: Tree, path: Path, v: Tree, unused: nat)
    requires t.Dict? && path != []
    ensures Get(Set(t, path, v, unused), path) == Some(v)
    decreases |path|
  {
    if |path| > 1 {
      GetAfterSet(Child(t, path[0], unused), path[1..], v, Next(t, path[0], unused));
    }
  }

  /** A second set of the same key wins and creates nothing. */
  lemma {:induction false} SetAfterSet(t: Tree, path: Path, v: Tree, w: Tree, unused: nat, later: nat)
    requires t.Dict? && path != []
    ensures Set(Set(t, path, v, unused), path, w, later) == Set(t, path, w, unused)
    decreases |path|
  {
    if |path| > 1 {
      var child := Child(t, path[0], unused);
      var inner := Set(child, path[1..], v, Next(t, path[0], unused));
      SetAfterSet(child, path[1..], v, w, Next(t, path[0], unused), later);
      var u := Set(t, path, v, unused);
      assert u.entries[path[0]] == inner && Child(u, path[0], later) == inner;
      assert t.entries[path[0] := inner][path[0] := Set(child, path[1..], w, Next(t, path[0], unused))]
          == t.entries[path[0] := Set(child, path[1..], w, Next(t, path[0], unused))];
    }
  }

  /** Setting a key to the value it has changes nothing. */
  lemma {:induction false} SetToSame(t: Tree, path: Path, v: Tree, unused: nat)
    requires t.Dict? && path != [] && Get(t, path) == Some(v)
    ensures Set(t, path, v, unused) == t
    decreases |path|
  {
    if |path| > 1 {
      assert path[1..][0] == path[1];
      SetToSame(t.entries[path[0]], path[1..], v, unused);
      assert t.entries[path[0] := t.entries[path[0]]] == t.entries;
    } else {
      assert Get(t.entries[path[0]], path[1..]) == Some(t.entries[path[0]]);
      assert t.entries[path[0] := v] == t.entries;
    }
  }

  predicate Incomparable(p: Path, q: Path) {
    !(p <= q) && !(q <= p)
  }

  /**
    A key that neither contains nor is contained in the one that was set reads the same,
    even when scalars on the way were replaced by maps.
  */
  lemma {:induction false} GetElsewhere(t: Tree, path: Path, v: Tree, unused: nat, other: Path)
    requires t.Dict? && path != [] && Incomparable(path, other)
    ensures Get(Set(t, path, v, unused), other) == Get(t, other)
    decreases |path|
  {
    if path[0] == other[0] {
      if |path| > 1 {
        var child := Child(t, path[0], unused);
        IncomparableTails(path, other);
        GetElsewhere(child, path[1..], v, Next(t, path[0], unused), other[1..]);
        assert other[1..] != [];
        if child.ref == unused && child.entries == map[] {
          assert Get(child, other[1..]) == None;
        }
      }
    }
  }

  lemma IncomparableTails(p: Path, q: Path)
    requires p != [] && q != [] && p[0] == q[0] && Incomparable(p, q)
    ensures Incomparable(p[1..], q[1..])
  {
    assert p == [p[0]] + p[1..] && q == [q[0]] + q[1..];
  }

  /** A longer key reads inside the value that was set. */
  lemma {:induction false} GetInside(t: Tree, path: Path, v: Tree, unused: nat, rest: Path)
    requires t.Dict? && path != []
    ensures Get(Set(t, path, v, unused), path + rest) == Get(v, rest)
    decreases |path|
  {
    assert (path + rest)[1..] == path[1..] + rest;
    if |path| == 1 {
      assert path[1..] + rest == rest;
    } else {
      GetInside(Child(t, path[0], unused), path[1..], v, Next(t, path[0], unused), rest);
    }
  }

  // ---------------------------------------------------------------- nested maps by reference

  datatype Val = Text(text: string) | Ref(ref: nat)

  type Heap = map<nat, map<string, Val>>

  /** In the heap, `v` is the value `t`. */
  predicate Holds(h: Heap, v: Val, t: Tree)
    decreases t
  {
    match t
    case Scalar(text) => v == Text(text)
    case Dict(ref, entries) =>
      && v == Ref(ref) && ref in h && h[ref].Keys == entries.Keys
      && forall k | k in entries :: Holds(h, h[ref][k], entries[k])
  }

  function Refs(t: Tree): set<nat> {
    match t
    case Scalar(_) => {}
    case Dict(ref, entries) => {ref} + set k, r | k in entries && r in Refs(entries[k]) :: r
  }

  /** No map is held in two places. */
  ghost predicate Separate(t: Tree) {
    match t
    case Scalar(_) => true
    case Dict(ref, entries) =>
      && (forall k | k in entries :: Separate(entries[k]) && ref !in Refs(entries[k]))
      && forall k, l | k in entries && l in entries && k != l :: Refs(entries[k]) !! Refs(entries[l])
  }

  ghost predicate SameAt(h: Heap, g: Heap, refs: set<nat>) {
    forall r | r in refs && r in h :: r in g && g[r] == h[r]
  }

  lemma {:induction false} HoldsFrame(h: Heap, g: Heap, v: Val, t: Tree)
    requires Holds(h, v, t) && SameAt(h, g, Refs(t))
    ensures Holds(g, v, t)
    decreases t
  {
    if t.Dict? {
      assert t.ref in Refs(t);
      forall k | k in t.entries
        ensures Holds(g, g[t.ref][k], t.entries[k])
      {
        assert forall r | r in Refs(t.entries[k]) :: r in Refs(t);
        HoldsFrame(h, g, h[t.ref][k], t.entries[k]);
      }
    }
  }

  /** Walks down from `current`, creating the maps that are missing, and stores `v` at the end. */
  function SetIn(h: Heap, current: nat, path: Path, v: Val, unused: nat): (Heap, nat)
    requires current in h && path != [] && forall r | r in h :: r < unused
    decreases |path|
  {
    if |path| == 1 then
      (h[current := h[current][path[0] := v]], unused)
    else if path[0] in h[current] && h[current][path[0]].Ref? && h[current][path[0]].ref in h then
      SetIn(h, h[current][path[0]].ref, path[1..], v, unused)
    else
      var g := h[unused := map[]][current := h[current][path[0] := Ref(unused)]];
      SetIn(g, unused, path[1..], v, unused + 1)
  }

  lemma {:induction false} HeldRefs(h: Heap, v: Val, t: Tree)
    requires Holds(h, v, t)
    ensures forall r | r in Refs(t) :: r in h
    decreases t
  {
    if t.Dict? {
      forall k | k in t.entries
        ensures forall r | r in Refs(t.entries[k]) :: r in h
      {
        HeldRefs(h, h[t.ref][k], t.entries[k]);
      }
    }
  }

  /** `u` is `t` with the entry `part` replaced, in a heap that differs only inside that entry. */
  lemma ReplaceEntry(h: Heap, g: Heap, t: Tree, part: string, v: Val, e: Tree)
    requires t.Dict? && Holds(h, Ref(t.ref), t) && Separate(t)
    requires t.ref in g && g[t.ref] == h[t.ref][part := v] && Holds(g, v, e)
    requires forall k | k in t.entries && k != part :: SameAt(h, g, Refs(t.entries[k]))
    ensures Holds(g, Ref(t.ref), t.(entries := t.entries[part := e]))
  {
    var u := t.(entries := t.entries[part := e]);
    forall k | k in u.entries
      ensures Holds(g, g[t.ref][k], u.entries[k])
    {
      if k != part {
        HoldsFrame(h, g, h[t.ref][k], t.entries[k]);
      }
    }
  }

  lemma SeparateEntry(t: Tree, part: string, e: Tree)
    requires t.Dict? && Separate(t) && Separate(e) && t.ref !in Refs(e)
    requires forall k | k in t.entries && k != part :: Refs(t.entries[k]) !! Refs(e)
    ensures Separate(t.(entries := t.entries[part := e]))
    ensures Refs(t.(entries := t.entries[part := e])) <= Refs(t) + Refs(e)
  {
  }

  lemma EntryRefs(t: Tree, part: string)
    requires t.Dict? && part in t.entries
    ensures Refs(t.entries[part]) <= Refs(t)
  {
  }

  /** Refs of `u` are those of `t` and `v`, and new ones. */
  ghost predicate GrowsFrom(u: Tree, t: Tree, v: Tree, unused: nat) {
    forall r | r in Refs(u) :: r in Refs(t) || r in Refs(v) || r >= unused
  }

  /** Heap `g` holds `u` where `h` held `t`; maps of `h` outside `t` are as they were. */
  ghost predicate Becomes(h: Heap, g: Heap, t: Tree, u: Tree, v: Tree, unused: nat, next: nat)
    requires t.Dict?
  {
    && Holds(g, Ref(t.ref), u) && Separate(u) && GrowsFrom(u, t, v, unused)
    && SameAt(h, g, h.Keys - Refs(t)) && h.Keys <= g.Keys
    && (forall r | r in g :: r < next) && unused <= next
  }

  /** The walk in the heap sets the tree, and leaves every map outside the tree alone. */
  lemma {:induction false} SetInSets(h: Heap, t: Tree, path: Path, v: Val, e: Tree, unused: nat)
    requires t.Dict? && path != [] && Holds(h, Ref(t.ref), t) && Separate(t)
    requires Holds(h, v, e) && Separate(e) && Refs(e) !! Refs(t)
    requires forall r | r in h :: r < unused
    ensures
      var (g, next) := SetIn(h, t.ref, path, v, unused);
      Becomes(h, g, t, Set(t, path, e, unused), e, unused, next)
    decreases |path|
  {
    HeldRefs(h, Ref(t.ref), t);
    HeldRefs(h, v, e);
    if |path| == 1 {
      SetLast(h, t, path[0], v, e);
    } else if path[0] in t.entries && t.entries[path[0]].Dict? {
      SetInChild(h, t, path, v, e, unused);
    } else {
      assert t.ref in Refs(t);
      SetInNew(h, t, path, v, e, unused);
    }
  }

  lemma SetLast(h: Heap, t: Tree, part: string, v: Val, e: Tree)
    requires t.Dict? && Holds(h, Ref(t.ref), t) && Separate(t)
    requires Holds(h, v, e) && Separate(e) && Refs(e) !! Refs(t)
    ensures
      var g := h[t.ref := h[t.ref][part := v]];
      var u := t.(entries := t.entries[part := e]);
      Holds(g, Ref(t.ref), u) && Separate(u) && Refs(u) <= Refs(t) + Refs(e)
  {
    var g := h[t.ref := h[t.ref][part := v]];
    assert t.ref in Refs(t);
    HoldsFrame(h, g, v, e);
    forall k | k in t.entries
      ensures SameAt(h, g, Refs(t.entries[k])) && Refs(t.entries[k]) !! Refs(e)
    {
      EntryRefs(t, k);
    }
    ReplaceEntry(h, g, t, part, v, e);
    SeparateEntry(t, part, e);
  }

  lemma SetInChild(h: Heap, t: Tree, path: Path, v: Val, e: Tree, unused: nat)
    requires |path| > 1 && t.Dict? && Holds(h, Ref(t.ref), t) && Separate(t)
    requires Holds(h, v, e) && Separate(e) && Refs(e) !! Refs(t)
    requires forall r | r in h :: r < unused
    requires forall r | r in Refs(t) :: r in h
    requires path[0] in t.entries && t.entries[path[0]].Dict?
    ensures
      var (g, next) := SetIn(h, t.ref, path, v, unused);
      Becomes(h, g, t, Set(t, path, e, unused), e, unused, next)
    decreases |path|, 0
  {
    var child := t.entries[path[0]];
    assert Holds(h, h[t.ref][path[0]], child);
    EntryRefs(t, path[0]);
    SetInSets(h, child, path[1..], v, e, unused);
    var (g, next) := SetIn(h, child.ref, path[1..], v, unused);
    PutChild(h, g, t, path[0], e, Set(child, path[1..], e, unused), unused, next);
  }

  lemma PutChild(h: Heap, g: Heap, t: Tree, part: string, e: Tree, inner: Tree, unused: nat, next: nat)
    requires t.Dict? && Holds(h, Ref(t.ref), t) && Separate(t) && Refs(e) !! Refs(t)
    requires (forall r | r in h :: r < unused) && (forall r | r in Refs(t) :: r in h)
    requires part in t.entries && t.entries[part].Dict?
    requires Becomes(h, g, t.entries[part], inner, e, unused, next)
    ensures Becomes(h, g, t, t.(entries := t.entries[part := inner]), e, unused, next)
  {
    var child := t.entries[part];
    assert Holds(h, h[t.ref][part], child);
    EntryRefs(t, part);
    assert t.ref in Refs(t) && t.ref in h.Keys - Refs(child);
    assert g[t.ref] == h[t.ref] == h[t.ref][part := Ref(child.ref)];
    forall k | k in t.entries && k != part
      ensures SameAt(h, g, Refs(t.entries[k])) && Refs(t.entries[k]) !! Refs(inner)
    {
      EntryRefs(t, k);
    }
    ReplaceEntry(h, g, t, part, Ref(child.ref), inner);
    SeparateEntry(t, part, inner);
  }

  lemma SetInNew(h: Heap, t: Tree, path: Path, v: Val, e: Tree, unused: nat)
    requires |path| > 1 && t.Dict? && Holds(h, Ref(t.ref), t) && Separate(t)
    requires Holds(h, v, e) && Separate(e) && Refs(e) !! Refs(t)
    requires forall r | r in h :: r < unused
    requires (forall r | r in Refs(t) :: r in h) && (forall r | r in Refs(e) :: r in h)
    requires t.ref in Refs(t) && !(path[0] in t.entries && t.entries[path[0]].Dict?)
    ensures
      var (g, next) := SetIn(h, t.ref, path, v, unused);
      Becomes(h, g, t, Set(t, path, e, unused), e, unused, next)
    decreases |path|, 0
  {
    var child := Dict(unused, map[]);
    var h1 := h[unused := map[]][t.ref := h[t.ref][path[0] := Ref(unused)]];
    NewChildHeld(h, t, path[0], v, e, unused);
    SetInSets(h1, child, path[1..], v, e, unused + 1);
    var (g, next) := SetIn(h1, unused, path[1..], v, unused + 1);
    var inner := Set(child, path[1..], e, unused + 1);
    PutNewChild(h, g, t, path[0], e, inner, unused, next);
    NewChildWalked(h, t, path, v, e, unused);
  }

  /** With an empty map put in, the value and the new map are held in the heap. */
  lemma NewChildHeld(h: Heap, t: Tree, part: string, v: Val, e: Tree, unused: nat)
    requires t.Dict? && t.ref in h && Holds(h, v, e) && t.ref !in Refs(e)
    requires (forall r | r in h :: r < unused) && (forall r | r in Refs(e) :: r in h)
    ensures
      var h1, child := h[unused := map[]][t.ref := h[t.ref][part := Ref(unused)]], Dict(unused, map[]);
      && Holds(h1, v, e) && Holds(h1, Ref(unused), child) && Separate(child)
      && Refs(child) == {unused} && unused !in Refs(e) && forall r | r in h1 :: r < unused + 1
  {
    var h1 := h[unused := map[]][t.ref := h[t.ref][part := Ref(unused)]];
    assert Refs(Dict(unused, map[])) == {unused};
    HoldsFrame(h, h1, v, e);
  }

  /** Where a map is missing, walk and tree both go on in the one put in. */
  lemma NewChildWalked(h: Heap, t: Tree, path: Path, v: Val, e: Tree, unused: nat)
    requires |path| > 1 && t.Dict? && Holds(h, Ref(t.ref), t) && forall r | r in h :: r < unused
    requires !(path[0] in t.entries && t.entries[path[0]].Dict?)
    ensures
      var h1, child := h[unused := map[]][t.ref := h[t.ref][path[0] := Ref(unused)]], Dict(unused, map[]);
      && SetIn(h, t.ref, path, v, unused) == SetIn(h1, unused, path[1..], v, unused + 1)
      && Set(t, path, e, unused) == t.(entries := t.entries[path[0] := Set(child, path[1..], e, unused + 1)])
  {
    assert path[0] in t.entries ==> Holds(h, h[t.ref][path[0]], t.entries[path[0]]);
  }

  lemma PutNewChild(h: Heap, g: Heap, t: Tree, part: string, e: Tree, inner: Tree, unused: nat, next: nat)
    requires t.Dict? && Holds(h, Ref(t.ref), t) && Separate(t) && Refs(e) !! Refs(t)
    requires (forall r | r in h :: r < unused) && (forall r | r in Refs(t) :: r in h)
    requires
      var h1 := h[unused := map[]][t.ref := h[t.ref][part := Ref(unused)]];
      Becomes(h1, g, Dict(unused, map[]), inner, e, unused + 1, next)
    ensures Becomes(h, g, t, t.(entries := t.entries[part := inner]), e, unused, next)
  {
    var h1 := h[unused := map[]][t.ref := h[t.ref][part := Ref(unused)]];
    assert Refs(Dict(unused, map[])) == {unused};
    assert t.ref in Refs(t) && t.ref in h1.Keys - {unused};
    forall k | k in t.entries && k != part
      ensures SameAt(h, g, Refs(t.entries[k])) && Refs(t.entries[k]) !! Refs(inner)
    {
      EntryRefs(t, k);
      OtherEntry(h, g, t, k, part, e, inner, unused);
    }
    ReplaceEntry(h, g, t, part, Ref(unused), inner);
    SeparateEntry(t, part, inner);
  }

  /** An entry other than the one replaced is as it was, and shares no map with the new one. */
  lemma OtherEntry(h: Heap, g: Heap, t: Tree, k: string, part: string, e: Tree, inner: Tree, unused: nat)
    requires t.Dict? && k in t.entries && t.ref in h && t.ref !in Refs(t.entries[k])
    requires (forall r | r in h :: r < unused) && (forall r | r in Refs(t.entries[k]) :: r in h)
    requires Refs(e) !! Refs(t.entries[k]) && GrowsFrom(inner, Dict(unused, map[]), e, unused + 1)
    requires
      var h1 := h[unused := map[]][t.ref := h[t.ref][part := Ref(unused)]];
      SameAt(h1, g, h1.Keys - {unused})
    ensures SameAt(h, g, Refs(t.entries[k])) && Refs(t.entries[k]) !! Refs(inner)
  {
    assert Refs(Dict(unused, map[])) == {unused};
  }

  /** The configuration as nested maps, changed in place. */
  class ConfigMaps {
    var heap: Heap
    var unused: nat
    const root: nat

    constructor (heap: Heap, root: nat, unused: nat)
      ensures this.heap == heap && this.root == root && this.unused == unused
    {
      this.heap, this.root, this.unused := heap, root, unused;
    }

    predicate Valid()
      reads this
    {
      root in heap && forall r | r in heap :: r < unused
    }

    method MapValue(path: Path, ghost t: Tree) returns (value: Option<Val>)
      requires Holds(heap, Ref(root), t)
      ensures value.Some? <==> Get(t, path).Some?
      ensures value.Some? ==> Holds(heap, value.value, Get(t, path).value)
    {
      var current := Ref(root);
      ghost var here := t;
      for i := 0 to |path|
        invariant Holds(heap, current, here) && Get(here, path[i..]) == Get(t, path)
      {
        assert path[i..][0] == path[i] && path[i..][1..] == path[i + 1..];
        if !current.Ref? || path[i] !in heap[current.ref] {
          return None;
        }
        here := here.entries[path[i]];
        current := heap[current.ref][path[i]];
      }
      assert path[|path|..] == [];
      value := Some(current);
    }

    method SetMapValue(path: Path, value: Val, ghost t: Tree, ghost v: Tree)
      requires Valid() && path != []
      requires Holds(heap, Ref(root), t) && Separate(t)
      requires Holds(heap, value, v) && Separate(v) && Refs(v) !! Refs(t)
      modifies this
      ensures Valid()
      ensures Holds(heap, Ref(root), Set(t, path, v, old(unused))) && Separate(Set(t, path, v, old(unused)))
      ensures SameAt(old(heap), heap, old(heap).Keys - Refs(t))
    {
      SetInSets(heap, t, path, value, v, unused);
      WalkAndSet(path, value);
    }

    method WalkAndSet(path: Path, value: Val)
      requires Valid() && path != []
      modifies this
      ensures (heap, unused) == SetIn(old(heap), root, path, value, old(unused))
    {
      ghost var goal := SetIn(heap, root, path, value, unused);
      var current := root;
      for i := 0 to |path| - 1
        invariant current in heap && forall r | r in heap :: r < unused
        invariant SetIn(heap, current, path[i..], value, unused) == goal
      {
        var part := path[i];
        assert path[i..][0] == part && path[i..][1..] == path[i + 1..];
        if part in heap[current] && heap[current][part].Ref? && heap[current][part].ref in heap {
          current := heap[current][part].ref;
        } else {
          heap := heap[unused := map[]][current := heap[current][part := Ref(unused)]];
          current := unused;
          unused := unused + 1;
        }
      }
      assert path[|path| - 1..] == [path[|path| - 1]];
      heap := heap[current := heap[current][path[|path| - 1] := value]];
    }
  }
}
