/**
  The byte-wise order on strings, and sorting a list by a string key.
*/
module Ordering {

  predicate Less(a: string, b: string) {
    if b == [] then false
    else if a == [] then true
    else if a[0] != b[0] then a[0] < b[0]
    else Less(a[1..], b[1..])
  }

  lemma {:induction false} LessTotal(a: string, b: string)
    ensures a == b || Less(a, b) || Less(b, a)
    ensures !(Less(a, b) && Less(b, a)) && !Less(a, a)
  {
    if a != [] {
      LessTotal(a[1..], a[1..]);
      if b != [] && a[0] == b[0] {
        LessTotal(a[1..], b[1..]);
        assert a == [a[0]] + a[1..] && b == [b[0]] + b[1..];
      }
    }
  }

  lemma {:induction false} LessTransitive(a: string, b: string, c: string)
    requires Less(a, b) && Less(b, c)
    ensures Less(a, c)
  {
    if a != [] && a[0] == b[0] == c[0] {
      LessTransitive(a[1..], b[1..], c[1..]);
    }
  }

  /** The texts agree before i and differ there. */
  ghost predicate FirstDifference(a: string, b: string, i: int) {
    0 <= i < |a| && i < |b| && (forall k | 0 <= k < i :: a[k] == b[k]) && a[i] != b[i]
  }

  /** At the first difference the text has the smaller byte, or it ends before any difference. */
  ghost predicate ComesFirst(a: string, b: string) {
    (exists i :: FirstDifference(a, b, i) && a[i] < b[i]) || (|a| < |b| && forall k | 0 <= k < |a| :: a[k] == b[k])
  }

  lemma {:induction false} DifferenceShifts(a: string, b: string, i: int)
    requires a != [] && b != [] && a[0] == b[0]
    ensures FirstDifference(a, b, i) ==> i > 0 && FirstDifference(a[1..], b[1..], i - 1)
    ensures i > 0 && FirstDifference(a[1..], b[1..], i - 1) ==> FirstDifference(a, b, i)
  {
    var c, d := a[1..], b[1..];
    if i > 0 && FirstDifference(c, d, i - 1) {
      forall k | 0 <= k < i
        ensures a[k] == b[k]
      {
        if k > 0 {
          assert c[k - 1] == d[k - 1];
        }
      }
    }
  }

  lemma {:induction false} ComesFirstInside(a: string, b: string)
    requires a != [] && b != [] && a[0] == b[0]
    ensures ComesFirst(a, b) <==> ComesFirst(a[1..], b[1..])
  {
    var c, d := a[1..], b[1..];
    if i :| FirstDifference(a, b, i) && a[i] < b[i] {
      DifferenceShifts(a, b, i);
      assert FirstDifference(c, d, i - 1) && c[i - 1] < d[i - 1];
    }
    if i :| FirstDifference(c, d, i) && c[i] < d[i] {
      DifferenceShifts(a, b, i + 1);
      assert FirstDifference(a, b, i + 1) && a[i + 1] < b[i + 1];
    }
    if |c| < |d| && forall k | 0 <= k < |c| :: c[k] == d[k] {
      forall k | 0 <= k < |a|
        ensures a[k] == b[k]
      {
        if k > 0 {
          assert c[k - 1] == d[k - 1];
        }
      }
    }
  }

  lemma {:induction false} LessExactly(a: string, b: string)
    ensures Less(a, b) <==> ComesFirst(a, b)
  {
    if a != [] && b != [] {
      if a[0] == b[0] {
        LessExactly(a[1..], b[1..]);
        ComesFirstInside(a, b);
      } else {
        assert FirstDifference(a, b, 0);
      }
    }
  }

  ghost predicate Ascending<T>(s: seq<T>, key: T -> string) {
    forall i, j | 0 <= i < j < |s| :: Less(key(s[i]), key(s[j]))
  }

  function Insert<T>(x: T, s: seq<T>, key: T -> string): seq<T> {
    if s == [] || Less(key(x), key(s[0])) then [x] + s else [s[0]] + Insert(x, s[1..], key)
  }

  function SortBy<T>(s: seq<T>, key: T -> string): seq<T> {
    if s == [] then [] else Insert(s[0], SortBy(s[1..], key), key)
  }

  ghost predicate KeysDiffer<T>(s: seq<T>, key: T -> string) {
    forall i, j | 0 <= i < j < |s| :: key(s[i]) != key(s[j])
  }

  lemma {:induction false} InsertKeeps<T(!new)>(x: T, s: seq<T>, key: T -> string)
    requires Ascending(s, key) && forall i | 0 <= i < |s| :: key(s[i]) != key(x)
    ensures Ascending(Insert(x, s, key), key)
    ensures |Insert(x, s, key)| == |s| + 1
    ensures forall y :: y in Insert(x, s, key) <==> y == x || y in s
  {
    if s == [] {
    } else if Less(key(x), key(s[0])) {
      forall j | 0 <= j < |s|
        ensures Less(key(x), key(s[j]))
      {
        if j > 0 {
          LessTransitive(key(x), key(s[0]), key(s[j]));
        }
      }
    } else {
      InsertKeeps(x, s[1..], key);
      LessTotal(key(x), key(s[0]));
      var rest := Insert(x, s[1..], key);
      forall j | 0 <= j < |rest|
        ensures Less(key(s[0]), key(rest[j]))
      {
        assert rest[j] in rest && (rest[j] == x || rest[j] in s[1..]);
        if rest[j] != x {
          var i :| 0 <= i < |s[1..]| && s[1..][i] == rest[j];
          assert s[i + 1] == rest[j];
        }
      }
      assert s == [s[0]] + s[1..];
    }
  }

  lemma {:induction false} SortByKeeps<T(!new)>(s: seq<T>, key: T -> string)
    requires KeysDiffer(s, key)
    ensures Ascending(SortBy(s, key), key)
    ensures |SortBy(s, key)| == |s|
    ensures forall y :: y in SortBy(s, key) <==> y in s
  {
    if s != [] {
      SortByKeeps(s[1..], key);
      var rest := SortBy(s[1..], key);
      forall i | 0 <= i < |rest|
        ensures key(rest[i]) != key(s[0])
      {
        assert rest[i] in rest && rest[i] in s[1..];
        var j :| 0 <= j < |s[1..]| && s[1..][j] == rest[i];
        assert s[j + 1] == rest[i];
      }
      InsertKeeps(s[0], rest, key);
      assert s == [s[0]] + s[1..];
    }
  }

  /** An ascending list is determined by its elements. */
  lemma {:induction false} AscendingIsUnique<T(!new)>(a: seq<T>, b: seq<T>, key: T -> string)
    requires Ascending(a, key) && Ascending(b, key)
    requires forall y :: y in a <==> y in b
    ensures a == b
    decreases |a|
  {
    SomeElement(a);
    SomeElement(b);
    if a != [] && b != [] {
      assert a[0] in b;
      assert b[0] in a;
      FirstIsLeast(a, b[0], key);
      FirstIsLeast(b, a[0], key);
      LessTotal(key(a[0]), key(b[0]));
      forall y
        ensures y in a[1..] <==> y in b[1..]
      {
        RestHasOthers(a, y, key);
        RestHasOthers(b, y, key);
      }
      AscendingIsUnique(a[1..], b[1..], key);
      assert a == [a[0]] + a[1..] && b == [b[0]] + b[1..];
    }
  }

  lemma SomeElement<T(!new)>(s: seq<T>)
    ensures s != [] ==> exists y :: y in s
  {
    if s != [] {
      assert s[0] in s;
    }
  }

  lemma FirstIsLeast<T(!new)>(s: seq<T>, x: T, key: T -> string)
    requires Ascending(s, key) && x in s
    ensures x == s[0] || Less(key(s[0]), key(x))
  {
  }

  lemma RestHasOthers<T(!new)>(s: seq<T>, y: T, key: T -> string)
    requires Ascending(s, key) && s != []
    ensures y in s[1..] <==> y in s && y != s[0]
  {
    assert s == [s[0]] + s[1..];
    LessTotal(key(s[0]), key(s[0]));
    assert forall i | 0 <= i < |s[1..]| :: s[1..][i] == s[i + 1];
  }
}
