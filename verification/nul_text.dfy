/**
  Text built from fields with NUL characters between them, and reading it back.
*/
module NulText {

  const NUL: char := 0 as char

  predicate NulFree(s: string) {
    NUL !in s
  }

  /** The fields with a NUL character between them. */
  function Join(fields: seq<string>): string {
    if fields == [] then []
    else if |fields| == 1 then fields[0]
    else fields[0] + [NUL] + Join(fields[1..])
  }

  lemma {:induction false} JoinAppend(a: seq<string>, b: seq<string>)
    requires a != [] && b != []
    ensures Join(a + b) == Join(a) + [NUL] + Join(b)
  {
    if |a| == 1 {
      assert (a + b)[1..] == b;
    } else {
      assert (a + b)[1..] == a[1..] + b;
      JoinAppend(a[1..], b);
      assert Join(a + b) == a[0] + [NUL] + (Join(a[1..]) + [NUL] + Join(b));
    }
  }

  /** The stretches between NUL characters. */
  function Split(s: string): (fields: seq<string>)
    ensures fields != []
  {
    if s == [] then [[]]
    else
      var rest := Split(s[1..]);
      if s[0] == NUL then [[]] + rest else [[s[0]] + rest[0]] + rest[1..]
  }

  lemma {:induction false} SplitField(field: string)
    requires NulFree(field)
    ensures Split(field) == [field]
  {
    if field != [] {
      SplitField(field[1..]);
      assert [field[0]] + field[1..] == field;
    }
  }

  lemma {:induction false} SplitAfterField(field: string, rest: string)
    requires NulFree(field)
    ensures Split(field + [NUL] + rest) == [field] + Split(rest)
  {
    var s := field + [NUL] + rest;
    if field == [] {
      assert s[1..] == rest;
    } else {
      assert s[1..] == field[1..] + [NUL] + rest;
      SplitAfterField(field[1..], rest);
      assert [field[0]] + field[1..] == field;
    }
  }

  lemma {:induction false} SplitJoin(fields: seq<string>)
    requires fields != [] && forall i | 0 <= i < |fields| :: NulFree(fields[i])
    ensures Split(Join(fields)) == fields
  {
    if |fields| == 1 {
      SplitField(fields[0]);
    } else {
      SplitJoin(fields[1..]);
      SplitAfterField(fields[0], Join(fields[1..]));
      assert fields == [fields[0]] + fields[1..];
    }
  }

  /** Texts of NUL-free fields determine the fields. */
  lemma JoinIsInjective(a: seq<string>, b: seq<string>)
    requires a != [] && b != [] && Join(a) == Join(b)
    requires forall i | 0 <= i < |a| :: NulFree(a[i])
    requires forall i | 0 <= i < |b| :: NulFree(b[i])
    ensures a == b
  {
    SplitJoin(a);
    SplitJoin(b);
  }
}
