/**
  The string helpers the modelled code shares, on ASCII text.
*/
module Texts {

  predicate IsBlank(c: char) {
    c == ' ' || c == '\t' || c == '\n' || c == '\r' || c as int == 11 || c as int == 12
  }

  function LowerChar(c: char): char {
    if 'A' <= c <= 'Z' then (c as int + 32) as char else c
  }

  function Lower(s: string): string {
    seq(|s|, i requires 0 <= i < |s| => LowerChar(s[i]))
  }

  function TrimLeft(s: string): string {
    if s != [] && IsBlank(s[0]) then TrimLeft(s[1..]) else s
  }

  function TrimRight(s: string): string {
    if s != [] && IsBlank(s[|s| - 1]) then TrimRight(s[..|s| - 1]) else s
  }

  function Trim(s: string): string {
    TrimRight(TrimLeft(s))
  }

  predicate IsTrimmed(s: string) {
    s == [] || (!IsBlank(s[0]) && !IsBlank(s[|s| - 1]))
  }

  lemma {:induction false} TrimRightEnds(s: string)
    ensures TrimRight(s) <= s
    ensures TrimRight(s) == [] || !IsBlank(TrimRight(s)[|TrimRight(s)| - 1])
  {
    if s != [] && IsBlank(s[|s| - 1]) {
      TrimRightEnds(s[..|s| - 1]);
    }
  }

  lemma {:induction false} TrimLeftStarts(s: string)
    ensures TrimLeft(s) == [] || !IsBlank(TrimLeft(s)[0])
  {
    if s != [] && IsBlank(s[0]) {
      TrimLeftStarts(s[1..]);
    }
  }

  lemma TrimIsTrimmed(s: string)
    ensures IsTrimmed(Trim(s))
  {
    TrimLeftStarts(s);
    TrimRightEnds(TrimLeft(s));
  }

  lemma LowerTwice(s: string)
    ensures Lower(Lower(s)) == Lower(s)
  {
    assert forall i | 0 <= i < |s| :: Lower(Lower(s))[i] == Lower(s)[i];
  }

  lemma TrimmedStays(s: string)
    requires IsTrimmed(s)
    ensures Trim(s) == s
  {
  }

  predicate AllBlank(s: string) {
    forall i | 0 <= i < |s| :: IsBlank(s[i])
  }

  lemma {:induction false} LeadingBlanks(blanks: string, s: string)
    requires AllBlank(blanks) && (s == [] || !IsBlank(s[0]))
    ensures TrimLeft(blanks + s) == s
  {
    if blanks == [] {
      assert blanks + s == s;
    } else {
      assert (blanks + s)[1..] == blanks[1..] + s;
      LeadingBlanks(blanks[1..], s);
    }
  }

  lemma {:induction false} TrailingBlanks(s: string, blanks: string)
    requires AllBlank(blanks) && (s == [] || !IsBlank(s[|s| - 1]))
    ensures TrimRight(s + blanks) == s
  {
    if blanks == [] {
      assert s + blanks == s;
    } else {
      var n := |blanks| - 1;
      assert (s + blanks)[..|s| + n] == s + blanks[..n];
      TrailingBlanks(s, blanks[..n]);
    }
  }

  /** Trimming takes exactly the blanks off both ends. */
  lemma TrimExactly(before: string, s: string, after: string)
    requires AllBlank(before) && AllBlank(after) && IsTrimmed(s)
    ensures Trim(before + s + after) == s
  {
    if s == [] {
      assert before + s + after == before + after + [];
      LeadingBlanks(before + after, []);
    } else {
      assert before + s + after == before + (s + after);
      LeadingBlanks(before, s + after);
      TrailingBlanks(s, after);
    }
  }

  /** A text trims to nothing exactly when it is all blanks. */
  lemma TrimsToNothing(s: string)
    ensures Trim(s) == "" <==> AllBlank(s)
  {
    if AllBlank(s) {
      TrimExactly(s, "", "");
      assert s + "" + "" == s;
    } else if s != [] {
      KeepsMarks(s);
    }
  }

  lemma {:induction false} KeepsMarks(s: string)
    requires !AllBlank(s)
    ensures Trim(s) != ""
  {
    LeftKeepsMarks(s);
    RightKeepsMarks(TrimLeft(s));
  }

  lemma {:induction false} LeftKeepsMarks(s: string)
    requires !AllBlank(s)
    ensures !AllBlank(TrimLeft(s))
  {
    if s != [] && IsBlank(s[0]) {
      var i :| 0 <= i < |s| && !IsBlank(s[i]);
      assert s[1..][i - 1] == s[i];
      LeftKeepsMarks(s[1..]);
    }
  }

  lemma {:induction false} RightKeepsMarks(s: string)
    requires !AllBlank(s)
    ensures TrimRight(s) != ""
  {
    if s != [] && IsBlank(s[|s| - 1]) {
      var i :| 0 <= i < |s| && !IsBlank(s[i]);
      assert s[..|s| - 1][i] == s[i];
      RightKeepsMarks(s[..|s| - 1]);
    }
  }

  lemma LowerKeepsTrimmed(s: string)
    requires IsTrimmed(s)
    ensures IsTrimmed(Lower(s))
  {
  }

  /** Where `c` first occurs in `s`, or the length of `s`. */
  function IndexOf(s: string, c: char): (n: nat)
    ensures n <= |s| && (n < |s| ==> s[n] == c) && (n == |s| <==> c !in s)
    ensures forall i | 0 <= i < n :: s[i] != c
  {
    if s == [] || s[0] == c then 0 else 1 + IndexOf(s[1..], c)
  }

  lemma {:induction false} IndexAfter(a: string, c: char, rest: string)
    requires c !in a
    ensures IndexOf(a + [c] + rest, c) == |a|
  {
    var s := a + [c] + rest;
    if a != [] {
      assert s[1..] == a[1..] + [c] + rest;
      IndexAfter(a[1..], c, rest);
    }
  }
}
