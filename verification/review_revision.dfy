/**
  The review revision of a promotion proposal (cmd/hufu/context_promotion_review.go): the
  string that is hashed when a proposal is shown, and compared again before it is changed.
*/
module ReviewRevision {
  import opened Options
  import opened NulText
  import opened Sequences

  datatype Source = Source(itemID: string, contentHash: string, aggregateRevision: int)

  datatype Proposal = Proposal(
    id: string, status: string, draftHash: string, targetBaseHash: string, policyVersion: string,
    updatedAt: int, sources: seq<Source>)

  predicate Clean(p: Proposal) {
    && NulFree(p.id) && NulFree(p.status) && NulFree(p.draftHash) && NulFree(p.targetBaseHash)
    && NulFree(p.policyVersion)
    && forall i | 0 <= i < |p.sources| :: NulFree(p.sources[i].itemID) && NulFree(p.sources[i].contentHash)
  }

  // ---------------------------------------------------------------- decimals

  function Digit(n: nat): char
    requires n < 10
  {
    ('0' as int + n) as char
  }

  function Digits(n: nat): string {
    if n < 10 then [Digit(n)] else Digits(n / 10) + [Digit(n % 10)]
  }

  function Decimal(n: int): string {
    if n < 0 then "-" + Digits(-n) else Digits(n)
  }

  function ValueOf(s: string): int {
    if s == [] then 0 else ValueOf(s[..|s| - 1]) * 10 + (s[|s| - 1] as int - '0' as int)
  }

  function ParseDecimal(s: string): int {
    if s != [] && s[0] == '-' then -ValueOf(s[1..]) else ValueOf(s)
  }

  lemma {:induction false} DigitsParse(n: nat)
    ensures ValueOf(Digits(n)) == n
    ensures Digits(n) != [] && forall i | 0 <= i < |Digits(n)| :: '0' <= Digits(n)[i] <= '9'
  {
    if n >= 10 {
      DigitsParse(n / 10);
      assert Digits(n)[..|Digits(n)| - 1] == Digits(n / 10);
    } else {
      assert ValueOf([]) == 0;
      assert Digits(n)[..0] == [];
    }
  }

  lemma DecimalParses(n: int)
    ensures ParseDecimal(Decimal(n)) == n && NulFree(Decimal(n))
  {
    if n < 0 {
      DigitsParse(-n);
      assert Decimal(n)[1..] == Digits(-n);
    } else {
      DigitsParse(n);
    }
  }

  // ---------------------------------------------------------------- the encoding

  function SourceFields(s: Source): seq<string> {
    [s.itemID, s.contentHash, Decimal(s.aggregateRevision)]
  }

  function SourcesFields(sources: seq<Source>): seq<string> {
    if sources == [] then [] else SourceFields(sources[0]) + SourcesFields(sources[1..])
  }

  function Fields(p: Proposal): seq<string> {
    [p.id, p.status, p.draftHash, p.targetBaseHash, p.policyVersion, Decimal(p.updatedAt)] + SourcesFields(p.sources)
  }

  /** The fields of the record: six of the proposal, then three of each source. */
  lemma {:induction false} FieldsExactly(p: Proposal, i: nat)
    requires i < |p.sources|
    ensures |Fields(p)| == 6 + 3 * |p.sources|
    ensures Fields(p)[..6] == [p.id, p.status, p.draftHash, p.targetBaseHash, p.policyVersion, Decimal(p.updatedAt)]
    ensures Fields(p)[6 + 3 * i..6 + 3 * i + 3]
         == [p.sources[i].itemID, p.sources[i].contentHash, Decimal(p.sources[i].aggregateRevision)]
  {
    SourceFieldsAt(p.sources, i);
    assert Fields(p)[6..] == SourcesFields(p.sources);
    assert Fields(p)[6 + 3 * i..6 + 3 * i + 3] == Fields(p)[6..][3 * i..3 * i + 3];
  }

  lemma {:induction false} SourceFieldsAt(sources: seq<Source>, i: nat)
    requires i < |sources|
    ensures |SourcesFields(sources)| == 3 * |sources|
    ensures SourcesFields(sources)[3 * i..3 * i + 3] == SourceFields(sources[i])
  {
    SourcesFieldsCount(sources);
    if i > 0 {
      SourceFieldsAt(sources[1..], i - 1);
      var rest := SourcesFields(sources[1..]);
      assert SourcesFields(sources)[3 * i..3 * i + 3] == rest[3 * (i - 1)..3 * (i - 1) + 3];
    }
  }

  /** Writes the record field by field, as the string builder does. */
  method PromotionRecord(p: Proposal) returns (value: string)
    ensures value == Join(Fields(p))
  {
    var head := [p.id, p.status, p.draftHash, p.targetBaseHash, p.policyVersion, Decimal(p.updatedAt)];
    value := p.id + [NUL] + p.status + [NUL] + p.draftHash + [NUL] + p.targetBaseHash + [NUL]
      + p.policyVersion + [NUL] + Decimal(p.updatedAt);
    HeadJoins(p.id, p.status, p.draftHash, p.targetBaseHash, p.policyVersion, Decimal(p.updatedAt));
    ghost var done := head;
    for i := 0 to |p.sources|
      invariant done != [] && value == Join(done) && Fields(p) == done + SourcesFields(p.sources[i..])
    {
      var source := p.sources[i];
      assert p.sources[i..][0] == source && p.sources[i..][1..] == p.sources[i + 1..];
      SourceJoins(done, source);
      value := value + [NUL] + source.itemID + [NUL] + source.contentHash + [NUL] + Decimal(source.aggregateRevision);
      Assoc(done, SourceFields(source), SourcesFields(p.sources[i + 1..]));
      done := done + SourceFields(source);
    }
    assert p.sources[|p.sources|..] == [];
    assert Fields(p) == done;
  }

  lemma HeadJoins(a: string, b: string, c: string, d: string, e: string, f: string)
    ensures Join([a, b, c, d, e, f]) == a + [NUL] + b + [NUL] + c + [NUL] + d + [NUL] + e + [NUL] + f
  {
    JoinAppend([a], [b]);
    JoinAppend([a, b], [c]);
    JoinAppend([a, b, c], [d]);
    JoinAppend([a, b, c, d], [e]);
    JoinAppend([a, b, c, d, e], [f]);
    assert [a] + [b] == [a, b] && [a, b] + [c] == [a, b, c] && [a, b, c] + [d] == [a, b, c, d];
    assert [a, b, c, d] + [e] == [a, b, c, d, e] && [a, b, c, d, e] + [f] == [a, b, c, d, e, f];
  }

  lemma SourceJoins(done: seq<string>, s: Source)
    requires done != []
    ensures Join(done + SourceFields(s))
         == Join(done) + [NUL] + s.itemID + [NUL] + s.contentHash + [NUL] + Decimal(s.aggregateRevision)
  {
    var x, y, z := s.itemID, s.contentHash, Decimal(s.aggregateRevision);
    JoinAppend(done, [x]);
    JoinAppend(done + [x], [y]);
    JoinAppend(done + [x] + [y], [z]);
    assert done + [x] + [y] + [z] == done + SourceFields(s);
  }

  // ---------------------------------------------------------------- reading it back

  function ParseSources(fields: seq<string>): seq<Source> {
    if |fields| < 3 then []
    else [Source(fields[0], fields[1], ParseDecimal(fields[2]))] + ParseSources(fields[3..])
  }

  function ParseRecord(record: string): Proposal {
    var f := Split(record);
    if |f| < 6 then Proposal("", "", "", "", "", 0, [])
    else Proposal(f[0], f[1], f[2], f[3], f[4], ParseDecimal(f[5]), ParseSources(f[6..]))
  }

  lemma {:induction false} SourcesParse(sources: seq<Source>)
    ensures ParseSources(SourcesFields(sources)) == sources
  {
    if sources != [] {
      var f := SourcesFields(sources);
      assert f[3..] == SourcesFields(sources[1..]);
      DecimalParses(sources[0].aggregateRevision);
      SourcesParse(sources[1..]);
    }
  }

  lemma {:induction false} SourcesFieldsClean(sources: seq<Source>)
    requires forall i | 0 <= i < |sources| :: NulFree(sources[i].itemID) && NulFree(sources[i].contentHash)
    ensures forall i | 0 <= i < |SourcesFields(sources)| :: NulFree(SourcesFields(sources)[i])
  {
    if sources != [] {
      DecimalParses(sources[0].aggregateRevision);
      SourcesFieldsClean(sources[1..]);
    }
  }

  /** Parsing the record of a proposal without NUL characters gives the proposal back. */
  lemma RecordParses(p: Proposal)
    requires Clean(p)
    ensures ParseRecord(Join(Fields(p))) == p
  {
    DecimalParses(p.updatedAt);
    SourcesFieldsClean(p.sources);
    SplitJoin(Fields(p));
    assert Fields(p)[6..] == SourcesFields(p.sources);
    SourcesParse(p.sources);
  }

  /** Equal records come from equal proposals. */
  lemma RecordIsInjective(p: Proposal, q: Proposal)
    requires Clean(p) && Clean(q) && Join(Fields(p)) == Join(Fields(q))
    ensures p == q
  {
    RecordParses(p);
    RecordParses(q);
  }

  // ---------------------------------------------------------------- when records collide

  lemma NulSplits(s: string) returns (x: string, y: string)
    requires NUL in s
    ensures s == x + [NUL] + y
  {
    var i :| 0 <= i < |s| && s[i] == NUL;
    x, y := s[..i], s[i + 1..];
  }

  /** A NUL in one of two neighbouring fields can be read as another border between them. */
  lemma ShiftPair(u: string, v: string) returns (first: string, second: string)
    requires NUL in u || NUL in v
    ensures first != u && Join([first, second]) == Join([u, v])
  {
    if NUL in u {
      var x, y := NulSplits(u);
      first, second := x, y + [NUL] + v;
      assert |first| < |u|;
      assert x + [NUL] + (y + [NUL] + v) == x + [NUL] + y + [NUL] + v;
    } else {
      var x, y := NulSplits(v);
      first, second := u + [NUL] + x, y;
      assert |u| < |first|;
      assert u + [NUL] + (x + [NUL] + y) == u + [NUL] + x + [NUL] + y;
    }
    assert [first, second][1..] == [second] && [u, v][1..] == [v];
  }

  /** Fields with one text can stand for each other among other fields. */
  lemma SameMiddle(before: seq<string>, m: seq<string>, other: seq<string>, after: seq<string>)
    requires m != [] && other != [] && Join(m) == Join(other)
    ensures Join(before + m + after) == Join(before + other + after)
  {
    if before != [] {
      JoinAppend(before, m);
      JoinAppend(before, other);
    } else {
      assert before + m == m && before + other == other;
    }
    if after != [] {
      JoinAppend(before + m, after);
      JoinAppend(before + other, after);
    } else {
      assert before + m + after == before + m && before + other + after == before + other;
    }
  }

  lemma {:induction false} SourcesFieldsAppend(a: seq<Source>, b: seq<Source>)
    ensures SourcesFields(a + b) == SourcesFields(a) + SourcesFields(b)
  {
    if a == [] {
      assert a + b == b;
    } else {
      assert (a + b)[1..] == a[1..] + b;
      SourcesFieldsAppend(a[1..], b);
    }
  }

  lemma IdOrStatusCollides(p: Proposal) returns (q: Proposal)
    requires NUL in p.id || NUL in p.status
    ensures q != p && Join(Fields(q)) == Join(Fields(p))
  {
    var f := Fields(p);
    var u, v := ShiftPair(p.id, p.status);
    q := p.(id := u, status := v);
    SameMiddle([], [u, v], [p.id, p.status], f[2..]);
    assert Fields(q) == [] + [u, v] + f[2..] && f == [] + [p.id, p.status] + f[2..];
  }

  lemma HashCollides(p: Proposal) returns (q: Proposal)
    requires NUL in p.draftHash || NUL in p.targetBaseHash
    ensures q != p && Join(Fields(q)) == Join(Fields(p))
  {
    var f := Fields(p);
    var u, v := ShiftPair(p.draftHash, p.targetBaseHash);
    q := p.(draftHash := u, targetBaseHash := v);
    SameMiddle(f[..2], [u, v], [p.draftHash, p.targetBaseHash], f[4..]);
    assert Fields(q) == f[..2] + [u, v] + f[4..] && f == f[..2] + [p.draftHash, p.targetBaseHash] + f[4..];
  }

  lemma PolicyCollides(p: Proposal) returns (q: Proposal)
    requires NUL in p.policyVersion
    ensures q != p && Join(Fields(q)) == Join(Fields(p))
  {
    var f := Fields(p);
    var u, v := ShiftPair(p.targetBaseHash, p.policyVersion);
    q := p.(targetBaseHash := u, policyVersion := v);
    SameMiddle(f[..3], [u, v], [p.targetBaseHash, p.policyVersion], f[5..]);
    assert Fields(q) == f[..3] + [u, v] + f[5..] && f == f[..3] + [p.targetBaseHash, p.policyVersion] + f[5..];
  }

  lemma SourceCollides(p: Proposal, i: nat) returns (q: Proposal)
    requires i < |p.sources| && (!NulFree(p.sources[i].itemID) || !NulFree(p.sources[i].contentHash))
    ensures q != p && Join(Fields(q)) == Join(Fields(p))
  {
    var s := p.sources[i];
    var u, v := ShiftPair(s.itemID, s.contentHash);
    var t := s.(itemID := u, contentHash := v);
    q := p.(sources := p.sources[i := t]);
    assert q.sources[i] != p.sources[i];
    AroundSource(p, i);
    AroundSource(q, i);
    var before, after := Fields(p)[..6] + SourcesFields(p.sources[..i]),
                         [Decimal(s.aggregateRevision)] + SourcesFields(p.sources[i + 1..]);
    assert q.sources[..i] == p.sources[..i] && q.sources[i + 1..] == p.sources[i + 1..];
    assert Fields(q)[..6] == Fields(p)[..6];
    SameMiddle(before, [u, v], [s.itemID, s.contentHash], after);
  }

  /** The fields of a proposal around those of one source. */
  lemma AroundSource(p: Proposal, i: nat)
    requires i < |p.sources|
    ensures
      var s := p.sources[i];
      Fields(p) == Fields(p)[..6] + SourcesFields(p.sources[..i]) + [s.itemID, s.contentHash]
                   + ([Decimal(s.aggregateRevision)] + SourcesFields(p.sources[i + 1..]))
  {
    var a, s, b := p.sources[..i], p.sources[i], p.sources[i + 1..];
    assert p.sources == a + ([s] + b);
    SourcesFieldsAppend(a, [s] + b);
    assert ([s] + b)[1..] == b;
    var head, front, pair, rest :=
      Fields(p)[..6], SourcesFields(a), [s.itemID, s.contentHash], [Decimal(s.aggregateRevision)] + SourcesFields(b);
    assert SourcesFields([s] + b) == pair + rest;
    assert Fields(p) == head + SourcesFields(p.sources);
    Assoc(head, front, pair + rest);
    Assoc(head + front, pair, rest);
  }

  /** With a NUL in any field there is another proposal with the same record. */
  lemma NulFieldsCollide(p: Proposal) returns (q: Proposal)
    requires !Clean(p)
    ensures q != p && Join(Fields(q)) == Join(Fields(p))
  {
    if NulFree(p.id) && NulFree(p.status) && NulFree(p.draftHash) && NulFree(p.targetBaseHash) && NulFree(p.policyVersion) {
      var i :| 0 <= i < |p.sources| && (!NulFree(p.sources[i].itemID) || !NulFree(p.sources[i].contentHash));
      q := SourceCollides(p, i);
    } else if NUL in p.id || NUL in p.status {
      q := IdOrStatusCollides(p);
    } else if NUL in p.draftHash || NUL in p.targetBaseHash {
      q := HashCollides(p);
    } else {
      q := PolicyCollides(p);
    }
  }

  /** The fields of a source are the fields of one without sources whose policy holds NULs. */
  lemma SourcesCollide(p: Proposal) returns (q: Proposal)
    requires p.sources != []
    ensures q != p && Join(Fields(q)) == Join(Fields(p))
  {
    var n := |p.sources| - 1;
    var f, last := Fields(p), p.sources[n];
    var middle := f[4..6] + SourcesFields(p.sources[..n]) + [last.itemID, last.contentHash];
    q := p.(policyVersion := Join(middle), updatedAt := last.aggregateRevision, sources := []);
    AroundSource(p, n);
    assert f == f[..4] + middle + [Decimal(last.aggregateRevision)];
    SameMiddle(f[..4], [Join(middle)], middle, [Decimal(last.aggregateRevision)]);
    assert Fields(q) == f[..4] + [Join(middle)] + [Decimal(last.aggregateRevision)];
  }

  function Nuls(s: string): nat {
    if s == [] then 0 else (if s[0] == NUL then 1 else 0) + Nuls(s[1..])
  }

  lemma {:induction false} NulsAppend(a: string, b: string)
    ensures Nuls(a + b) == Nuls(a) + Nuls(b)
  {
    if a == [] {
      assert a + b == b;
    } else {
      assert (a + b)[1..] == a[1..] + b;
      NulsAppend(a[1..], b);
    }
  }

  lemma {:induction false} NoNuls(s: string)
    ensures Nuls(s) == 0 <==> NulFree(s)
  {
    if s != [] {
      NoNuls(s[1..]);
      assert s == [s[0]] + s[1..];
    }
  }

  /** A joined text has a NUL between any two fields, and no other exactly when no field holds one. */
  lemma {:induction false} NulsOfJoin(fields: seq<string>)
    requires fields != []
    ensures Nuls(Join(fields)) >= |fields| - 1
    ensures Nuls(Join(fields)) == |fields| - 1 <==> forall i | 0 <= i < |fields| :: NulFree(fields[i])
  {
    NoNuls(fields[0]);
    if |fields| > 1 {
      NulsOfJoin(fields[1..]);
      NulsAppend(fields[0] + [NUL], Join(fields[1..]));
      NulsAppend(fields[0], [NUL]);
      assert Nuls([NUL]) == 1;
      assert forall i | 0 < i < |fields| :: fields[i] == fields[1..][i - 1];
    }
  }

  lemma {:induction false} SourcesFieldsCount(sources: seq<Source>)
    ensures |SourcesFields(sources)| == 3 * |sources|
  {
    if sources != [] {
      SourcesFieldsCount(sources[1..]);
    }
  }

  /** A clean proposal without sources shares its record with no other proposal at all. */
  lemma OwnRecord(p: Proposal, q: Proposal)
    requires Clean(p) && p.sources == [] && Join(Fields(q)) == Join(Fields(p))
    ensures q == p
  {
    DecimalParses(p.updatedAt);
    NulsOfJoin(Fields(p));
    NulsOfJoin(Fields(q));
    SourcesFieldsCount(q.sources);
    assert |Fields(p)| == 6;
    var f := Fields(q);
    assert NulFree(f[0]) && NulFree(f[1]) && NulFree(f[2]) && NulFree(f[3]) && NulFree(f[4]);
    RecordIsInjective(p, q);
  }

  /**
    No other proposal has the record of `p` exactly when no field of `p` holds a NUL and it has
    no sources; among proposals without NULs no two share a record.
  */
  lemma OwnRecordExactly(p: Proposal)
    ensures (forall q | Join(Fields(q)) == Join(Fields(p)) :: q == p) <==> Clean(p) && p.sources == []
  {
    if Clean(p) && p.sources == [] {
      forall q | Join(Fields(q)) == Join(Fields(p))
        ensures q == p
      {
        OwnRecord(p, q);
      }
    } else if !Clean(p) {
      var q := NulFieldsCollide(p);
    } else {
      var q := SourcesCollide(p);
    }
  }

  // ---------------------------------------------------------------- the guarded change

  /**
    Changes the proposal only when its revision is the one that was reviewed; when the hash does
    not collide on the two records, only when the proposal itself is.  The change may fail, and so
    may what follows it, after it was made.
  */
  method MutateReviewedPromotion(reviewed: Proposal, latest: Proposal, reviewable: bool, finishes: bool,
                                 hash: string -> string, mutate: Proposal -> Option<Proposal>)
    returns (ok: bool, stored: Proposal)
    requires Clean(reviewed) && Clean(latest)
    requires hash(Join(Fields(reviewed))) == hash(Join(Fields(latest))) ==> Join(Fields(reviewed)) == Join(Fields(latest))
    ensures ok <==> reviewable && latest == reviewed && mutate(reviewed).Some? && finishes
    ensures stored == if reviewable && latest == reviewed && mutate(reviewed).Some? then mutate(reviewed).value else latest
  {
    ok, stored := false, latest;
    if !reviewable {
      return;
    }
    var expected := PromotionRecord(reviewed);
    var current := PromotionRecord(latest);
    if hash(current) != hash(expected) {
      return;
    }
    RecordIsInjective(reviewed, latest);
    var updated := mutate(latest);
    if updated.None? {
      return;
    }
    stored := updated.value;
    ok := finishes;
  }
}
