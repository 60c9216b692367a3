/**
  The duplicate-key JSON scanner of cmd/hufu/decisionrt_input.go, over a decoder seen as
  a token sequence with a cursor.

  The rule it enforces is that member names of an object are unique (section 4 of
  RFC 8259, made mandatory by section 2.3 of RFC 7493).
*/
module JsonScanner {
  import opened Options

  datatype Token = OpenObject | CloseObject | OpenArray | CloseArray | Text(text: string) | Literal(literal: string)

  datatype Value =
    | TextValue(text: string)
    | LiteralValue(literal: string)
    | Array(items: Values)
    | Object(members: Members)

  datatype Values = NoValues | Values(first: Value, rest: Values)

  datatype Members = NoMembers | Members(key: string, value: Value, rest: Members)

  // ---------------------------------------------------------------- the documents

  /** The tokens of a document, in order. */
  function Flatten(v: Value): seq<Token> {
    match v
    case TextValue(text) => [Text(text)]
    case LiteralValue(literal) => [Literal(literal)]
    case Array(items) => [OpenArray] + FlattenItems(items) + [CloseArray]
    case Object(members) => [OpenObject] + FlattenMembers(members) + [CloseObject]
  }

  function FlattenItems(vs: Values): seq<Token> {
    match vs
    case NoValues => []
    case Values(first, rest) => Flatten(first) + FlattenItems(rest)
  }

  function FlattenMembers(ms: Members): seq<Token> {
    match ms
    case NoMembers => []
    case Members(key, value, rest) => [Text(key)] + Flatten(value) + FlattenMembers(rest)
  }

  function Keys(ms: Members): seq<string> {
    match ms
    case NoMembers => []
    case Members(key, _, rest) => [key] + Keys(rest)
  }

  ghost predicate Distinct(keys: seq<string>) {
    forall i, j | 0 <= i < j < |keys| :: keys[i] != keys[j]
  }

  /** No object at any depth repeats a member name. */
  ghost predicate UniqueNames(v: Value) {
    match v
    case TextValue(_) => true
    case LiteralValue(_) => true
    case Array(items) => UniqueInItems(items)
    case Object(members) => Distinct(Keys(members)) && UniqueInMembers(members)
  }

  ghost predicate UniqueInItems(vs: Values) {
    match vs
    case NoValues => true
    case Values(first, rest) => UniqueNames(first) && UniqueInItems(rest)
  }

  ghost predicate UniqueInMembers(ms: Members) {
    match ms
    case NoMembers => true
    case Members(_, value, rest) => UniqueNames(value) && UniqueInMembers(rest)
  }

  /** `x` is the value `v` or stands inside it at some depth. */
  ghost predicate Inside(x: Value, v: Value) {
    || x == v
    || match v
       case TextValue(_) => false
       case LiteralValue(_) => false
       case Array(items) => InsideItems(x, items)
       case Object(members) => InsideMembers(x, members)
  }

  ghost predicate InsideItems(x: Value, vs: Values) {
    vs.Values? && (Inside(x, vs.first) || InsideItems(x, vs.rest))
  }

  ghost predicate InsideMembers(x: Value, ms: Members) {
    ms.Members? && (Inside(x, ms.value) || InsideMembers(x, ms.rest))
  }

  ghost predicate RepeatsName(x: Value) {
    x.Object? && exists i, j | 0 <= i < j < |Keys(x.members)| :: Keys(x.members)[i] == Keys(x.members)[j]
  }

  /** A document has unique names exactly when no object in it, at any depth, repeats one. */
  lemma {:induction false} UniqueNamesExactly(v: Value)
    ensures UniqueNames(v) <==> forall x | Inside(x, v) :: !RepeatsName(x)
  {
    match v
    case TextValue(_) =>
    case LiteralValue(_) =>
    case Array(items) =>
      UniqueItemsExactly(items);
      assert forall x :: Inside(x, v) <==> x == v || InsideItems(x, items);
    case Object(members) =>
      UniqueMembersExactly(members);
      assert forall x :: Inside(x, v) <==> x == v || InsideMembers(x, members);
      assert Distinct(Keys(members)) <==> !RepeatsName(v);
      assert Inside(v, v);
  }

  lemma {:induction false} UniqueItemsExactly(vs: Values)
    ensures UniqueInItems(vs) <==> forall x | InsideItems(x, vs) :: !RepeatsName(x)
  {
    match vs
    case NoValues =>
    case Values(first, rest) =>
      UniqueNamesExactly(first);
      UniqueItemsExactly(rest);
      assert forall x :: InsideItems(x, vs) <==> Inside(x, first) || InsideItems(x, rest);
  }

  lemma {:induction false} UniqueMembersExactly(ms: Members)
    ensures UniqueInMembers(ms) <==> forall x | InsideMembers(x, ms) :: !RepeatsName(x)
  {
    match ms
    case NoMembers =>
    case Members(_, value, rest) =>
      UniqueNamesExactly(value);
      UniqueMembersExactly(rest);
      assert forall x :: InsideMembers(x, ms) <==> Inside(x, value) || InsideMembers(x, rest);
  }

  // ---------------------------------------------------------------- the scan as a function

  function ScanValue(tokens: seq<Token>, i: nat): (end: Option<nat>)
    requires i <= |tokens|
    ensures end.Some? ==> i < end.value <= |tokens|
    decreases |tokens| - i, 1
  {
    if i == |tokens| then None
    else
      match tokens[i]
      case OpenObject => ScanMembers(tokens, i + 1, {})
      case OpenArray => ScanItems(tokens, i + 1)
      case CloseObject => None
      case CloseArray => None
      case _ => Some(i + 1)
  }

  function ScanMembers(tokens: seq<Token>, i: nat, seen: set<string>): (end: Option<nat>)
    requires i <= |tokens|
    ensures end.Some? ==> i < end.value <= |tokens|
    decreases |tokens| - i, 2
  {
    if i == |tokens| || tokens[i] == CloseArray then None
    else if tokens[i] == CloseObject then Some(i + 1)
    else if !tokens[i].Text? || tokens[i].text in seen then None
    else
      match ScanValue(tokens, i + 1)
      case None => None
      case Some(j) => ScanMembers(tokens, j, seen + {tokens[i].text})
  }

  function ScanItems(tokens: seq<Token>, i: nat): (end: Option<nat>)
    requires i <= |tokens|
    ensures end.Some? ==> i < end.value <= |tokens|
    decreases |tokens| - i, 2
  {
    if i == |tokens| || tokens[i] == CloseObject then None
    else if tokens[i] == CloseArray then Some(i + 1)
    else
      match ScanValue(tokens, i)
      case None => None
      case Some(j) => ScanItems(tokens, j)
  }

  predicate Accepts(tokens: seq<Token>) {
    ScanValue(tokens, 0) == Some(|tokens|)
  }

  // ---------------------------------------------------------------- the scanner

  class Decoder {
    const tokens: seq<Token>
    var cursor: nat

    constructor (tokens: seq<Token>)
      ensures this.tokens == tokens && cursor == 0
    {
      this.tokens, cursor := tokens, 0;
    }

    predicate Valid()
      reads this
    {
      cursor <= |tokens|
    }

    method Token() returns (token: Option<Token>)
      requires Valid()
      modifies this
      ensures Valid()
      ensures old(cursor) == |tokens| ==> token == None && cursor == old(cursor)
      ensures old(cursor) < |tokens| ==> token == Some(tokens[old(cursor)]) && cursor == old(cursor) + 1
    {
      if cursor == |tokens| {
        return None;
      }
      token := Some(tokens[cursor]);
      cursor := cursor + 1;
    }

    predicate AtElement()
      reads this
      requires Valid()
    {
      cursor < |tokens| && tokens[cursor] != CloseObject && tokens[cursor] != CloseArray
    }

    /** There is another element before the end of the array or object being read. */
    method More() returns (more: bool)
      requires Valid()
      ensures more <==> AtElement()
    {
      more := cursor < |tokens| && tokens[cursor] != CloseObject && tokens[cursor] != CloseArray;
    }
  }

  method ScanDecisionRTJSONValue(decoder: Decoder) returns (ok: bool)
    requires decoder.Valid()
    modifies decoder
    ensures decoder.Valid()
    ensures ok <==> ScanValue(decoder.tokens, old(decoder.cursor)).Some?
    ensures ok ==> ScanValue(decoder.tokens, old(decoder.cursor)) == Some(decoder.cursor)
    decreases |decoder.tokens| - decoder.cursor, 1
  {
    var token := decoder.Token();
    if token == None {
      return false;
    }
    match token.value
    case OpenObject => ok := ScanObject(decoder);
    case OpenArray => ok := ScanArray(decoder);
    case CloseObject => ok := false;
    case CloseArray => ok := false;
    case _ => ok := true;
  }

  method ScanObject(decoder: Decoder) returns (ok: bool)
    requires decoder.Valid()
    modifies decoder
    ensures decoder.Valid()
    ensures ok <==> ScanMembers(decoder.tokens, old(decoder.cursor), {}).Some?
    ensures ok ==> ScanMembers(decoder.tokens, old(decoder.cursor), {}) == Some(decoder.cursor)
    decreases |decoder.tokens| - decoder.cursor, 2
  {
    ghost var goal := ScanMembers(decoder.tokens, decoder.cursor, {});
    var seen: set<string> := {};
    var more := decoder.More();
    while more
      invariant decoder.Valid() && old(decoder.cursor) <= decoder.cursor
      invariant goal == ScanMembers(decoder.tokens, decoder.cursor, seen)
      invariant more <==> decoder.AtElement()
      decreases |decoder.tokens| - decoder.cursor
    {
      var keyToken := decoder.Token();
      if keyToken == None || !keyToken.value.Text? {
        return false;
      }
      var key := keyToken.value.text;
      if key in seen {
        return false;
      }
      seen := seen + {key};
      ok := ScanDecisionRTJSONValue(decoder);
      if !ok {
        return;
      }
      more := decoder.More();
    }
    var end := decoder.Token();
    ok := end == Some(CloseObject);
  }

  method ScanArray(decoder: Decoder) returns (ok: bool)
    requires decoder.Valid()
    modifies decoder
    ensures decoder.Valid()
    ensures ok <==> ScanItems(decoder.tokens, old(decoder.cursor)).Some?
    ensures ok ==> ScanItems(decoder.tokens, old(decoder.cursor)) == Some(decoder.cursor)
    decreases |decoder.tokens| - decoder.cursor, 2
  {
    ghost var goal := ScanItems(decoder.tokens, decoder.cursor);
    var more := decoder.More();
    while more
      invariant decoder.Valid() && old(decoder.cursor) <= decoder.cursor
      invariant goal == ScanItems(decoder.tokens, decoder.cursor)
      invariant more <==> decoder.AtElement()
      decreases |decoder.tokens| - decoder.cursor
    {
      ok := ScanDecisionRTJSONValue(decoder);
      if !ok {
        return;
      }
      more := decoder.More();
    }
    var end := decoder.Token();
    ok := end == Some(CloseArray);
  }

  method RejectDecisionRTDuplicateJSONKeys(tokens: seq<Token>) returns (ok: bool)
    ensures ok <==> exists v :: Flatten(v) == tokens && UniqueNames(v)
  {
    var decoder := new Decoder(tokens);
    ok := ScanDecisionRTJSONValue(decoder);
    if ok {
      ok := decoder.cursor == |tokens|;
    }
    AcceptedExactly(tokens);
  }

  // ---------------------------------------------------------------- exactness

  /** `part` stands in `tokens` from position `i` on. */
  predicate At(tokens: seq<Token>, i: nat, part: seq<Token>) {
    i + |part| <= |tokens| && tokens[i..i + |part|] == part
  }

  lemma AtSplit(tokens: seq<Token>, i: nat, a: seq<Token>, b: seq<Token>)
    ensures At(tokens, i, a + b) <==> At(tokens, i, a) && At(tokens, i + |a|, b)
  {
    assert (a + b)[..|a|] == a && (a + b)[|a|..] == b;
    if i + |a| + |b| <= |tokens| {
      var part := tokens[i..i + |a| + |b|];
      assert part[..|a|] == tokens[i..i + |a|] && part[|a|..] == tokens[i + |a|..i + |a| + |b|];
      assert part == part[..|a|] + part[|a|..];
    }
  }

  lemma AtOne(tokens: seq<Token>, i: nat, t: Token)
    ensures At(tokens, i, [t]) <==> i < |tokens| && tokens[i] == t
  {
  }

  /** Where the parts of a bracketed sequence stand. */
  lemma AtBracket(tokens: seq<Token>, i: nat, open: Token, inner: seq<Token>, close: Token)
    ensures At(tokens, i, [open] + inner + [close])
       <==> i < |tokens| && tokens[i] == open && At(tokens, i + 1, inner + [close])
  {
    assert [open] + inner + [close] == [open] + (inner + [close]);
    AtSplit(tokens, i, [open], inner + [close]);
    AtOne(tokens, i, open);
  }

  lemma AtItems(tokens: seq<Token>, i: nat, first: Value, rest: Values)
    ensures At(tokens, i, FlattenItems(Values(first, rest)) + [CloseArray])
       <==> At(tokens, i, Flatten(first)) && At(tokens, i + |Flatten(first)|, FlattenItems(rest) + [CloseArray])
    ensures At(tokens, i, Flatten(first)) ==>
      i < |tokens| && tokens[i] != CloseArray && tokens[i] != CloseObject
  {
    var tail := FlattenItems(rest) + [CloseArray];
    assert FlattenItems(Values(first, rest)) + [CloseArray] == Flatten(first) + tail;
    AtSplit(tokens, i, Flatten(first), tail);
    FlattenStarts(first);
    AtFirst(tokens, i, Flatten(first));
  }

  lemma AtFirst(tokens: seq<Token>, i: nat, part: seq<Token>)
    requires part != []
    ensures At(tokens, i, part) ==> i < |tokens| && tokens[i] == part[0]
  {
    if At(tokens, i, part) {
      assert tokens[i..i + |part|][0] == part[0];
    }
  }

  lemma AtMembers(tokens: seq<Token>, i: nat, key: string, value: Value, rest: Members)
    ensures At(tokens, i, FlattenMembers(Members(key, value, rest)) + [CloseObject])
       <==> i < |tokens| && tokens[i] == Text(key) && At(tokens, i + 1, Flatten(value))
            && At(tokens, i + 1 + |Flatten(value)|, FlattenMembers(rest) + [CloseObject])
    ensures |FlattenMembers(Members(key, value, rest))| == 1 + |Flatten(value)| + |FlattenMembers(rest)|
  {
    var tail := FlattenMembers(rest) + [CloseObject];
    assert FlattenMembers(Members(key, value, rest)) + [CloseObject] == [Text(key)] + (Flatten(value) + tail);
    AtSplit(tokens, i, [Text(key)], Flatten(value) + tail);
    AtOne(tokens, i, Text(key));
    AtSplit(tokens, i + 1, Flatten(value), tail);
  }

  lemma AtEmpty(tokens: seq<Token>, i: nat, inner: seq<Token>, close: Token)
    requires inner == []
    ensures At(tokens, i, inner + [close]) <==> i < |tokens| && tokens[i] == close
  {
    assert inner + [close] == [close];
    AtOne(tokens, i, close);
  }

  predicate Fresh(ms: Members, seen: set<string>) {
    forall k | k in Keys(ms) :: k !in seen
  }

  /** On the tokens of a document the scan stops right behind it, unless a name repeats. */
  lemma {:induction false} ScanComplete(tokens: seq<Token>, i: nat, v: Value)
    requires i <= |tokens| && At(tokens, i, Flatten(v))
    ensures ScanValue(tokens, i) == if UniqueNames(v) then Some(i + |Flatten(v)|) else None
    decreases v
  {
    match v
    case TextValue(text) =>
      AtOne(tokens, i, Text(text));
    case LiteralValue(literal) =>
      AtOne(tokens, i, Literal(literal));
    case Array(items) =>
      AtBracket(tokens, i, OpenArray, FlattenItems(items), CloseArray);
      ItemsComplete(tokens, i + 1, items);
      BracketThenItems(tokens, i, items);
    case Object(members) =>
      AtBracket(tokens, i, OpenObject, FlattenMembers(members), CloseObject);
      MembersComplete(tokens, i + 1, members, {});
      BracketThenMembers(tokens, i, members);
  }

  lemma BracketThenItems(tokens: seq<Token>, i: nat, items: Values)
    requires i < |tokens| && tokens[i] == OpenArray
    requires ScanItems(tokens, i + 1) == if UniqueInItems(items) then Some(i + 1 + |FlattenItems(items)| + 1) else None
    ensures
      var v := Array(items);
      ScanValue(tokens, i) == if UniqueNames(v) then Some(i + |Flatten(v)|) else None
  {
  }

  lemma BracketThenMembers(tokens: seq<Token>, i: nat, members: Members)
    requires i < |tokens| && tokens[i] == OpenObject
    requires ScanMembers(tokens, i + 1, {})
      == if Fresh(members, {}) && Distinct(Keys(members)) && UniqueInMembers(members)
         then Some(i + 1 + |FlattenMembers(members)| + 1) else None
    ensures
      var v := Object(members);
      ScanValue(tokens, i) == if UniqueNames(v) then Some(i + |Flatten(v)|) else None
  {
  }

  lemma {:induction false} FlattenStarts(v: Value)
    ensures Flatten(v) != [] && Flatten(v)[0] != CloseObject && Flatten(v)[0] != CloseArray
  {
  }

  lemma {:induction false} ItemsComplete(tokens: seq<Token>, i: nat, vs: Values)
    requires i <= |tokens| && At(tokens, i, FlattenItems(vs) + [CloseArray])
    ensures ScanItems(tokens, i) == if UniqueInItems(vs) then Some(i + |FlattenItems(vs)| + 1) else None
    decreases vs
  {
    match vs
    case NoValues =>
      AtEmpty(tokens, i, FlattenItems(vs), CloseArray);
    case Values(first, rest) =>
      AtItems(tokens, i, first, rest);
      ScanComplete(tokens, i, first);
      ItemsComplete(tokens, i + |Flatten(first)|, rest);
      ItemThenRest(tokens, i, first, rest);
  }

  /** The scan of an item and then of the rest is the scan of all. */
  lemma ItemThenRest(tokens: seq<Token>, i: nat, first: Value, rest: Values)
    requires i < |tokens| && tokens[i] != CloseArray && tokens[i] != CloseObject && i + |Flatten(first)| <= |tokens|
    requires ScanValue(tokens, i) == if UniqueNames(first) then Some(i + |Flatten(first)|) else None
    requires
      var j := i + |Flatten(first)|;
      ScanItems(tokens, j) == if UniqueInItems(rest) then Some(j + |FlattenItems(rest)| + 1) else None
    ensures
      var vs := Values(first, rest);
      ScanItems(tokens, i) == if UniqueInItems(vs) then Some(i + |FlattenItems(vs)| + 1) else None
  {
  }

  /** The scan from `i` deals with the members as it should: stops behind them, or fails on a repeated name. */
  ghost predicate MembersScanned(tokens: seq<Token>, i: nat, ms: Members, seen: set<string>)
    requires i <= |tokens|
  {
    ScanMembers(tokens, i, seen)
      == if Fresh(ms, seen) && Distinct(Keys(ms)) && UniqueInMembers(ms)
         then Some(i + |FlattenMembers(ms)| + 1) else None
  }

  ghost predicate MemberPassed(tokens: seq<Token>, i: nat, key: string, value: Value, seen: set<string>)
    requires i + 1 + |Flatten(value)| <= |tokens|
  {
    ScanMembers(tokens, i, seen)
      == if key in seen || !UniqueNames(value) then None
         else ScanMembers(tokens, i + 1 + |Flatten(value)|, seen + {key})
  }

  lemma {:induction false} MembersComplete(tokens: seq<Token>, i: nat, ms: Members, seen: set<string>)
    requires i <= |tokens| && At(tokens, i, FlattenMembers(ms) + [CloseObject])
    ensures MembersScanned(tokens, i, ms, seen)
    decreases ms
  {
    match ms
    case NoMembers =>
      AtEmpty(tokens, i, FlattenMembers(ms), CloseObject);
    case Members(key, value, rest) =>
      AtMembers(tokens, i, key, value, rest);
      ScanComplete(tokens, i + 1, value);
      MembersComplete(tokens, i + 1 + |Flatten(value)|, rest, seen + {key});
      OneMember(tokens, i, key, value, seen);
      MemberThenRest(tokens, i, key, value, rest, seen);
  }

  /** A member is scanned past unless its name was seen or its value repeats one. */
  lemma OneMember(tokens: seq<Token>, i: nat, key: string, value: Value, seen: set<string>)
    requires i < |tokens| && tokens[i] == Text(key) && i + 1 + |Flatten(value)| <= |tokens|
    requires ScanValue(tokens, i + 1) == if UniqueNames(value) then Some(i + 1 + |Flatten(value)|) else None
    ensures MemberPassed(tokens, i, key, value, seen)
  {
  }

  /** The scan of a member and then of the rest is the scan of all. */
  lemma MemberThenRest(tokens: seq<Token>, i: nat, key: string, value: Value, rest: Members, seen: set<string>)
    requires i + 1 + |Flatten(value)| <= |tokens| && MemberPassed(tokens, i, key, value, seen)
    requires MembersScanned(tokens, i + 1 + |Flatten(value)|, rest, seen + {key})
    ensures MembersScanned(tokens, i, Members(key, value, rest), seen)
  {
    FreshStep(key, value, rest, seen);
  }

  lemma FreshStep(key: string, value: Value, rest: Members, seen: set<string>)
    ensures
      var ms := Members(key, value, rest);
      (Fresh(ms, seen) && Distinct(Keys(ms))) <==>
      (key !in seen && Fresh(rest, seen + {key}) && Distinct(Keys(rest)))
  {
    var ms := Members(key, value, rest);
    DistinctFirst(key, Keys(rest));
    assert Keys(ms) == [key] + Keys(rest);
    assert Fresh(ms, seen) <==> key !in seen && Fresh(rest, seen);
    assert Fresh(rest, seen + {key}) <==> Fresh(rest, seen) && key !in Keys(rest);
  }

  lemma DistinctFirst(key: string, keys: seq<string>)
    ensures Distinct([key] + keys) <==> key !in keys && Distinct(keys)
  {
    var all := [key] + keys;
    assert forall i | 0 <= i < |keys| :: all[i + 1] == keys[i];
    if Distinct(all) {
      forall i | 0 <= i < |keys|
        ensures keys[i] != key
      {
        assert all[0] != all[i + 1];
      }
      forall i, j | 0 <= i < j < |keys|
        ensures keys[i] != keys[j]
      {
        assert all[i + 1] != all[j + 1];
      }
    }
  }

  /** Whatever the scan accepts is the token sequence of a document with unique names. */
  lemma {:induction false} ScanSound(tokens: seq<Token>, i: nat) returns (v: Value)
    requires i <= |tokens| && ScanValue(tokens, i).Some?
    ensures At(tokens, i, Flatten(v)) && i + |Flatten(v)| == ScanValue(tokens, i).value && UniqueNames(v)
    decreases |tokens| - i, 1
  {
    match tokens[i]
    case OpenObject =>
      var ms := MembersSound(tokens, i + 1, {});
      v := Object(ms);
      AtBracket(tokens, i, OpenObject, FlattenMembers(ms), CloseObject);
    case OpenArray =>
      var vs := ItemsSound(tokens, i + 1);
      v := Array(vs);
      AtBracket(tokens, i, OpenArray, FlattenItems(vs), CloseArray);
    case Text(text) =>
      v := TextValue(text);
      AtOne(tokens, i, tokens[i]);
    case Literal(literal) =>
      v := LiteralValue(literal);
      AtOne(tokens, i, tokens[i]);
  }

  lemma {:induction false} ItemsSound(tokens: seq<Token>, i: nat) returns (vs: Values)
    requires i <= |tokens| && ScanItems(tokens, i).Some?
    ensures At(tokens, i, FlattenItems(vs) + [CloseArray])
    ensures i + |FlattenItems(vs)| + 1 == ScanItems(tokens, i).value && UniqueInItems(vs)
    decreases |tokens| - i, 2
  {
    if tokens[i] == CloseArray {
      vs := NoValues;
      AtEmpty(tokens, i, FlattenItems(vs), CloseArray);
    } else {
      var first := ScanSound(tokens, i);
      var rest := ItemsSound(tokens, ScanValue(tokens, i).value);
      vs := Values(first, rest);
      AtItems(tokens, i, first, rest);
    }
  }

  lemma {:induction false} MembersSound(tokens: seq<Token>, i: nat, seen: set<string>) returns (ms: Members)
    requires i <= |tokens| && ScanMembers(tokens, i, seen).Some?
    ensures At(tokens, i, FlattenMembers(ms) + [CloseObject])
    ensures i + |FlattenMembers(ms)| + 1 == ScanMembers(tokens, i, seen).value
    ensures Fresh(ms, seen) && Distinct(Keys(ms)) && UniqueInMembers(ms)
    decreases |tokens| - i, 2
  {
    if tokens[i] == CloseObject {
      ms := NoMembers;
      AtEmpty(tokens, i, FlattenMembers(ms), CloseObject);
    } else {
      var key := tokens[i].text;
      var value := ScanSound(tokens, i + 1);
      var rest := MembersSound(tokens, ScanValue(tokens, i + 1).value, seen + {key});
      ms := Members(key, value, rest);
      FreshStep(key, value, rest, seen);
      AtMembers(tokens, i, key, value, rest);
    }
  }

  /** The scanner followed by end of input accepts exactly the documents with unique names. */
  lemma AcceptedExactly(tokens: seq<Token>)
    ensures Accepts(tokens) <==> exists v :: Flatten(v) == tokens && UniqueNames(v)
    ensures forall v | Flatten(v) == tokens :: Accepts(tokens) <==> UniqueNames(v)
  {
    forall v | Flatten(v) == tokens
      ensures Accepts(tokens) <==> UniqueNames(v)
    {
      assert tokens[0..0 + |tokens|] == tokens;
      ScanComplete(tokens, 0, v);
    }
    if Accepts(tokens) {
      var v := ScanSound(tokens, 0);
      assert tokens[0..|tokens|] == tokens;
    }
  }
}
