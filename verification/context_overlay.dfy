/**
  The decision context of cmd/hufu/decisionrt_input.go: a file layer, a JSON layer and
  `--context key=value` assignments, later layers over earlier ones.
*/
module ContextOverlay {
  import opened Options
  import opened Texts

  /** A layer as decoded: not given, a JSON object, or anything else. */
  datatype Layer<V> = Absent | Decoded(values: map<string, V>) | Undecodable

  function Values<V>(layer: Layer<V>): map<string, V> {
    if layer.Decoded? then layer.values else map[]
  }

  /** An assignment names a key before its first `=`; what follows is its text. */
  predicate NamesKey(assignment: string) {
    0 < IndexOf(assignment, '=') < |assignment|
  }

  function KeyOf(assignment: string): string {
    assignment[..IndexOf(assignment, '=')]
  }

  function TextOf(assignment: string): string
    requires NamesKey(assignment)
  {
    assignment[IndexOf(assignment, '=') + 1..]
  }

  /** What an assignment names and gives; one without a `=`, or that starts with it, names nothing. */
  lemma AssignmentExactly(key: string, text: string)
    requires '=' !in key
    ensures NamesKey(key + ['='] + text) <==> key != ""
    ensures key != "" ==> KeyOf(key + ['='] + text) == key && TextOf(key + ['='] + text) == text
    ensures !NamesKey(key)
  {
    IndexAfter(key, '=', text);
  }

  /** Every assignment names a key of its own and gives it a JSON scalar. */
  ghost predicate GoodAssignments<V>(assignments: seq<string>, scalar: string -> Option<V>) {
    && (forall i | 0 <= i < |assignments| :: NamesKey(assignments[i]) && scalar(TextOf(assignments[i])).Some?)
    && forall i, j | 0 <= i < j < |assignments| :: KeyOf(assignments[i]) != KeyOf(assignments[j])
  }

  /** Some assignment gives `key` the value `value`. */
  ghost predicate Assigns<V>(assignments: seq<string>, scalar: string -> Option<V>, key: string, value: V) {
    exists i | 0 <= i < |assignments| ::
      NamesKey(assignments[i]) && KeyOf(assignments[i]) == key && scalar(TextOf(assignments[i])) == Some(value)
  }

  ghost predicate Assigned(assignments: seq<string>, key: string) {
    exists i | 0 <= i < |assignments| :: KeyOf(assignments[i]) == key
  }

  /** Writes the source layer into the target, its keys in whatever order they come. */
  method MergeDecisionRTContext<V>(target: map<string, V>, source: map<string, V>) returns (merged: map<string, V>)
    ensures merged == target + source
  {
    merged := target;
    var todo := source.Keys;
    while todo != {}
      invariant todo <= source.Keys
      invariant merged == target + map k | k in source.Keys - todo :: source[k]
    {
      var key :| key in todo;
      todo := todo - {key};
      merged := merged[key := source[key]];
    }
  }

  /**
    Succeeds exactly when both layers decode and the assignments are good; the result
    gives each key its assigned value, else the JSON layer's, else the file layer's.
  */
  method BuildDecisionRTContext<V>(file: Layer<V>, json: Layer<V>, assignments: seq<string>, scalar: string -> Option<V>)
    returns (ok: bool, context: map<string, V>)
    ensures ok <==> !file.Undecodable? && !json.Undecodable? && GoodAssignments(assignments, scalar)
    ensures !ok ==> context == map[]
    ensures ok ==> forall key | Assigned(assignments, key) ::
              key in context && Assigns(assignments, scalar, key, context[key])
    ensures ok ==> forall key | !Assigned(assignments, key) ::
              && (key in context <==> key in Values(file) || key in Values(json))
              && (key in context ==>
                  context[key] == if key in Values(json) then Values(json)[key] else Values(file)[key])
  {
    ok, context := false, map[];
    if file.Undecodable? || json.Undecodable? {
      return;
    }
    var values: map<string, V> := map[];
    if file.Decoded? {
      values := MergeDecisionRTContext(values, file.values);
    }
    if json.Decoded? {
      values := MergeDecisionRTContext(values, json.values);
    }
    ghost var layers := values;
    var seen: set<string> := {};
    for i := 0 to |assignments|
      invariant GoodAssignments(assignments[..i], scalar)
      invariant forall k :: k in seen <==> Assigned(assignments[..i], k)
      invariant forall k | k in seen :: k in values && Assigns(assignments[..i], scalar, k, values[k])
      invariant forall k | k !in seen :: (k in values <==> k in layers) && (k in values ==> values[k] == layers[k])
    {
      var assignment := assignments[i];
      ghost var before := assignments[..i];
      assert assignments[..i + 1] == before + [assignment];
      var cut := IndexOf(assignment, '=');
      if cut == |assignment| || cut == 0 {
        assert !NamesKey(assignments[i]);
        return;
      }
      var key, text := assignment[..cut], assignment[cut + 1..];
      if key in seen {
        var j :| 0 <= j < i && KeyOf(assignments[j]) == key;
        assert KeyOf(assignments[j]) == KeyOf(assignments[i]);
        return;
      }
      var value := scalar(text);
      if value == None {
        assert scalar(TextOf(assignments[i])) == None;
        return;
      }
      seen := seen + {key};
      values := values[key := value.value];
      AssignOne(before, scalar, assignment, values);
    }
    assert assignments[..|assignments|] == assignments;
    ok, context := true, values;
  }

  lemma AssignOne<V>(before: seq<string>, scalar: string -> Option<V>, assignment: string, values: map<string, V>)
    requires GoodAssignments(before, scalar) && NamesKey(assignment) && scalar(TextOf(assignment)).Some?
    requires !Assigned(before, KeyOf(assignment))
    ensures
      var after := before + [assignment];
      && GoodAssignments(after, scalar)
      && (forall k :: Assigned(after, k) <==> Assigned(before, k) || k == KeyOf(assignment))
      && (forall k, v | Assigns(before, scalar, k, v) :: Assigns(after, scalar, k, v))
      && Assigns(after, scalar, KeyOf(assignment), scalar(TextOf(assignment)).value)
  {
    var after := before + [assignment];
    assert after[|before|] == assignment;
    forall k | Assigned(before, k)
      ensures Assigned(after, k)
    {
      var i :| 0 <= i < |before| && KeyOf(before[i]) == k;
      assert after[i] == before[i];
    }
    forall k, v | Assigns(before, scalar, k, v)
      ensures Assigns(after, scalar, k, v)
    {
      var i :| 0 <= i < |before| && NamesKey(before[i]) && KeyOf(before[i]) == k && scalar(TextOf(before[i])) == Some(v);
      assert after[i] == before[i];
    }
    forall i, j | 0 <= i < j < |after|
      ensures KeyOf(after[i]) != KeyOf(after[j])
    {
      assert after[i] == before[i];
    }
  }
}
