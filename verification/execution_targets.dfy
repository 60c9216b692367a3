/**
  Execution targets (internal/execution/target.go): the selectors an operator writes and the
  canonical targets that are kept, as text and back.
*/
module ExecutionTargets {
  import opened Options
  import opened Texts
  import opened BackendNames

  /** A selector as parsed; no backend when it names just a model. */
  datatype Selector = Selector(backend: string, model: string)

  datatype Target = Target(backend: string, model: string) {
    predicate IsZero() {
      backend == "" && model == ""
    }

    function Show(): string {
      if backend == "" then model else backend + ['/'] + model
    }
  }

  predicate IsNameStart(c: char) {
    'a' <= c <= 'z' || '0' <= c <= '9'
  }

  predicate IsBackendName(s: string) {
    && s != "" && IsNameStart(s[0])
    && forall i | 0 <= i < |s| :: IsNameStart(s[i]) || s[i] in {'.', '_', '-'}
  }

  predicate NoBlank(s: string) {
    forall i | 0 <= i < |s| :: !IsBlank(s[i])
  }

  predicate IsValid(t: Target) {
    && t.backend != "" && t.model != ""
    && Trim(t.backend) == t.backend && IsBackendName(t.backend)
    && Trim(t.model) == t.model && NoBlank(t.model)
    && Lower(Trim(t.backend)) == t.backend
  }

  function Parse(raw: string): Option<Selector> {
    if raw == "" || Trim(raw) != raw || !NoBlank(raw) then None
    else
      var i := IndexOf(raw, '/');
      if i == |raw| then Some(Selector("", raw))
      else if i == 0 || i + 1 == |raw| then None
      else
        var backend := Canonical(raw[..i]);
        if IsBackendName(backend) then Some(Selector(backend, raw[i + 1..])) else None
  }

  // ---------------------------------------------------------------- text and back

  lemma NoBlankIsTrimmed(s: string)
    requires NoBlank(s)
    ensures Trim(s) == s
  {
    TrimmedStays(s);
  }

  /** A plain name: lower-case letters, digits and inner or final dots, underscores and hyphens. */
  lemma PlainNameExactly(s: string)
    ensures IsBackendName(s)
       <==> (&& s != "" && s[0] !in {'.', '_', '-'}
             && forall i | 0 <= i < |s| :: 'a' <= s[i] <= 'z' || '0' <= s[i] <= '9' || s[i] in {'.', '_', '-'})
  {
  }

  lemma NamesHaveNoSlash(s: string)
    requires IsBackendName(s)
    ensures '/' !in s && NoBlank(s)
  {
  }

  /** Parsing a selector with a slash, whose first slash ends the backend. */
  lemma ParseQualified(backend: string, model: string)
    requires '/' !in backend
    ensures
      Parse(backend + ['/'] + model)
        == if backend != "" && model != "" && NoBlank(backend) && NoBlank(model) && IsBackendName(Canonical(backend))
           then Some(Selector(Canonical(backend), model))
           else None
  {
    var raw := backend + ['/'] + model;
    BlanksOfParts(backend, model);
    if NoBlank(raw) {
      NoBlankIsTrimmed(raw);
      IndexAfter(backend, '/', model);
      assert raw[..|backend|] == backend && raw[|backend| + 1..] == model;
    }
  }

  lemma BlanksOfParts(backend: string, model: string)
    ensures NoBlank(backend + ['/'] + model) <==> NoBlank(backend) && NoBlank(model)
  {
    var raw := backend + ['/'] + model;
    assert raw[..|backend|] == backend && raw[|backend| + 1..] == model && !IsBlank('/');
    if NoBlank(raw) {
      assert forall i | 0 <= i < |backend| :: raw[i] == backend[i];
      assert forall i | 0 <= i < |model| :: raw[i + |backend| + 1] == model[i];
    }
  }

  /** Parsing a selector without one. */
  lemma ParseBare(model: string)
    requires '/' !in model
    ensures Parse(model) == if model != "" && NoBlank(model) then Some(Selector("", model)) else None
  {
    if NoBlank(model) {
      NoBlankIsTrimmed(model);
    }
  }

  /** A name is canonical when canonicalising keeps it. */
  lemma CanonicalIsLower(name: string)
    requires Canonical(name) == name
    ensures Lower(Trim(name)) == name && name != LOCAL
  {
    CanonicalTwice(name);
    OllamaIsCanonical();
  }

  lemma OllamaIsName()
    ensures IsBackendName(OLLAMA)
  {
  }

  /**
    A valid target is read back from its text, except that the historical alias becomes the
    name it stands for; so a target is its own reading exactly when it does not use the alias.
  */
  lemma TargetReadsBack(t: Target)
    requires IsValid(t)
    ensures Parse(t.Show()) == Some(Selector(Canonical(t.backend), t.model))
    ensures Canonical(t.backend) == t.backend <==> t.backend != LOCAL
  {
    NamesHaveNoSlash(t.backend);
    OllamaIsName();
    OllamaIsCanonical();
    ParseQualified(t.backend, t.model);
  }

  /** What a qualified selector selects is a valid target, and reading its text selects it again. */
  lemma SelectionIsStable(raw: string, sel: Selector)
    requires Parse(raw) == Some(sel) && sel.backend != ""
    ensures
      var t := Target(sel.backend, sel.model);
      IsValid(t) && t.backend != LOCAL && Parse(t.Show()) == Some(sel)
  {
    var i := IndexOf(raw, '/');
    CanonicalTwice(raw[..i]);
    CanonicalIsLower(sel.backend);
    NamesHaveNoSlash(sel.backend);
    NoBlankIsTrimmed(sel.backend);
    NoBlankIsTrimmed(sel.model);
    TargetReadsBack(Target(sel.backend, sel.model));
  }
}
