/**
  Backend names (internal/execution/target.go).
*/
module BackendNames {
  import opened Texts

  const OLLAMA := "ollama"
  const LOCAL := "local"

  function Canonical(name: string): string {
    if Lower(Trim(name)) == LOCAL then OLLAMA else Lower(Trim(name))
  }

  lemma OllamaIsCanonical()
    ensures Lower(Trim(OLLAMA)) == Canonical(OLLAMA) == OLLAMA && OLLAMA != LOCAL
  {
    TrimmedStays(OLLAMA);
    var lower := Lower(OLLAMA);
    assert lower == OLLAMA;
  }

  /** Blanks around the name and the case of its letters do not matter, and `local` is read as `ollama`. */
  lemma CanonicalExactly(before: string, name: string, after: string)
    requires AllBlank(before) && AllBlank(after) && IsTrimmed(name)
    ensures
      var c := Canonical(before + name + after);
      if Lower(name) == ['l', 'o', 'c', 'a', 'l'] then c == ['o', 'l', 'l', 'a', 'm', 'a']
      else |c| == |name| && forall i | 0 <= i < |c| ::
             c[i] == if 'A' <= name[i] <= 'Z' then name[i] - 'A' + 'a' else name[i]
  {
    TrimExactly(before, name, after);
    var local, ollama := LOCAL, OLLAMA;
    assert local == ['l', 'o', 'c', 'a', 'l'] && ollama == ['o', 'l', 'l', 'a', 'm', 'a'];
  }

  /** A canonical name is its own canonical name, and the historical alias never is one. */
  lemma CanonicalTwice(name: string)
    ensures Canonical(Canonical(name)) == Canonical(name)
    ensures Canonical(name) != LOCAL
  {
    var lower := Lower(Trim(name));
    OllamaIsCanonical();
    if lower != LOCAL {
      TrimIsTrimmed(name);
      LowerKeepsTrimmed(Trim(name));
      TrimmedStays(lower);
      LowerTwice(Trim(name));
    }
  }
}
