/**
  Target resolution of cmd/hufu/execution_target_preflight.go: every target a run can select
  must name a backend that exists, can do the job and can be started.
*/
module TargetPreflight {
  import opened Options
  import opened Texts
  import opened BackendNames
  import opened Backends
  import opened BackendLaws
  import ET = ExecutionTargets

  /** A target as configured; `llm` when the role needs a language model. */
  datatype Candidate = Candidate(raw: string, legacyProvider: string, llm: bool)

  /** A session after its backends were unified, and the default backend of the configuration. */
  datatype Setup = Setup(providers: map<string, Provider>, agents: map<string, Agent>, defaultLLM: string, globalDefault: string)

  const HUFU_LOCAL := "hufu-local"

  // ---------------------------------------------------------------- what is demanded

  predicate IsLLMBackend(s: Setup, name: string) {
    name in {OLLAMA, LOCAL} + CanonicalKeys(s.providers)
  }

  /**
    Settings the namespace loops can end up with for the agent backends: with several entries of
    one canonical name, any of them may come last.
  */
  ghost predicate IsOffer(s: Setup, settings: map<string, Agent>) {
    && settings.Keys == {CODEX} + CanonicalKeys(s.agents)
    && Offered(s.agents, map[CODEX := BUILT_IN_CODEX], settings)
  }

  predicate Starts(a: Agent, lookup: string -> bool) {
    RunsSomething(a.command) && lookup(a.command.value[0])
  }

  /** The backend can serve a role. */
  predicate Serves(s: Setup, settings: map<string, Agent>, lookup: string -> bool, name: string, llm: bool) {
    IsLLMBackend(s, name) || (!llm && name in settings && Starts(settings[name], lookup))
  }

  /** The legacy provider that a bare model inherits, if any. */
  function Inherited(c: Candidate): string {
    if Canonical(c.legacyProvider) == HUFU_LOCAL then "" else Canonical(c.legacyProvider)
  }

  function Selected(c: Candidate): Option<ET.Selector> {
    match ET.Parse(c.raw)
    case None => None
    case Some(sel) =>
      if sel.backend == "" && Inherited(c) != "" then ET.Parse(Inherited(c) + ['/'] + sel.model) else Some(sel)
  }

  function DefaultBackend(s: Setup): string {
    Canonical(if s.defaultLLM != "" then s.defaultLLM else if s.globalDefault != "" then s.globalDefault else OLLAMA)
  }

  function BackendOf(s: Setup, sel: ET.Selector): string {
    if sel.backend == "" then DefaultBackend(s) else sel.backend
  }

  /** A candidate is not set, or selects a backend that serves its role. */
  predicate Usable(s: Setup, settings: map<string, Agent>, lookup: string -> bool, c: Candidate) {
    Trim(c.raw) == "" || (Selected(c).Some? && Serves(s, settings, lookup, BackendOf(s, Selected(c).value), c.llm))
  }

  predicate AllUsable(s: Setup, settings: map<string, Agent>, lookup: string -> bool, candidates: seq<Candidate>) {
    forall i | 0 <= i < |candidates| :: Usable(s, settings, lookup, candidates[i])
  }

  ghost predicate Ready(s: Setup) {
    NamespacesOk(s.providers, s.agents) && IsLLMBackend(s, DefaultBackend(s))
  }

  /** The preflight can succeed, and can fail; which of the two may hang on the order of entries. */
  ghost predicate CanPass(s: Setup, lookup: string -> bool, candidates: seq<Candidate>) {
    Ready(s) && exists settings :: IsOffer(s, settings) && AllUsable(s, settings, lookup, candidates)
  }

  ghost predicate CanFail(s: Setup, lookup: string -> bool, candidates: seq<Candidate>) {
    !Ready(s) || exists settings :: IsOffer(s, settings) && !AllUsable(s, settings, lookup, candidates)
  }

  // ---------------------------------------------------------------- the preflight

  method PreflightExecutionTargets(s: Setup, lookup: string -> bool, candidates: seq<Candidate>) returns (ok: bool)
    ensures if ok then CanPass(s, lookup, candidates) else CanFail(s, lookup, candidates)
  {
    var llmBackends, agentBackends;
    ok, llmBackends, agentBackends := PreflightNamespaces(s.providers, s.agents);
    if !ok {
      return;
    }
    assert IsOffer(s, agentBackends);
    var defaultLLM := ChooseDefault(s);
    if defaultLLM !in llmBackends {
      return false;
    }
    ok := CheckCandidates(s, lookup, llmBackends, agentBackends, defaultLLM, candidates);
  }

  /** The resolution loop. */
  method CheckCandidates(s: Setup, lookup: string -> bool, llmBackends: set<string>, agentBackends: map<string, Agent>,
                         defaultLLM: string, candidates: seq<Candidate>)
    returns (ok: bool)
    requires defaultLLM == DefaultBackend(s) && llmBackends == {OLLAMA, LOCAL} + CanonicalKeys(s.providers)
    ensures ok <==> AllUsable(s, agentBackends, lookup, candidates)
  {
    for i := 0 to |candidates|
      invariant forall k | 0 <= k < i :: Usable(s, agentBackends, lookup, candidates[k])
    {
      ok := CheckCandidate(s, lookup, llmBackends, agentBackends, defaultLLM, candidates[i]);
      if !ok {
        return;
      }
    }
    ok := true;
  }

  method ChooseDefault(s: Setup) returns (defaultLLM: string)
    ensures defaultLLM == DefaultBackend(s)
  {
    defaultLLM := s.defaultLLM;
    if defaultLLM == "" {
      defaultLLM := s.globalDefault;
    }
    if defaultLLM == "" {
      defaultLLM := OLLAMA;
    }
    defaultLLM := Canonical(defaultLLM);
  }

  /** One round of the resolution loop. */
  method CheckCandidate(s: Setup, lookup: string -> bool, llmBackends: set<string>, agentBackends: map<string, Agent>,
                        defaultLLM: string, c: Candidate)
    returns (ok: bool)
    requires defaultLLM == DefaultBackend(s) && llmBackends == {OLLAMA, LOCAL} + CanonicalKeys(s.providers)
    ensures ok <==> Usable(s, agentBackends, lookup, c)
  {
    if Trim(c.raw) == "" {
      return true;
    }
    var selector := SelectTarget(c);
    if selector.None? {
      return false;
    }
    var backend := selector.value.backend;
    if backend == "" {
      backend := defaultLLM;
    }
    ok := CheckBackend(s, lookup, llmBackends, agentBackends, backend, c.llm);
  }

  method SelectTarget(c: Candidate) returns (selector: Option<ET.Selector>)
    ensures selector == Selected(c)
  {
    selector := ET.Parse(c.raw);
    if selector.Some? && selector.value.backend == "" {
      var legacyProvider := Canonical(c.legacyProvider);
      if legacyProvider != "" && legacyProvider != HUFU_LOCAL {
        selector := ET.Parse(legacyProvider + ['/'] + selector.value.model);
      }
    }
  }

  method CheckBackend(s: Setup, lookup: string -> bool, llmBackends: set<string>, agentBackends: map<string, Agent>,
                      backend: string, llm: bool)
    returns (ok: bool)
    requires llmBackends == {OLLAMA, LOCAL} + CanonicalKeys(s.providers)
    ensures ok <==> Serves(s, agentBackends, lookup, backend, llm)
  {
    if backend in llmBackends {
      return true;
    }
    if backend !in agentBackends || llm {
      return false;
    }
    var command := agentBackends[backend].command;
    if command == None || command == Some([]) || Trim(command.value[0]) == "" {
      return false;
    }
    ok := lookup(command.value[0]);
  }

  /** When no two agent keys share a canonical name, the settings are determined. */
  lemma OneOffer(s: Setup, a: map<string, Agent>, b: map<string, Agent>)
    requires CanonicalNames(s.agents) && IsOffer(s, a) && IsOffer(s, b)
    ensures a == b
  {
    forall n | n in a
      ensures a[n] == b[n]
    {
      assert Comes(s.agents, map[CODEX := BUILT_IN_CODEX], n, a[n]);
      assert Comes(s.agents, map[CODEX := BUILT_IN_CODEX], n, b[n]);
      if n in CanonicalKeys(s.agents) {
        var k :| k in s.agents && Canonical(k) == n && a[n] == WithDefaultCommand(n, s.agents[k]);
        var l :| l in s.agents && Canonical(l) == n && b[n] == WithDefaultCommand(n, s.agents[l]);
      }
    }
  }

  lemma PassesOrFails(s: Setup, settings: map<string, Agent>, lookup: string -> bool, candidates: seq<Candidate>)
    requires CanonicalNames(s.agents) && IsOffer(s, settings)
    ensures CanPass(s, lookup, candidates) <==> Ready(s) && AllUsable(s, settings, lookup, candidates)
    ensures CanPass(s, lookup, candidates) <==> !CanFail(s, lookup, candidates)
  {
    forall other | IsOffer(s, other)
      ensures other == settings
    {
      OneOffer(s, other, settings);
    }
  }

  // ---------------------------------------------------------------- restored targets

  /** What a restored target is checked as: the worker of a session with no provider default. */
  function AsWorker(t: ET.Target, coordinator: Candidate): seq<Candidate> {
    [Candidate(t.Show(), "", false), coordinator]
  }

  /** The check of one task's frozen targets, each distinct one once. */
  method CheckRestored(s: Setup, lookup: string -> bool, coordinator: Candidate, targets: seq<ET.Target>) returns (ok: bool)
    ensures ok ==> forall t | t in targets && !t.IsZero() ::
              ET.IsValid(t) && CanPass(s, lookup, AsWorker(t, coordinator))
    ensures !ok ==> exists t ::
              t in targets && !t.IsZero() && (!ET.IsValid(t) || CanFail(s, lookup, AsWorker(t, coordinator)))
  {
    var seen: set<ET.Target> := {};
    for i := 0 to |targets|
      invariant forall t | t in seen :: ET.IsValid(t) && CanPass(s, lookup, AsWorker(t, coordinator))
      invariant forall k | 0 <= k < i :: targets[k].IsZero() || targets[k] in seen
    {
      var t := targets[i];
      if t.IsZero() || t in seen {
        continue;
      }
      if !ET.IsValid(t) {
        return false;
      }
      ok := PreflightExecutionTargets(s, lookup, AsWorker(t, coordinator));
      if !ok {
        return;
      }
      seen := seen + {t};
    }
    ok := true;
  }

  /**
    In a session whose own targets pass, restored targets pass exactly when each is valid and
    its backend, read through the historical alias, can serve a worker; the defaults of the
    session have no say in it.
  */
  lemma RestoredPassExactly(s: Setup, settings: map<string, Agent>, lookup: string -> bool, coordinator: Candidate,
                            t: ET.Target)
    requires CanonicalNames(s.agents) && IsOffer(s, settings)
    requires CanPass(s, lookup, [coordinator]) && ET.IsValid(t)
    ensures CanPass(s, lookup, AsWorker(t, coordinator)) <==> Serves(s, settings, lookup, Canonical(t.backend), false)
  {
    PassesOrFails(s, settings, lookup, [coordinator]);
    PassesOrFails(s, settings, lookup, AsWorker(t, coordinator));
    RestoredWorkerUsable(s, settings, lookup, t);
    BothUsable(s, settings, lookup, coordinator, t);
  }

  lemma BothUsable(s: Setup, settings: map<string, Agent>, lookup: string -> bool, coordinator: Candidate, t: ET.Target)
    ensures AllUsable(s, settings, lookup, [coordinator]) <==> Usable(s, settings, lookup, coordinator)
    ensures AllUsable(s, settings, lookup, AsWorker(t, coordinator))
       <==> Usable(s, settings, lookup, Candidate(t.Show(), "", false)) && Usable(s, settings, lookup, coordinator)
  {
    var candidates := AsWorker(t, coordinator);
    assert [coordinator][0] == coordinator;
    assert candidates[0] == Candidate(t.Show(), "", false) && candidates[1] == coordinator;
  }

  lemma RestoredWorkerUsable(s: Setup, settings: map<string, Agent>, lookup: string -> bool, t: ET.Target)
    requires ET.IsValid(t)
    ensures Usable(s, settings, lookup, Candidate(t.Show(), "", false))
       <==> Serves(s, settings, lookup, Canonical(t.backend), false)
  {
    ET.TargetReadsBack(t);
    CanonicalIsNotEmpty(t);
    assert Trim(t.Show()) == t.Show() != "";
  }

  lemma CanonicalIsNotEmpty(t: ET.Target)
    requires ET.IsValid(t)
    ensures Canonical(t.backend) != ""
  {
  }

  // ---------------------------------------------------------------- bare models and names

  /**
    What a bare model selects: the default when it inherits no provider, or the one that stands
    for the program itself, else the provider it inherits, and nothing when that has no plain name.
  */
  lemma BareModelSelects(model: string, provider: string, llm: bool)
    requires model != "" && ET.NoBlank(model) && '/' !in model && '/' !in Canonical(provider)
    ensures
      var p := Canonical(provider);
      Selected(Candidate(model, provider, llm))
        == if p == "" || p == "hufu-local" then Some(ET.Selector("", model))
           else if ET.IsBackendName(p) then Some(ET.Selector(p, model))
           else None
  {
    var p := Canonical(provider);
    ET.ParseBare(model);
    CanonicalTwice(provider);
    if Inherited(Candidate(model, provider, llm)) != "" {
      ET.ParseQualified(p, model);
      if ET.IsBackendName(p) {
        ET.NamesHaveNoSlash(p);
      }
    }
  }

  /** A provider with a slash lends only what stands before the first one; the rest becomes part of the model. */
  lemma ProviderWithSlashSelects(model: string, provider: string, before: string, after: string, llm: bool)
    requires model != "" && ET.NoBlank(model) && '/' !in model
    requires Canonical(provider) == before + ['/'] + after && '/' !in before
    ensures
      Selected(Candidate(model, provider, llm))
        == if before != "" && ET.NoBlank(before) && ET.NoBlank(after) && ET.IsBackendName(Canonical(before))
           then Some(ET.Selector(Canonical(before), after + ['/'] + model))
           else None
  {
    var c := Candidate(model, provider, llm);
    ET.ParseBare(model);
    assert Canonical(provider)[|before|] == '/';
    assert '/' !in HUFU_LOCAL;
    assert Inherited(c) == Canonical(provider);
    assert Inherited(c) + ['/'] + model == before + ['/'] + (after + ['/'] + model);
    ET.ParseQualified(before, after + ['/'] + model);
    ET.BlanksOfParts(after, model);
  }

  /**
    The default is the one of the session, else the global one, else the built-in one, and the
    preflight demands that it is a language-model backend.
  */
  lemma DefaultGoesBy(s: Setup)
    ensures s.defaultLLM != "" ==> DefaultBackend(s) == Canonical(s.defaultLLM)
    ensures s.defaultLLM == "" && s.globalDefault != "" ==> DefaultBackend(s) == Canonical(s.globalDefault)
    ensures s.defaultLLM == "" && s.globalDefault == "" ==> DefaultBackend(s) == "ollama"
    ensures Ready(s) <==> (NamespacesOk(s.providers, s.agents)
                           && (DefaultBackend(s) == "ollama" || exists k :: k in s.providers && Canonical(k) == DefaultBackend(s)))
  {
    OllamaIsCanonical();
    CanonicalTwice(s.defaultLLM);
    CanonicalTwice(s.globalDefault);
  }

  /**
    Once the preflight came past the default, a bare model that inherits no provider is served in
    every role.
  */
  lemma BareModelIsServed(s: Setup, settings: map<string, Agent>, lookup: string -> bool, model: string, provider: string, llm: bool)
    requires Ready(s) && model != "" && ET.NoBlank(model) && '/' !in model && Canonical(provider) in {"", "hufu-local"}
    ensures Usable(s, settings, lookup, Candidate(model, provider, llm))
  {
    assert '/' !in Canonical(provider);
    BareModelSelects(model, provider, llm);
  }

  /** What serves a role: any language-model backend, and for a worker also an agent backend whose executable is found. */
  lemma ServesExactly(s: Setup, settings: map<string, Agent>, lookup: string -> bool, name: string, llm: bool)
    ensures Serves(s, settings, lookup, name, llm)
       <==> (|| name in {"ollama", "local"}
             || (exists k :: k in s.providers && Canonical(k) == name)
             || (&& !llm && name in settings && settings[name].command.Some?
                 && settings[name].command.value != [] && Trim(settings[name].command.value[0]) != ""
                 && lookup(settings[name].command.value[0])))
  {
  }

  /**
    What the resolution loop sees of the agent backends: the built-in one unless an entry has its
    name, and every entry as it is, except that one of the built-in name and type and without a
    command runs the built-in command.
  */
  lemma OfferExactly(s: Setup, settings: map<string, Agent>, key: string)
    requires IsOffer(s, settings) && CanonicalNames(s.agents)
    ensures (forall k | k in s.agents :: Canonical(k) != "codex") ==>
              "codex" in settings && settings["codex"] == BUILT_IN_CODEX
              && settings["codex"].command == Some(["codex", "app-server"]) && settings["codex"].kind == "codex-app-server"
    ensures key in s.agents ==>
              var a, name := s.agents[key], Canonical(key);
              name in settings && settings[name]
                == if name == "codex" && a.kind == "codex-app-server" && (a.command == None || a.command == Some([]))
                   then a.(command := Some(["codex", "app-server"])) else a
  {
    if forall k | k in s.agents :: Canonical(k) != "codex" {
      assert Comes(s.agents, map[CODEX := BUILT_IN_CODEX], CODEX, settings[CODEX]);
    }
    if key in s.agents {
      var name := Canonical(key);
      assert name in CanonicalKeys(s.agents);
      assert Comes(s.agents, map[CODEX := BUILT_IN_CODEX], name, settings[name]);
    }
  }

  /**
    What a qualified selector can reach is named by a plain canonical name: a backend that is
    configured under any other name serves only as the default.
  */
  lemma ReachedByPlainName(c: Candidate, sel: ET.Selector)
    requires Selected(c) == Some(sel) && sel.backend != ""
    ensures ET.IsBackendName(sel.backend) && Canonical(sel.backend) == sel.backend
  {
    var raw := if ET.Parse(c.raw).value.backend == "" then Inherited(c) + ['/'] + ET.Parse(c.raw).value.model else c.raw;
    ET.SelectionIsStable(raw, sel);
    ET.TargetReadsBack(ET.Target(sel.backend, sel.model));
  }

  /** A backend can be configured under a name that is not a plain one: unification accepts it. */
  lemma UnplainNameIsAccepted(name: string, b: Backend)
    requires Canonical(name) != "" && !ET.IsBackendName(Canonical(name)) && ValidBackend(Canonical(name), b)
    ensures Unifiable(map[], map[], map[name := b])
    ensures forall c: Candidate, sel | Selected(c) == Some(sel) && sel.backend != "" :: sel.backend != Canonical(name)
  {
    forall c: Candidate, sel | Selected(c) == Some(sel) && sel.backend != ""
      ensures sel.backend != Canonical(name)
    {
      ReachedByPlainName(c, sel);
    }
  }

  const PLAIN_LLM := Backend("llm", "", "", "", None, "", "", "", "", "", "", None, 0, Some({}))

  /** There is such a configuration: a language-model backend by the name of `a/b`. */
  lemma UnplainNameExists()
    ensures Canonical("a/b") != "" && !ET.IsBackendName(Canonical("a/b")) && ValidBackend(Canonical("a/b"), PLAIN_LLM)
  {
    var name := "a/b";
    TrimmedStays(name);
    assert Lower(name) == name;
    assert |LOCAL| == 5;
    assert Canonical(name) == name && name[1] == '/';
    if ET.IsBackendName(name) {
      ET.NamesHaveNoSlash(name);
      assert false;
    }
    LLMIsValid(name);
  }

  lemma LLMIsValid(name: string)
    ensures ValidBackend(name, PLAIN_LLM)
  {
    var kind := "llm";
    TrimmedStays(kind);
    assert Lower(kind) == kind;
    assert IsLLM(PLAIN_LLM);
    TrimmedStays("");
    assert Lower("") == "";
  }

  /** After unification every provider with a plain name can be selected by it for every role. */
  lemma UnifiedProviderServes(s: Setup, settings: map<string, Agent>, lookup: string -> bool,
                              legacy: map<string, Provider>, all: map<string, Backend>,
                              name: string, model: string, llm: bool)
    requires CanonicalNames(legacy) && CanonicalNames(all) && UnifiedProviders(legacy, all, s.providers)
    requires name in s.providers && ET.IsBackendName(name) && model != "" && ET.NoBlank(model)
    ensures Usable(s, settings, lookup, Candidate(name + ['/'] + model, "", llm))
  {
    UnifiedIsCanonical(legacy, Normalized, all, IsLLM, AsProvider, s.providers);
    ET.NamesHaveNoSlash(name);
    ET.ParseQualified(name, model);
  }

  /** After unification an agent backend with a plain name serves workers exactly when it starts, and no other role. */
  lemma UnifiedAgentServes(s: Setup, settings: map<string, Agent>, lookup: string -> bool,
                           legacy: map<string, Agent>, all: map<string, Backend>,
                           name: string, model: string, llm: bool)
    requires CanonicalNames(legacy) && CanonicalNames(all) && UnifiedAgents(legacy, all, s.agents)
    requires NamespacesOk(s.providers, s.agents) && IsOffer(s, settings)
    requires name in s.agents && ET.IsBackendName(name) && model != "" && ET.NoBlank(model)
    ensures Usable(s, settings, lookup, Candidate(name + ['/'] + model, "", llm))
       <==> !llm && Starts(WithDefaultCommand(name, s.agents[name]), lookup)
  {
    UnifiedIsCanonical(legacy, Same, all, IsAgent, AsAgent, s.agents);
    ET.NamesHaveNoSlash(name);
    ET.ParseQualified(name, model);
    CanonicalTwice(name);
    NotBlankSelector(name, model);
    AgentSettings(s, settings, name);
  }

  lemma NotBlankSelector(name: string, model: string)
    requires ET.IsBackendName(name) && ET.NoBlank(model)
    ensures Trim(name + ['/'] + model) != ""
  {
    ET.NamesHaveNoSlash(name);
    assert ET.NoBlank(name + ['/'] + model) by {
      assert !IsBlank('/');
    }
    ET.NoBlankIsTrimmed(name + ['/'] + model);
  }

  lemma AgentSettings(s: Setup, settings: map<string, Agent>, name: string)
    requires CanonicalAlready(s.agents) && IsOffer(s, settings) && name in s.agents
    requires NamespacesOk(s.providers, s.agents)
    ensures name in settings && settings[name] == WithDefaultCommand(name, s.agents[name])
    ensures !IsLLMBackend(s, name)
  {
    assert Canonical(name) == name;
    assert name in CanonicalKeys(s.agents);
    assert Comes(s.agents, map[CODEX := BUILT_IN_CODEX], name, settings[name]);
    CanonicalTwice(name);
  }
}
