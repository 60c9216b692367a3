/**
  What a successful unification installs, field by field, and what it takes to succeed, both in
  terms of the configuration as it is written.
*/
module BackendFields {
  import opened Options
  import opened Texts
  import opened BackendNames
  import opened Backends

  // ---------------------------------------------------------------- what is installed

  /** A configured language-model backend is reached at its address, with its key and protocol. */
  lemma LLMBackendInstalled(legacy: map<string, Provider>, agents: map<string, Agent>, all: map<string, Backend>,
                            r: map<string, Provider>, k: string)
    requires Unifiable(legacy, agents, all) && UnifiedProviders(legacy, all, r)
    requires k in all && Lower(Trim(all[k].kind)) == "llm"
    ensures
      var b, name := all[k], Canonical(k);
      && name in r
      && r[name].url == b.baseURL && r[name].apiKey == b.apiKey
      && r[name].apiProtocol == Lower(Trim(b.apiProtocol))
      && r[name].introspection == b.backendType && r[name].maxConcurrent == b.maxConcurrent
      && !r[name].insecure
  {
  }

  /** A legacy provider stays what it is, its protocol in lower case and trimmed. */
  lemma LegacyProviderInstalled(legacy: map<string, Provider>, agents: map<string, Agent>, all: map<string, Backend>,
                                r: map<string, Provider>, k: string)
    requires Unifiable(legacy, agents, all) && UnifiedProviders(legacy, all, r) && k in legacy
    ensures
      var p, name := legacy[k], Canonical(k);
      && name in r
      && r[name].url == p.url && r[name].apiKey == p.apiKey
      && r[name].apiProtocol == Lower(Trim(p.apiProtocol))
      && r[name].introspection == p.introspection && r[name].maxConcurrent == p.maxConcurrent
      && r[name].insecure == p.insecure
  {
  }

  /** A configured agent backend other than codex has its own settings. */
  lemma AgentBackendInstalled(legacy: map<string, Provider>, agents: map<string, Agent>, all: map<string, Backend>,
                              r: map<string, Agent>, k: string)
    requires Unifiable(legacy, agents, all) && UnifiedAgents(agents, all, r)
    requires k in all && Lower(Trim(all[k].kind)) == "agent" && Canonical(k) != "codex"
    ensures
      var b, name := all[k], Canonical(k);
      && name in r
      && r[name].kind == b.backendType == "codex-app-server"
      && r[name].command == b.command && r[name].protocol == b.protocol
      && r[name].startupTimeout == b.startupTimeout && r[name].interruptGrace == b.interruptGrace
      && r[name].shutdownGrace == b.shutdownGrace && r[name].executionWorld == b.executionWorld
      && r[name].inheritEnv == b.inheritEnv && r[name].maxConcurrent == b.maxConcurrent
  {
  }

  /** The codex backend is the built-in one, but for the fields that occur in the configuration. */
  lemma CodexInstalled(legacy: map<string, Provider>, agents: map<string, Agent>, all: map<string, Backend>,
                       r: map<string, Agent>, k: string)
    requires Unifiable(legacy, agents, all) && UnifiedAgents(agents, all, r)
    requires k in all && Lower(Trim(all[k].kind)) == "agent" && Canonical(k) == "codex"
    ensures
      var b := all[k];
      && "codex" in r
      && r["codex"].kind == "codex-app-server" && r["codex"].protocol == "app-server-v2"
      && r["codex"].command == (if b.Has("command") then b.command else Some(["codex", "app-server"]))
      && r["codex"].startupTimeout == (if b.Has("startup-timeout") then b.startupTimeout else "")
      && r["codex"].interruptGrace == (if b.Has("interrupt-grace") then b.interruptGrace else "")
      && r["codex"].shutdownGrace == (if b.Has("shutdown-grace") then b.shutdownGrace else "")
      && r["codex"].executionWorld == (if b.Has("execution-world") then b.executionWorld else "local-sandbox")
      && r["codex"].inheritEnv == (if b.Has("inherit-env") then b.inheritEnv else Some(["PATH", "CODEX_HOME"]))
      && r["codex"].maxConcurrent == (if b.Has("max-concurrent") then b.maxConcurrent else 0)
  {
  }

  /** A legacy agent backend stays what it is. */
  lemma LegacyAgentInstalled(legacy: map<string, Provider>, agents: map<string, Agent>, all: map<string, Backend>,
                             r: map<string, Agent>, k: string)
    requires Unifiable(legacy, agents, all) && UnifiedAgents(agents, all, r) && k in agents
    ensures Canonical(k) in r && r[Canonical(k)] == agents[k]
  {
  }

  /** Nothing else is installed. */
  lemma NothingElseInstalled(legacy: map<string, Provider>, agents: map<string, Agent>, all: map<string, Backend>,
                             p: map<string, Provider>, a: map<string, Agent>, name: string)
    requires UnifiedProviders(legacy, all, p) && UnifiedAgents(agents, all, a)
    ensures name in p <==>
      (exists k :: k in legacy && Canonical(k) == name)
      || exists k :: k in all && Lower(Trim(all[k].kind)) == "llm" && Canonical(k) == name
    ensures name in a <==>
      (exists k :: k in agents && Canonical(k) == name)
      || exists k :: k in all && Lower(Trim(all[k].kind)) == "agent" && Canonical(k) == name
  {
  }

  // ---------------------------------------------------------------- what it takes

  predicate IsProtocol(raw: string) {
    Lower(Trim(raw)) == "" || Lower(Trim(raw)) == "chat-completions" || Lower(Trim(raw)) == "responses"
  }

  lemma ProtocolExactly(raw: string)
    ensures NormalizeAPIProtocol(raw).Some? <==> IsProtocol(raw)
    ensures IsProtocol(raw) ==> APIProtocol(raw) == Lower(Trim(raw))
  {
  }

  /** No two keys of a map have one canonical name, and none has an empty one. */
  ghost predicate OwnNames<V>(m: map<string, V>) {
    && (forall k | k in m :: Canonical(k) != "")
    && forall k, l | k in m && l in m && k != l :: Canonical(k) != Canonical(l)
  }

  ghost predicate NoShared<V, W>(m: map<string, V>, n: map<string, W>) {
    forall k, l | k in m && l in n :: Canonical(k) != Canonical(l)
  }

  /** Each name is used once in all, and is not empty. */
  ghost predicate NamesAreFree(providers: map<string, Provider>, agents: map<string, Agent>, backends: map<string, Backend>) {
    && OwnNames(providers) && OwnNames(agents) && OwnNames(backends)
    && NoShared(providers, agents) && NoShared(backends, providers) && NoShared(backends, agents)
  }

  lemma OwnNamesExactly<V>(m: map<string, V>)
    ensures OwnNames(m) <==> CanonicalNames(m)
  {
  }

  lemma NoSharedExactly<V, W>(m: map<string, V>, n: map<string, W>)
    ensures NoShared(m, n) <==> CanonicalKeys(m) !! CanonicalKeys(n)
    ensures NoShared(m, n) <==> forall k | k in m :: Canonical(k) !in CanonicalKeys(n)
  {
    if CanonicalKeys(m) !! CanonicalKeys(n) {
      forall k, l | k in m && l in n
        ensures Canonical(k) != Canonical(l)
      {
        assert Canonical(k) in CanonicalKeys(m);
        assert Canonical(l) in CanonicalKeys(n);
      }
    }
  }

  predicate GoodProvider(p: Provider) {
    IsProtocol(p.apiProtocol)
    && (Lower(Trim(p.introspection)) == "" || Lower(Trim(p.introspection)) == "ollama"
        || Lower(Trim(p.introspection)) == "openai-compatible")
  }

  predicate GoodLLM(b: Backend) {
    && Lower(Trim(b.kind)) == "llm" && !b.Has("protocol") && IsProtocol(b.apiProtocol)
    && (b.backendType == "" || b.backendType == "openai-compatible" || b.backendType == "ollama")
  }

  predicate GoodAgent(name: string, b: Backend) {
    && Lower(Trim(b.kind)) == "agent" && !b.Has("api-protocol") && b.backendType == "codex-app-server"
    && name != "ollama"
    && (name == "codex" && b.Has("command") ==>
          b.command.Some? && b.command.value != [] && Trim(b.command.value[0]) != "")
    && (name == "codex" && b.Has("protocol") ==> b.protocol == "app-server-v2")
  }

  lemma BackendExactly(name: string, b: Backend)
    ensures ValidBackend(name, b) <==> GoodLLM(b) || GoodAgent(name, b)
  {
    ProtocolExactly(b.apiProtocol);
    assert "llm" != "agent";
  }

  lemma ProviderExactly(p: Provider)
    ensures ValidProvider(p) <==> GoodProvider(p)
  {
    ProtocolExactly(p.apiProtocol);
  }

  /** Every entry is good, and no agent takes the built-in language-model backend's name. */
  ghost predicate EntriesAreGood(providers: map<string, Provider>, agents: map<string, Agent>, backends: map<string, Backend>) {
    && (forall k | k in providers :: GoodProvider(providers[k]))
    && (forall k | k in agents :: Trim(agents[k].kind) == "codex-app-server" && Canonical(k) != "ollama")
    && forall k | k in backends :: GoodLLM(backends[k]) || GoodAgent(Canonical(k), backends[k])
  }

  lemma EntriesExactly(providers: map<string, Provider>, agents: map<string, Agent>, backends: map<string, Backend>)
    ensures EntriesAreGood(providers, agents, backends) <==>
      ((forall k | k in providers :: ValidProvider(providers[k]))
       && (forall k | k in agents :: ValidLegacyAgent(agents[k])) && OLLAMA !in CanonicalKeys(agents)
       && forall k | k in backends :: ValidBackend(Canonical(k), backends[k]))
  {
    forall k | k in providers
      ensures ValidProvider(providers[k]) <==> GoodProvider(providers[k])
    {
      ProviderExactly(providers[k]);
    }
    forall k | k in backends
      ensures ValidBackend(Canonical(k), backends[k]) <==> GoodLLM(backends[k]) || GoodAgent(Canonical(k), backends[k])
    {
      BackendExactly(Canonical(k), backends[k]);
    }
  }

  lemma NamesExactly(providers: map<string, Provider>, agents: map<string, Agent>, backends: map<string, Backend>)
    ensures NamesAreFree(providers, agents, backends) <==>
      (CanonicalNames(providers) && CanonicalNames(agents) && CanonicalNames(backends)
       && CanonicalKeys(providers) !! CanonicalKeys(agents)
       && (forall k | k in backends :: Canonical(k) !in CanonicalKeys(providers))
       && forall k | k in backends :: Canonical(k) !in CanonicalKeys(agents))
  {
    OwnNamesExactly(providers);
    OwnNamesExactly(agents);
    OwnNamesExactly(backends);
    NoSharedExactly(providers, agents);
    NoSharedExactly(backends, providers);
    NoSharedExactly(backends, agents);
  }

  /** The unification succeeds exactly when every name is free and every entry is good. */
  lemma UnifiableExactly(providers: map<string, Provider>, agents: map<string, Agent>, backends: map<string, Backend>)
    ensures Unifiable(providers, agents, backends)
       <==> NamesAreFree(providers, agents, backends) && EntriesAreGood(providers, agents, backends)
  {
    NamesExactly(providers, agents, backends);
    EntriesExactly(providers, agents, backends);
  }

  /** The legacy half, after which the default backend is chosen, succeeds exactly when its own names and entries are so. */
  lemma GoodLegacyExactly(providers: map<string, Provider>, agents: map<string, Agent>)
    ensures GoodLegacy(providers, agents) <==> NamesAreFree(providers, agents, map[]) && EntriesAreGood(providers, agents, map[])
  {
    NamesExactly(providers, agents, map[]);
    EntriesExactly(providers, agents, map[]);
  }

  /** A field occurs by the record of the file, or without one when it has a value. */
  lemma OccursExactly(b: Backend)
    ensures b.present.Some? ==> forall field :: b.Has(field) <==> field in b.present.value
    ensures b.present.None? ==>
      && (b.Has("command") <==> b.command.Some?) && (b.Has("inherit-env") <==> b.inheritEnv.Some?)
      && (b.Has("protocol") <==> b.protocol != "") && (b.Has("api-protocol") <==> b.apiProtocol != "")
      && (b.Has("startup-timeout") <==> b.startupTimeout != "") && (b.Has("interrupt-grace") <==> b.interruptGrace != "")
      && (b.Has("shutdown-grace") <==> b.shutdownGrace != "") && (b.Has("execution-world") <==> b.executionWorld != "")
      && (b.Has("max-concurrent") <==> b.maxConcurrent != 0)
  {
    if b.present.None? {
      FieldsDiffer();
    }
  }

  lemma FieldsDiffer()
    ensures
      var fields := ["command", "protocol", "api-protocol", "startup-timeout", "interrupt-grace", "shutdown-grace",
                     "execution-world", "inherit-env", "max-concurrent"];
      forall i, j | 0 <= i < j < |fields| :: fields[i] != fields[j]
  {
    var fields := ["command", "protocol", "api-protocol", "startup-timeout", "interrupt-grace", "shutdown-grace",
                   "execution-world", "inherit-env", "max-concurrent"];
    assert fields[0][1] == 'o' && fields[1][1] == 'r' && fields[2][1] == 'p' && fields[3][1] == 't';
    assert |fields[4]| == 15 && |fields[5]| == 14 && |fields[6]| == 15 && |fields[7]| == 11 && |fields[8]| == 14;
  }

  /** The default backend is the session's own, else the global one for a session that is not restored. */
  lemma DefaultExactly(current: string, restored: bool, inherited: string)
    ensures current != "" ==> DefaultLLM(current, restored, inherited) == Canonical(current)
    ensures current == "" && (restored || inherited == "") ==> DefaultLLM(current, restored, inherited) == ""
    ensures current == "" && !restored && inherited != "" ==> DefaultLLM(current, restored, inherited) == Canonical(inherited)
  {
    CanonicalTwice(inherited);
  }
}
