/**
  Unification of the legacy and canonical backend namespaces of cmd/hufu/backend_config.go
  and the namespace part of cmd/hufu/execution_target_preflight.go.

  The code ranges over Go maps, whose order is arbitrary.  The loops below pick an arbitrary
  key each time, so what is proved of them holds for every order.
*/
module Backends {
  import opened Options
  import opened Texts
  import opened BackendNames

  datatype Provider = Provider(
    url: string, apiKey: string, apiProtocol: string, introspection: string, insecure: bool, maxConcurrent: int)

  /** Absent lists are distinct from empty ones. */
  datatype Agent = Agent(
    kind: string, command: Option<seq<string>>, protocol: string,
    startupTimeout: string, interruptGrace: string, shutdownGrace: string,
    executionWorld: string, inheritEnv: Option<seq<string>>, maxConcurrent: int)

  datatype Backend = Backend(
    kind: string, backendType: string, baseURL: string, apiKey: string,
    command: Option<seq<string>>, protocol: string, apiProtocol: string,
    startupTimeout: string, interruptGrace: string, shutdownGrace: string,
    executionWorld: string, inheritEnv: Option<seq<string>>, maxConcurrent: int,
    present: Option<set<string>>)
  {
    /** Whether a field occurred in the file; without that record, whether it has a value. */
    predicate Has(field: string) {
      if present.Some? then field in present.value
      else
        || (field == "command" && command.Some?)
        || (field == "protocol" && protocol != "")
        || (field == "api-protocol" && apiProtocol != "")
        || (field == "startup-timeout" && startupTimeout != "")
        || (field == "interrupt-grace" && interruptGrace != "")
        || (field == "shutdown-grace" && shutdownGrace != "")
        || (field == "execution-world" && executionWorld != "")
        || (field == "inherit-env" && inheritEnv.Some?)
        || (field == "max-concurrent" && maxConcurrent != 0)
    }
  }

  const CODEX := "codex"
  const CODEX_TYPE := "codex-app-server"

  function NormalizeAPIProtocol(raw: string): Option<string> {
    var protocol := Lower(Trim(raw));
    if protocol in {"", "chat-completions", "responses"} then Some(protocol) else None
  }

  predicate ValidProvider(p: Provider) {
    NormalizeAPIProtocol(p.apiProtocol).Some?
    && Lower(Trim(p.introspection)) in {"", "ollama", "openai-compatible"}
  }

  function APIProtocol(raw: string): string {
    match NormalizeAPIProtocol(raw)
    case None => raw
    case Some(protocol) => protocol
  }

  function Normalized(p: Provider): Provider {
    p.(apiProtocol := APIProtocol(p.apiProtocol))
  }

  predicate ValidLegacyAgent(a: Agent) {
    Trim(a.kind) == CODEX_TYPE
  }

  // ---------------------------------------------------------------- canonical names of a map

  function CanonicalKeys<V>(m: map<string, V>): set<string> {
    set k | k in m :: Canonical(k)
  }

  /** The canonical names are non-empty and no two keys share one. */
  ghost predicate CanonicalNames<V>(m: map<string, V>) {
    && (forall k | k in m :: Canonical(k) != "")
    && forall k, l | k in m && l in m && Canonical(k) == Canonical(l) :: k == l
  }

  /** `r` is `m` under canonical names, its values changed by `f`. */
  ghost predicate Carries<V, W>(m: map<string, V>, f: V -> W, r: map<string, W>) {
    && r.Keys == CanonicalKeys(m)
    && forall k | k in m :: Canonical(k) in r && r[Canonical(k)] == f(m[k])
  }

  function Restrict<V>(m: map<string, V>, keys: set<string>): map<string, V> {
    map k | k in m && k in keys :: m[k]
  }

  lemma NewNameIsCanonical<V>(m: map<string, V>, done: set<string>, k: string)
    requires k in m && CanonicalNames(Restrict(m, done))
    requires Canonical(k) != "" && Canonical(k) !in CanonicalKeys(Restrict(m, done))
    ensures CanonicalNames(Restrict(m, done + {k}))
  {
    var less, more := Restrict(m, done), Restrict(m, done + {k});
    forall l | l in less
      ensures Canonical(l) != Canonical(k)
    {
      assert Canonical(l) in CanonicalKeys(less);
    }
    assert forall l | l in more :: l == k || l in less;
  }

  lemma NewNameIsCarried<V, W>(m: map<string, V>, done: set<string>, k: string, f: V -> W, r: map<string, W>)
    requires k in m && Carries(Restrict(m, done), f, r) && Canonical(k) !in r
    ensures Carries(Restrict(m, done + {k}), f, r[Canonical(k) := f(m[k])])
  {
    var less, more, t := Restrict(m, done), Restrict(m, done + {k}), r[Canonical(k) := f(m[k])];
    KeysStep(m, done, k);
    forall l | l in more
      ensures Canonical(l) in t && t[Canonical(l)] == f(more[l])
    {
      if l != k {
        assert l in less && Canonical(l) in r && r[Canonical(l)] == f(less[l]);
      }
    }
  }

  lemma KeysStep<V>(m: map<string, V>, done: set<string>, k: string)
    requires k in m
    ensures CanonicalKeys(Restrict(m, done + {k})) == CanonicalKeys(Restrict(m, done)) + {Canonical(k)}
  {
    var less, more := Restrict(m, done), Restrict(m, done + {k});
    forall n | n in CanonicalKeys(less)
      ensures n in CanonicalKeys(more)
    {
      var l :| l in less && Canonical(l) == n;
      assert l in more;
    }
    assert k in more;
  }

  /** One more key keeps names canonical exactly when its name is non-empty and not taken. */
  lemma CanonicalStep<V, W>(m: map<string, V>, done: set<string>, k: string, f: V -> W, r: map<string, W>)
    requires k in m && k !in done && CanonicalNames(Restrict(m, done)) && Carries(Restrict(m, done), f, r)
    ensures
      var more := Restrict(m, done + {k});
      if Canonical(k) != "" && Canonical(k) !in r then
        CanonicalNames(more) && Carries(more, f, r[Canonical(k) := f(m[k])])
      else
        !CanonicalNames(m)
  {
    if Canonical(k) != "" {
      if Canonical(k) in r {
        var l :| l in Restrict(m, done) && Canonical(l) == Canonical(k);
      } else {
        NewNameIsCanonical(m, done, k);
        NewNameIsCarried(m, done, k, f, r);
      }
    }
  }

  lemma RestrictAll<V>(m: map<string, V>)
    ensures Restrict(m, m.Keys) == m
  {
  }

  // ---------------------------------------------------------------- the legacy maps

  ghost predicate GoodProviders(source: map<string, Provider>) {
    CanonicalNames(source) && forall k | k in source :: ValidProvider(source[k])
  }

  ghost predicate GoodAgents(source: map<string, Agent>) {
    CanonicalNames(source) && forall k | k in source :: ValidLegacyAgent(source[k])
  }

  method CanonicalLegacyProviders(source: map<string, Provider>) returns (ok: bool, result: map<string, Provider>)
    ensures ok <==> GoodProviders(source)
    ensures ok ==> Carries(source, Normalized, result)
  {
    result := map[];
    var todo := source.Keys;
    while todo != {}
      invariant todo <= source.Keys
      invariant CanonicalNames(Restrict(source, source.Keys - todo))
      invariant Carries(Restrict(source, source.Keys - todo), Normalized, result)
      invariant forall k | k in source.Keys - todo :: ValidProvider(source[k])
    {
      var rawName :| rawName in todo;
      CanonicalStep(source, source.Keys - todo, rawName, Normalized, result);
      assert source.Keys - (todo - {rawName}) == source.Keys - todo + {rawName};
      todo := todo - {rawName};
      var name := Canonical(rawName);
      if name == "" || name in result || !ValidProvider(source[rawName]) {
        return false, map[];
      }
      result := result[name := Normalized(source[rawName])];
    }
    assert source.Keys - todo == source.Keys;
    RestrictAll(source);
    ok := true;
  }

  function Same<T>(x: T): T { x }

  method CanonicalLegacyAgentBackends(source: map<string, Agent>) returns (ok: bool, result: map<string, Agent>)
    ensures ok <==> GoodAgents(source)
    ensures ok ==> Carries(source, Same, result)
  {
    result := map[];
    var todo := source.Keys;
    while todo != {}
      invariant todo <= source.Keys
      invariant CanonicalNames(Restrict(source, source.Keys - todo))
      invariant Carries(Restrict(source, source.Keys - todo), Same, result)
      invariant forall k | k in source.Keys - todo :: ValidLegacyAgent(source[k])
    {
      var rawName :| rawName in todo;
      CanonicalStep(source, source.Keys - todo, rawName, Same, result);
      assert source.Keys - (todo - {rawName}) == source.Keys - todo + {rawName};
      todo := todo - {rawName};
      var name := Canonical(rawName);
      if name == "" || name in result || !ValidLegacyAgent(source[rawName]) {
        return false, map[];
      }
      result := result[name := source[rawName]];
    }
    assert source.Keys - todo == source.Keys;
    RestrictAll(source);
    ok := true;
  }

  method CanonicalBackends(source: map<string, Backend>) returns (ok: bool, result: map<string, Backend>)
    ensures ok <==> CanonicalNames(source)
    ensures ok ==> Carries(source, Same, result)
  {
    result := map[];
    var todo := source.Keys;
    while todo != {}
      invariant todo <= source.Keys
      invariant CanonicalNames(Restrict(source, source.Keys - todo))
      invariant Carries(Restrict(source, source.Keys - todo), Same, result)
    {
      var rawName :| rawName in todo;
      CanonicalStep(source, source.Keys - todo, rawName, Same, result);
      assert source.Keys - (todo - {rawName}) == source.Keys - todo + {rawName};
      todo := todo - {rawName};
      var name := Canonical(rawName);
      if name == "" || name in result {
        return false, map[];
      }
      result := result[name := source[rawName]];
    }
    assert source.Keys - todo == source.Keys;
    RestrictAll(source);
    ok := true;
  }

  // ---------------------------------------------------------------- canonical entries

  function AsProvider(name: string, b: Backend): Provider {
    Provider(b.baseURL, b.apiKey, APIProtocol(b.apiProtocol), b.backendType, false, b.maxConcurrent)
  }

  function Adapted(b: Backend): Agent {
    Agent(b.backendType, b.command, b.protocol, b.startupTimeout, b.interruptGrace, b.shutdownGrace,
          b.executionWorld, b.inheritEnv, b.maxConcurrent)
  }

  predicate RunsSomething(command: Option<seq<string>>) {
    command.Some? && command.value != [] && Trim(command.value[0]) != ""
  }

  predicate ValidCodexOverlay(b: Backend) {
    && (b.Has("command") ==> RunsSomething(b.command))
    && (b.Has("protocol") ==> b.protocol == "app-server-v2")
  }

  /** The built-in codex backend under the fields that occur in the configuration. */
  function CodexOverlay(b: Backend): Agent {
    Agent(
      CODEX_TYPE,
      if b.Has("command") then b.command else Some(["codex", "app-server"]),
      "app-server-v2",
      if b.Has("startup-timeout") then b.startupTimeout else "",
      if b.Has("interrupt-grace") then b.interruptGrace else "",
      if b.Has("shutdown-grace") then b.shutdownGrace else "",
      if b.Has("execution-world") then b.executionWorld else "local-sandbox",
      if b.Has("inherit-env") then b.inheritEnv else Some(["PATH", "CODEX_HOME"]),
      if b.Has("max-concurrent") then b.maxConcurrent else 0)
  }

  method MergeBuiltInCodexBackendConfig(b: Backend, override: Agent) returns (ok: bool, result: Agent)
    requires override == Adapted(b)
    ensures ok <==> ValidCodexOverlay(b)
    ensures ok ==> result == CodexOverlay(b)
  {
    ok := false;
    result := Agent(CODEX_TYPE, Some(["codex", "app-server"]), "app-server-v2", "", "", "",
                    "local-sandbox", Some(["PATH", "CODEX_HOME"]), 0);
    if b.Has("command") {
      if override.command == None || override.command == Some([]) || Trim(override.command.value[0]) == "" {
        return;
      }
      result := result.(command := override.command);
    }
    if b.Has("protocol") {
      if override.protocol != "app-server-v2" {
        return;
      }
      result := result.(protocol := override.protocol);
    }
    if b.Has("startup-timeout") { result := result.(startupTimeout := override.startupTimeout); }
    if b.Has("interrupt-grace") { result := result.(interruptGrace := override.interruptGrace); }
    if b.Has("shutdown-grace") { result := result.(shutdownGrace := override.shutdownGrace); }
    if b.Has("execution-world") { result := result.(executionWorld := override.executionWorld); }
    if b.Has("inherit-env") { result := result.(inheritEnv := override.inheritEnv); }
    if b.Has("max-concurrent") { result := result.(maxConcurrent := override.maxConcurrent); }
    ok := true;
  }

  predicate IsLLM(b: Backend) {
    Lower(Trim(b.kind)) == "llm"
  }

  predicate IsAgent(b: Backend) {
    Lower(Trim(b.kind)) == "agent"
  }

  predicate ValidBackend(name: string, b: Backend) {
    if IsLLM(b) then
      && !b.Has("protocol") && NormalizeAPIProtocol(b.apiProtocol).Some?
      && b.backendType in {"", "openai-compatible", "ollama"}
    else
      && IsAgent(b) && !b.Has("api-protocol") && b.backendType == CODEX_TYPE && name != OLLAMA
      && (name == CODEX ==> ValidCodexOverlay(b))
  }

  function AsAgent(name: string, b: Backend): Agent {
    if name == CODEX then CodexOverlay(b) else Adapted(b)
  }

  // ---------------------------------------------------------------- the session

  datatype Global = Global(providers: map<string, Provider>, backends: map<string, Backend>, defaultLLM: string)

  /** The legacy entries are good and share no name, and none claims the built-in backend. */
  ghost predicate GoodLegacy(providers: map<string, Provider>, agents: map<string, Agent>) {
    && GoodProviders(providers) && GoodAgents(agents)
    && OLLAMA !in CanonicalKeys(agents)
    && CanonicalKeys(providers) !! CanonicalKeys(agents)
  }

  ghost predicate GoodBackends(backends: map<string, Backend>, taken: set<string>) {
    && CanonicalNames(backends)
    && forall k | k in backends :: Canonical(k) !in taken && ValidBackend(Canonical(k), backends[k])
  }

  /** What the configuration has to be like for the unification to succeed. */
  ghost predicate Unifiable(providers: map<string, Provider>, agents: map<string, Agent>, backends: map<string, Backend>) {
    GoodLegacy(providers, agents) && GoodBackends(backends, CanonicalKeys(providers) + CanonicalKeys(agents))
  }

  function ChosenNames(backends: map<string, Backend>, chosen: Backend -> bool): set<string> {
    set k | k in backends && chosen(backends[k]) :: Canonical(k)
  }

  /** `r` holds the legacy entries and the chosen backends, all by canonical name, and nothing else. */
  ghost predicate Unified<U, V>(legacy: map<string, U>, keep: U -> V, backends: map<string, Backend>,
                                chosen: Backend -> bool, make: (string, Backend) -> V, r: map<string, V>)
  {
    && r.Keys == CanonicalKeys(legacy) + ChosenNames(backends, chosen)
    && (forall k | k in legacy :: Canonical(k) in r && r[Canonical(k)] == keep(legacy[k]))
    && (forall k | k in backends && chosen(backends[k]) ::
          Canonical(k) in r && r[Canonical(k)] == make(Canonical(k), backends[k]))
  }

  ghost predicate UnifiedProviders(legacy: map<string, Provider>, backends: map<string, Backend>, r: map<string, Provider>) {
    Unified(legacy, Normalized, backends, IsLLM, AsProvider, r)
  }

  ghost predicate UnifiedAgents(legacy: map<string, Agent>, backends: map<string, Backend>, r: map<string, Agent>) {
    Unified(legacy, Same, backends, IsAgent, AsAgent, r)
  }

  /** The session's default backend once the code has passed the legacy checks. */
  function DefaultLLM(current: string, restored: bool, inherited: string): string {
    var chosen := if !restored && current == "" && inherited != "" then Canonical(inherited) else current;
    if chosen != "" then Canonical(chosen) else chosen
  }

  /** `r` is `base` with an entry for every chosen backend named in `done`. */
  ghost predicate Extends<V>(canonical: map<string, Backend>, done: set<string>, base: map<string, V>,
                             chosen: Backend -> bool, make: (string, Backend) -> V, r: map<string, V>)
    requires done <= canonical.Keys
  {
    && r.Keys == base.Keys + (set n | n in done && chosen(canonical[n]))
    && (forall n | n in base :: n !in done ==> r[n] == base[n])
    && (forall n | n in done && chosen(canonical[n]) :: r[n] == make(n, canonical[n]))
  }

  lemma ExtendsStep<V>(canonical: map<string, Backend>, done: set<string>, name: string, base: map<string, V>,
                       chosen: Backend -> bool, make: (string, Backend) -> V, r: map<string, V>)
    requires done <= canonical.Keys && name in canonical && name !in done && name !in base
    requires Extends(canonical, done, base, chosen, make, r)
    ensures
      var t := if chosen(canonical[name]) then r[name := make(name, canonical[name])] else r;
      Extends(canonical, done + {name}, base, chosen, make, t)
  {
  }

  /** What the loop over the canonical backends has done for the names in `done`. */
  ghost predicate Placed(canonical: map<string, Backend>, done: set<string>,
                         providers0: map<string, Provider>, agents0: map<string, Agent>,
                         providers: map<string, Provider>, agents: map<string, Agent>)
    requires done <= canonical.Keys
  {
    && (forall n | n in done :: n !in providers0 && n !in agents0 && ValidBackend(n, canonical[n]))
    && Extends(canonical, done, providers0, IsLLM, AsProvider, providers)
    && Extends(canonical, done, agents0, IsAgent, AsAgent, agents)
  }

  /** The checks on one canonical entry, and where it goes. */
  method PlaceBackend(name: string, backend: Backend, providers0: map<string, Provider>, agents0: map<string, Agent>)
    returns (ok: bool, providers: map<string, Provider>, agents: map<string, Agent>)
    ensures ok <==> name !in providers0 && name !in agents0 && ValidBackend(name, backend)
    ensures ok && IsLLM(backend) ==> providers == providers0[name := AsProvider(name, backend)] && agents == agents0
    ensures ok && IsAgent(backend) ==> providers == providers0 && agents == agents0[name := AsAgent(name, backend)]
  {
    ok, providers, agents := false, providers0, agents0;
    if name == OLLAMA && IsAgent(backend) {
      return;
    }
    if name in providers || name in agents {
      return;
    }
    if IsLLM(backend) {
      if backend.Has("protocol") || NormalizeAPIProtocol(backend.apiProtocol) == None
         || backend.backendType !in {"", "openai-compatible", "ollama"} {
        return;
      }
      providers := providers[name := AsProvider(name, backend)];
    } else if IsAgent(backend) {
      if backend.Has("api-protocol") || backend.backendType != CODEX_TYPE {
        return;
      }
      var config := Adapted(backend);
      if name == CODEX {
        var merged;
        merged, config := MergeBuiltInCodexBackendConfig(backend, config);
        if !merged {
          return;
        }
      }
      agents := agents[name := config];
    } else {
      return;
    }
    ok := true;
  }

  lemma PlacedStep(canonical: map<string, Backend>, done: set<string>, name: string,
                   providers0: map<string, Provider>, agents0: map<string, Agent>,
                   p: map<string, Provider>, a: map<string, Agent>, q: map<string, Provider>, b: map<string, Agent>)
    requires done <= canonical.Keys && name in canonical && name !in done
    requires Placed(canonical, done, providers0, agents0, p, a)
    requires name !in providers0 && name !in agents0 && ValidBackend(name, canonical[name])
    requires q == if IsLLM(canonical[name]) then p[name := AsProvider(name, canonical[name])] else p
    requires b == if IsAgent(canonical[name]) then a[name := AsAgent(name, canonical[name])] else a
    ensures Placed(canonical, done + {name}, providers0, agents0, q, b)
  {
    ExtendsStep(canonical, done, name, providers0, IsLLM, AsProvider, p);
    ExtendsStep(canonical, done, name, agents0, IsAgent, AsAgent, a);
  }

  method PlaceBackends(canonical: map<string, Backend>, providers0: map<string, Provider>, agents0: map<string, Agent>)
    returns (ok: bool, providers: map<string, Provider>, agents: map<string, Agent>)
    ensures ok <==> forall n | n in canonical :: n !in providers0 && n !in agents0 && ValidBackend(n, canonical[n])
    ensures ok ==> Placed(canonical, canonical.Keys, providers0, agents0, providers, agents)
  {
    ok, providers, agents := false, providers0, agents0;
    var todo := canonical.Keys;
    while todo != {}
      invariant todo <= canonical.Keys
      invariant Placed(canonical, canonical.Keys - todo, providers0, agents0, providers, agents)
    {
      var name :| name in todo;
      ghost var done, p, a := canonical.Keys - todo, providers, agents;
      assert canonical.Keys - (todo - {name}) == done + {name};
      todo := todo - {name};
      var placed;
      placed, providers, agents := PlaceBackend(name, canonical[name], providers, agents);
      assert name in p <==> name in providers0;
      assert name in a <==> name in agents0;
      if !placed {
        return;
      }
      PlacedStep(canonical, done, name, providers0, agents0, p, a, providers, agents);
    }
    assert canonical.Keys - todo == canonical.Keys;
    ok := true;
  }

  // ---------------------------------------------------------------- applying the configuration

  class Session {
    var providers: map<string, Provider>
    var agents: map<string, Agent>
    var backends: map<string, Backend>
    var defaultLLM: string
    const restored: bool

    constructor (providers: map<string, Provider>, agents: map<string, Agent>, backends: map<string, Backend>,
                 defaultLLM: string, restored: bool)
      ensures this.providers == providers && this.agents == agents && this.backends == backends
      ensures this.defaultLLM == defaultLLM && this.restored == restored
    {
      this.providers, this.agents, this.backends := providers, agents, backends;
      this.defaultLLM, this.restored := defaultLLM, restored;
    }

    method ChooseDefaultLLM(inherited: string)
      modifies this`defaultLLM
      ensures defaultLLM == DefaultLLM(old(defaultLLM), restored, inherited)
    {
      if !restored && defaultLLM == "" && inherited != "" {
        defaultLLM := Canonical(inherited);
      }
      if defaultLLM != "" {
        defaultLLM := Canonical(defaultLLM);
      }
    }

    /**
      Succeeds, for every iteration order, exactly when the configuration is unifiable, and
      then installs the unified maps.  On failure the maps stay; only the default backend
      may already have been chosen, namely when just the canonical entries were at fault.
    */
    method ApplyConfiguredBackends(global: Global) returns (ok: bool)
      modifies this
      ensures backends == old(backends)
      ensures ok <==> Unifiable(global.providers + old(providers), old(agents), global.backends + old(backends))
      ensures ok ==> UnifiedProviders(global.providers + old(providers), global.backends + old(backends), providers)
      ensures ok ==> UnifiedAgents(old(agents), global.backends + old(backends), agents)
      ensures !ok ==> providers == old(providers) && agents == old(agents)
      ensures defaultLLM == if GoodLegacy(global.providers + old(providers), old(agents))
                            then DefaultLLM(old(defaultLLM), restored, global.defaultLLM) else old(defaultLLM)
    {
      var legacyOk, unified, adapted;
      legacyOk, ok, unified, adapted := Unify(global.providers + providers, agents, global.backends + backends);
      if legacyOk {
        ChooseDefaultLLM(global.defaultLLM);
      }
      if ok {
        providers, agents := unified, adapted;
      }
    }
  }

  /** Both halves; `legacyOk` reports that the legacy half passed its checks. */
  method Unify(legacy: map<string, Provider>, subagents: map<string, Agent>, all: map<string, Backend>)
    returns (legacyOk: bool, ok: bool, providers: map<string, Provider>, agents: map<string, Agent>)
    ensures legacyOk <==> GoodLegacy(legacy, subagents)
    ensures ok <==> Unifiable(legacy, subagents, all)
    ensures ok ==> UnifiedProviders(legacy, all, providers) && UnifiedAgents(subagents, all, agents)
  {
    ok, providers, agents := false, map[], map[];
    var unified, adapted;
    legacyOk, unified, adapted := UnifyLegacy(legacy, subagents);
    if legacyOk {
      ok, providers, agents := UnifyBackends(legacy, subagents, all, unified, adapted);
    }
  }

  /** The legacy half: both maps under canonical names, checked against each other. */
  method UnifyLegacy(legacy: map<string, Provider>, subagents: map<string, Agent>)
    returns (ok: bool, unified: map<string, Provider>, adapted: map<string, Agent>)
    ensures ok <==> GoodLegacy(legacy, subagents)
    ensures ok ==> Carries(legacy, Normalized, unified) && Carries(subagents, Same, adapted)
  {
    adapted := map[];
    ok, unified := CanonicalLegacyProviders(legacy);
    if !ok {
      return;
    }
    ok, adapted := CanonicalLegacyAgentBackends(subagents);
    if !ok {
      return;
    }
    if OLLAMA in adapted {
      ok := false;
      return;
    }
    ok := Disjoint(unified, adapted);
  }

  method Disjoint<V, W>(left: map<string, V>, right: map<string, W>) returns (disjoint: bool)
    ensures disjoint <==> left.Keys !! right.Keys
  {
    var todo := left.Keys;
    while todo != {}
      invariant todo <= left.Keys
      invariant left.Keys - todo !! right.Keys
    {
      var name :| name in todo;
      todo := todo - {name};
      if name in right {
        return false;
      }
    }
    disjoint := true;
  }

  /** Checking the canonical map name by name checks the configured entries. */
  lemma BackendsByName(all: map<string, Backend>, canonical: map<string, Backend>, taken: set<string>)
    requires CanonicalNames(all) && Carries(all, Same, canonical)
    ensures (forall n | n in canonical :: n !in taken && ValidBackend(n, canonical[n])) <==> GoodBackends(all, taken)
  {
    if forall n | n in canonical :: n !in taken && ValidBackend(n, canonical[n]) {
      forall k | k in all
        ensures Canonical(k) !in taken && ValidBackend(Canonical(k), all[k])
      {
        assert canonical[Canonical(k)] == all[k];
      }
    }
    if GoodBackends(all, taken) {
      forall n | n in canonical
        ensures n !in taken && ValidBackend(n, canonical[n])
      {
        var k :| k in all && Canonical(k) == n;
      }
    }
  }

  /** The canonical half: the configured entries by canonical name, on top of the legacy maps. */
  method UnifyBackends(ghost legacy: map<string, Provider>, ghost subagents: map<string, Agent>, all: map<string, Backend>,
                       unified: map<string, Provider>, adapted: map<string, Agent>)
    returns (ok: bool, providers: map<string, Provider>, agents: map<string, Agent>)
    requires Carries(legacy, Normalized, unified) && Carries(subagents, Same, adapted)
    ensures ok <==> GoodBackends(all, CanonicalKeys(legacy) + CanonicalKeys(subagents))
    ensures ok ==> UnifiedProviders(legacy, all, providers) && UnifiedAgents(subagents, all, agents)
  {
    providers, agents := unified, adapted;
    var canonical;
    ok, canonical := CanonicalBackends(all);
    if !ok {
      return;
    }
    ok, providers, agents := PlaceBackends(canonical, unified, adapted);
    BackendsByName(all, canonical, unified.Keys + adapted.Keys);
    if ok {
      ExtendsUnifies(legacy, Normalized, all, canonical, IsLLM, AsProvider, unified, providers);
      ExtendsUnifies(subagents, Same, all, canonical, IsAgent, AsAgent, adapted, agents);
    }
  }

  lemma ExtendsUnifies<U, V>(legacy: map<string, U>, keep: U -> V, all: map<string, Backend>,
                             canonical: map<string, Backend>, chosen: Backend -> bool, make: (string, Backend) -> V,
                             base: map<string, V>, r: map<string, V>)
    requires Carries(legacy, keep, base) && Carries(all, Same, canonical)
    requires Extends(canonical, canonical.Keys, base, chosen, make, r)
    requires forall n | n in canonical :: n !in base
    ensures Unified(legacy, keep, all, chosen, make, r)
  {
    forall n | n in canonical
      ensures n in ChosenNames(all, chosen) <==> chosen(canonical[n])
    {
      var k :| k in all && Canonical(k) == n;
    }
    assert ChosenNames(all, chosen) == set n | n in canonical && chosen(canonical[n]);
    forall k | k in legacy
      ensures Canonical(k) in r && r[Canonical(k)] == keep(legacy[k])
    {
      assert Canonical(k) in base;
    }
  }
}
