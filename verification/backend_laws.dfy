/**
  What the unification of backend namespaces guarantees: one outcome for every iteration
  order, what applying it twice does, and what it leaves for the preflight to find.
*/
module BackendLaws {
  import opened Options
  import opened Texts
  import opened BackendNames
  import opened Backends

  // ---------------------------------------------------------------- one outcome

  lemma UnifiedOnce<U, V>(legacy: map<string, U>, keep: U -> V, backends: map<string, Backend>,
                          chosen: Backend -> bool, make: (string, Backend) -> V, r: map<string, V>, t: map<string, V>)
    requires Unified(legacy, keep, backends, chosen, make, r) && Unified(legacy, keep, backends, chosen, make, t)
    ensures r == t
  {
    forall n | n in r
      ensures r[n] == t[n]
    {
      if n in CanonicalKeys(legacy) {
        var k :| k in legacy && Canonical(k) == n;
      } else {
        var k :| k in backends && chosen(backends[k]) && Canonical(k) == n;
      }
    }
  }

  /** Two runs over one configuration, whatever their orders, install the same maps. */
  lemma OrderDoesNotMatter(legacy: map<string, Provider>, agents: map<string, Agent>, backends: map<string, Backend>,
                           p: map<string, Provider>, a: map<string, Agent>, q: map<string, Provider>, b: map<string, Agent>)
    requires UnifiedProviders(legacy, backends, p) && UnifiedAgents(agents, backends, a)
    requires UnifiedProviders(legacy, backends, q) && UnifiedAgents(agents, backends, b)
    ensures p == q && a == b
  {
    UnifiedOnce(legacy, Normalized, backends, IsLLM, AsProvider, p, q);
    UnifiedOnce(agents, Same, backends, IsAgent, AsAgent, a, b);
  }

  // ---------------------------------------------------------------- applying it again

  /** All keys are canonical names already. */
  ghost predicate CanonicalAlready<V>(m: map<string, V>) {
    forall k | k in m :: Canonical(k) == k
  }

  lemma UnifiedIsCanonical<U, V>(legacy: map<string, U>, keep: U -> V, backends: map<string, Backend>,
                                 chosen: Backend -> bool, make: (string, Backend) -> V, r: map<string, V>)
    requires CanonicalNames(legacy) && CanonicalNames(backends) && Unified(legacy, keep, backends, chosen, make, r)
    ensures CanonicalAlready(r) && CanonicalNames(r) && CanonicalKeys(r) == r.Keys
  {
    forall n | n in r
      ensures Canonical(n) == n && n != ""
    {
      if n in CanonicalKeys(legacy) {
        var k :| k in legacy && Canonical(k) == n;
        CanonicalTwice(k);
      } else {
        var k :| k in backends && chosen(backends[k]) && Canonical(k) == n;
        CanonicalTwice(k);
      }
    }
    forall n
      ensures n in CanonicalKeys(r) <==> n in r
    {
      if n in r {
        assert Canonical(n) == n;
      }
    }
  }

  lemma KeysIncluded<V>(m: map<string, V>, r: map<string, V>)
    requires CanonicalAlready(r)
    ensures forall n | n in r :: n in CanonicalKeys(m + r)
  {
    forall n | n in r
      ensures n in CanonicalKeys(m + r)
    {
      assert n in m + r && Canonical(n) == n;
    }
  }

  /** With any backend configured, a second application finds its own first result in the way. */
  lemma SecondFailsWithBackends(global: Global, p: map<string, Provider>, a: map<string, Agent>, all: map<string, Backend>,
                                p1: map<string, Provider>, a1: map<string, Agent>)
    requires Unifiable(global.providers + p, a, all) && all != map[]
    requires UnifiedProviders(global.providers + p, all, p1) && UnifiedAgents(a, all, a1)
    ensures !Unifiable(global.providers + p1, a1, all)
  {
    UnifiedIsCanonical(global.providers + p, Normalized, all, IsLLM, AsProvider, p1);
    UnifiedIsCanonical(a, Same, all, IsAgent, AsAgent, a1);
    KeysIncluded(global.providers, p1);
    var k :| k in all;
    assert Canonical(k) in p1 || Canonical(k) in a1;
  }

  /** A global provider under a raw key collides with its own canonical entry the second time. */
  lemma SecondFailsWithRawKeys(global: Global, p: map<string, Provider>, a: map<string, Agent>,
                               p1: map<string, Provider>, a1: map<string, Agent>, raw: string)
    requires Unifiable(global.providers + p, a, map[]) && UnifiedProviders(global.providers + p, map[], p1)
    requires raw in global.providers && Canonical(raw) != raw
    ensures !Unifiable(global.providers + p1, a1, map[])
  {
    var legacy, again := global.providers + p, global.providers + p1;
    assert raw in legacy;
    assert Canonical(raw) in p1;
    CanonicalTwice(raw);
    assert raw in again && Canonical(raw) in again;
  }

  lemma NormalizedIsValid(p: Provider)
    requires ValidProvider(p)
    ensures ValidProvider(Normalized(p)) && Normalized(Normalized(p)) == Normalized(p)
  {
    var protocol := Lower(Trim(p.apiProtocol));
    TrimIsTrimmed(p.apiProtocol);
    LowerKeepsTrimmed(Trim(p.apiProtocol));
    TrimmedStays(protocol);
    LowerTwice(Trim(p.apiProtocol));
  }

  lemma SelfUnified<V>(r: map<string, V>, keep: V -> V, chosen: Backend -> bool, make: (string, Backend) -> V)
    requires CanonicalAlready(r) && CanonicalKeys(r) == r.Keys
    requires forall n | n in r :: keep(r[n]) == r[n]
    ensures Unified(r, keep, map[], chosen, make, r)
  {
    assert ChosenNames(map[], chosen) == {};
  }

  /** Without backends, unification is canonicalisation. */
  lemma NoBackends<U, V>(legacy: map<string, U>, keep: U -> V, chosen: Backend -> bool, make: (string, Backend) -> V,
                         r: map<string, V>)
    requires CanonicalNames(legacy) && Unified(legacy, keep, map[], chosen, make, r)
    ensures Carries(legacy, keep, r) && CanonicalAlready(r) && CanonicalNames(r) && CanonicalKeys(r) == r.Keys
  {
    assert ChosenNames(map[], chosen) == {};
    UnifiedIsCanonical(legacy, keep, map[], chosen, make, r);
  }

  lemma CarriedProvidersAreValid(legacy: map<string, Provider>, p1: map<string, Provider>)
    requires GoodProviders(legacy) && Carries(legacy, Normalized, p1)
    ensures forall n | n in p1 :: ValidProvider(p1[n]) && Normalized(p1[n]) == p1[n]
  {
    forall n | n in p1
      ensures ValidProvider(p1[n]) && Normalized(p1[n]) == p1[n]
    {
      var k :| k in legacy && Canonical(k) == n;
      NormalizedIsValid(legacy[k]);
    }
  }

  lemma CarriedAgentsAreValid(agents: map<string, Agent>, a1: map<string, Agent>)
    requires GoodAgents(agents) && Carries(agents, Same, a1)
    ensures forall n | n in a1 :: ValidLegacyAgent(a1[n])
  {
    forall n | n in a1
      ensures ValidLegacyAgent(a1[n])
    {
      var k :| k in agents && Canonical(k) == n;
    }
  }

  /** Canonical global keys are among the installed ones, which override them. */
  lemma GlobalIsAbsorbed(global: map<string, Provider>, p: map<string, Provider>, p1: map<string, Provider>)
    requires CanonicalAlready(global) && UnifiedProviders(global + p, map[], p1)
    ensures global + p1 == p1
  {
    forall g | g in global
      ensures g in p1
    {
      assert g in global + p && Canonical(g) in p1;
    }
  }

  lemma InstalledProviders(legacy: map<string, Provider>, p1: map<string, Provider>)
    requires GoodProviders(legacy) && UnifiedProviders(legacy, map[], p1)
    ensures GoodProviders(p1) && UnifiedProviders(p1, map[], p1)
    ensures CanonicalKeys(p1) == CanonicalKeys(legacy)
  {
    NoBackends(legacy, Normalized, IsLLM, AsProvider, p1);
    CarriedProvidersAreValid(legacy, p1);
    SelfUnified(p1, Normalized, IsLLM, AsProvider);
  }

  lemma InstalledAgents(agents: map<string, Agent>, a1: map<string, Agent>)
    requires GoodAgents(agents) && UnifiedAgents(agents, map[], a1)
    ensures GoodAgents(a1) && UnifiedAgents(a1, map[], a1)
    ensures CanonicalKeys(a1) == CanonicalKeys(agents)
  {
    NoBackends(agents, Same, IsAgent, AsAgent, a1);
    CarriedAgentsAreValid(agents, a1);
    SelfUnified(a1, Same, IsAgent, AsAgent);
  }

  /**
    Applying the configuration again to the session it was applied to succeeds exactly
    when no backend is configured and the global provider keys were canonical already.
  */
  lemma SecondApplication(global: Global, p: map<string, Provider>, a: map<string, Agent>, all: map<string, Backend>,
                          p1: map<string, Provider>, a1: map<string, Agent>)
    requires Unifiable(global.providers + p, a, all)
    requires UnifiedProviders(global.providers + p, all, p1) && UnifiedAgents(a, all, a1)
    ensures Unifiable(global.providers + p1, a1, all) <==> all == map[] && CanonicalAlready(global.providers)
  {
    if all != map[] {
      SecondFailsWithBackends(global, p, a, all, p1, a1);
    } else if !CanonicalAlready(global.providers) {
      var raw :| raw in global.providers && Canonical(raw) != raw;
      SecondFailsWithRawKeys(global, p, a, p1, a1, raw);
    } else {
      GlobalIsAbsorbed(global.providers, p, p1);
      InstalledProviders(global.providers + p, p1);
      InstalledAgents(a, a1);
    }
  }

  /** And when it succeeds it changes nothing. */
  lemma SecondChangesNothing(global: Global, p: map<string, Provider>, a: map<string, Agent>, all: map<string, Backend>,
                             p1: map<string, Provider>, a1: map<string, Agent>, p2: map<string, Provider>, a2: map<string, Agent>)
    requires Unifiable(global.providers + p, a, all)
    requires UnifiedProviders(global.providers + p, all, p1) && UnifiedAgents(a, all, a1)
    requires Unifiable(global.providers + p1, a1, all)
    requires UnifiedProviders(global.providers + p1, all, p2) && UnifiedAgents(a1, all, a2)
    ensures p2 == p1 && a2 == a1
  {
    SecondApplication(global, p, a, all, p1, a1);
    GlobalIsAbsorbed(global.providers, p, p1);
    InstalledProviders(global.providers + p, p1);
    InstalledAgents(a, a1);
    OrderDoesNotMatter(p1, a1, map[], p1, a1, p2, a2);
  }

  // ---------------------------------------------------------------- the preflight

  const BUILT_IN_CODEX := Agent(CODEX_TYPE, Some(["codex", "app-server"]), "", "", "", "", "", None, 0)

  /** The names of the two maps can live in one namespace next to the built-in backends. */
  ghost predicate NamespacesOk(providers: map<string, Provider>, agents: map<string, Agent>) {
    && CODEX !in CanonicalKeys(providers)
    && forall k | k in agents ::
         && Canonical(k) != OLLAMA && ValidLegacyAgent(agents[k])
         && Canonical(k) !in CanonicalKeys(providers)
  }

  /** The namespace loops of the preflight. */
  method PreflightNamespaces(providers: map<string, Provider>, agents: map<string, Agent>)
    returns (ok: bool, llmBackends: set<string>, agentBackends: map<string, Agent>)
    ensures ok <==> NamespacesOk(providers, agents)
    ensures ok ==> llmBackends == {OLLAMA, LOCAL} + CanonicalKeys(providers)
    ensures ok ==> agentBackends.Keys == {CODEX} + CanonicalKeys(agents) && llmBackends !! agentBackends.Keys
    ensures ok ==> Offered(agents, map[CODEX := BUILT_IN_CODEX], agentBackends)
  {
    agentBackends := map[CODEX := BUILT_IN_CODEX];
    ok, llmBackends := CollectLLMBackends(providers, agentBackends);
    if !ok {
      return;
    }
    forall k | k in agents
      ensures Canonical(k) != LOCAL
    {
      CanonicalTwice(k);
    }
    ok, agentBackends := AddAgentBackends(agents, llmBackends, agentBackends);
  }

  method CollectLLMBackends(providers: map<string, Provider>, agentBackends: map<string, Agent>)
    returns (ok: bool, llmBackends: set<string>)
    ensures ok <==> CanonicalKeys(providers) !! agentBackends.Keys
    ensures ok ==> llmBackends == {OLLAMA, LOCAL} + CanonicalKeys(providers)
  {
    ok, llmBackends := false, {OLLAMA, LOCAL};
    var todo := providers.Keys;
    while todo != {}
      invariant todo <= providers.Keys
      invariant llmBackends == {OLLAMA, LOCAL} + CanonicalKeys(Restrict(providers, providers.Keys - todo))
      invariant CanonicalKeys(Restrict(providers, providers.Keys - todo)) !! agentBackends.Keys
    {
      var k :| k in todo;
      KeysStep(providers, providers.Keys - todo, k);
      assert providers.Keys - (todo - {k}) == providers.Keys - todo + {k};
      todo := todo - {k};
      if Canonical(k) in agentBackends {
        assert Canonical(k) in CanonicalKeys(providers);
        return;
      }
      llmBackends := llmBackends + {Canonical(k)};
    }
    assert providers.Keys - todo == providers.Keys;
    RestrictAll(providers);
    ok := true;
  }

  /** The built-in codex backend keeps its command when its specialisation names none. */
  function WithDefaultCommand(name: string, backend: Agent): Agent {
    if name == CODEX && backend.kind == CODEX_TYPE && (backend.command == None || backend.command == Some([]))
    then backend.(command := BUILT_IN_CODEX.command)
    else backend
  }

  /** An agent backend is built in and not configured, or comes from an entry of its name. */
  ghost predicate Comes(agents: map<string, Agent>, builtIn: map<string, Agent>, name: string, backend: Agent) {
    || (name !in CanonicalKeys(agents) && name in builtIn && backend == builtIn[name])
    || exists k :: k in agents && Canonical(k) == name && backend == WithDefaultCommand(name, agents[k])
  }

  ghost predicate Offered(agents: map<string, Agent>, builtIn: map<string, Agent>, r: map<string, Agent>) {
    forall n | n in r :: Comes(agents, builtIn, n, r[n])
  }

  lemma OfferedBuiltIn(agents: map<string, Agent>, builtIn: map<string, Agent>)
    ensures Offered(Restrict(agents, {}), builtIn, builtIn)
    ensures CanonicalKeys(Restrict(agents, {})) == {}
  {
  }

  lemma OfferedStep(agents: map<string, Agent>, done: set<string>, k: string, builtIn: map<string, Agent>, r: map<string, Agent>)
    requires k in agents && Offered(Restrict(agents, done), builtIn, r)
    ensures Offered(Restrict(agents, done + {k}), builtIn, r[Canonical(k) := WithDefaultCommand(Canonical(k), agents[k])])
  {
    var t, more := r[Canonical(k) := WithDefaultCommand(Canonical(k), agents[k])], Restrict(agents, done + {k});
    KeysStep(agents, done, k);
    forall n | n in t
      ensures Comes(more, builtIn, n, t[n])
    {
      if n == Canonical(k) {
        assert k in more && more[k] == agents[k];
      } else {
        assert Comes(Restrict(agents, done), builtIn, n, r[n]);
        if n in CanonicalKeys(Restrict(agents, done)) {
          var l :| l in Restrict(agents, done) && Canonical(l) == n && r[n] == WithDefaultCommand(n, agents[l]);
          assert l in more && more[l] == agents[l];
        }
      }
    }
  }

  method AddAgentBackends(agents: map<string, Agent>, llmBackends: set<string>, builtIn: map<string, Agent>)
    returns (ok: bool, agentBackends: map<string, Agent>)
    requires llmBackends !! builtIn.Keys && LOCAL in llmBackends && OLLAMA in llmBackends
    ensures ok <==> forall k | k in agents ::
              Canonical(k) != OLLAMA && ValidLegacyAgent(agents[k]) && Canonical(k) !in llmBackends
    ensures ok ==> agentBackends.Keys == builtIn.Keys + CanonicalKeys(agents)
    ensures ok ==> llmBackends !! agentBackends.Keys
    ensures ok ==> Offered(agents, builtIn, agentBackends)
  {
    ok, agentBackends := false, builtIn;
    var todo := agents.Keys;
    ghost var done: set<string> := {};
    OfferedBuiltIn(agents, builtIn);
    while todo != {}
      invariant todo !! done && todo + done == agents.Keys
      invariant agentBackends.Keys == builtIn.Keys + CanonicalKeys(Restrict(agents, done))
      invariant llmBackends !! agentBackends.Keys
      invariant Offered(Restrict(agents, done), builtIn, agentBackends)
      invariant forall k | k in done ::
        Canonical(k) != OLLAMA && ValidLegacyAgent(agents[k]) && Canonical(k) !in llmBackends
    {
      var k :| k in todo;
      KeysStep(agents, done, k);
      OfferedStep(agents, done, k, builtIn, agentBackends);
      var name, backend := Canonical(k), agents[k];
      if name == OLLAMA || name == LOCAL || !ValidLegacyAgent(backend) || name in llmBackends {
        return;
      }
      todo, done := todo - {k}, done + {k};
      agentBackends := agentBackends[name := WithDefaultCommand(name, backend)];
    }
    assert done == agents.Keys;
    RestrictAll(agents);
    ok := true;
  }

  /**
    After a successful unification the namespace loops of the preflight can fail for one
    reason only: a language-model provider is named like the built-in codex backend.
  */
  lemma PreflightAfterUnification(legacy: map<string, Provider>, agents: map<string, Agent>, all: map<string, Backend>,
                                  p: map<string, Provider>, a: map<string, Agent>)
    requires Unifiable(legacy, agents, all) && UnifiedProviders(legacy, all, p) && UnifiedAgents(agents, all, a)
    ensures NamespacesOk(p, a) <==> CODEX !in p
  {
    UnifiedIsCanonical(legacy, Normalized, all, IsLLM, AsProvider, p);
    UnifiedIsCanonical(agents, Same, all, IsAgent, AsAgent, a);
    UnifiedAgentsFit(agents, all, CanonicalKeys(legacy) + CanonicalKeys(agents), a);
    UnifiedKeysAreDisjoint(legacy, agents, all, p, a);
  }

  lemma UnifiedKeysAreDisjoint(legacy: map<string, Provider>, agents: map<string, Agent>, all: map<string, Backend>,
                               p: map<string, Provider>, a: map<string, Agent>)
    requires Unifiable(legacy, agents, all) && UnifiedProviders(legacy, all, p) && UnifiedAgents(agents, all, a)
    ensures p.Keys !! a.Keys
  {
    var taken := CanonicalKeys(legacy) + CanonicalKeys(agents);
    assert ChosenNames(all, IsLLM) !! ChosenNames(all, IsAgent) by { KindsAreDisjoint(all); }
    assert ChosenNames(all, IsLLM) !! taken by { BackendsAreNew(all, taken, IsLLM); }
    assert ChosenNames(all, IsAgent) !! taken by { BackendsAreNew(all, taken, IsAgent); }
  }

  lemma KindsAreDisjoint(all: map<string, Backend>)
    requires CanonicalNames(all)
    ensures ChosenNames(all, IsLLM) !! ChosenNames(all, IsAgent)
  {
    forall n | n in ChosenNames(all, IsLLM)
      ensures n !in ChosenNames(all, IsAgent)
    {
      var k :| k in all && IsLLM(all[k]) && Canonical(k) == n;
    }
  }

  lemma BackendsAreNew(all: map<string, Backend>, taken: set<string>, chosen: Backend -> bool)
    requires GoodBackends(all, taken)
    ensures ChosenNames(all, chosen) !! taken
  {
  }

  lemma UnifiedAgentsFit(agents: map<string, Agent>, all: map<string, Backend>, taken: set<string>, a: map<string, Agent>)
    requires GoodAgents(agents) && OLLAMA !in CanonicalKeys(agents) && GoodBackends(all, taken)
    requires UnifiedAgents(agents, all, a)
    ensures forall n | n in a :: n != OLLAMA && ValidLegacyAgent(a[n])
  {
    TrimmedStays(CODEX_TYPE);
    forall n | n in a
      ensures n != OLLAMA && ValidLegacyAgent(a[n])
    {
      if n in CanonicalKeys(agents) {
        var k :| k in agents && Canonical(k) == n;
      } else {
        var k :| k in all && IsAgent(all[k]) && Canonical(k) == n;
        assert ValidBackend(n, all[k]);
      }
    }
  }
}
