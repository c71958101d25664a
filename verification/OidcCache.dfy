/** The cache of OIDC runtimes: calls read it, build outside the lock and write it back, interleaved with each other and
    with edits of the providers. */
module OidcCache {
  import opened Options

  /** A stored auth provider; `oidc` is its OIDC section, if it has one. */
  datatype Provider = Provider(name: string, version: nat, oidc: Option<string>)

  /** A runtime remembers the section it was built from and what the client secret and discovery gave at that time. */
  datatype Runtime = Runtime(oidc: string, environment: string)

  datatype Entry = Entry(version: nat, runtime: Runtime)

  type Cache = map<string, Entry>

  datatype Result = Ok(runtime: Runtime) | Error

  predicate Hit(cache: Cache, provider: Provider) {
    provider.name in cache && cache[provider.name].version == provider.version
  }

  /** The cache as one caller sees it when nobody interferes; `environment` is None when the build fails. */
  class AuthRuntime {
    var oidcCache: Cache

    constructor ()
      ensures oidcCache == map[]
    {
      oidcCache := map[];
    }

    method OidcProvider(provider: Provider, environment: Option<string>) returns (result: Result)
      modifies this
      ensures provider.oidc.None? ==> result.Error? && oidcCache == old(oidcCache)
      ensures provider.oidc.Some? && Hit(old(oidcCache), provider) ==>
                result == Ok(old(oidcCache)[provider.name].runtime) && oidcCache == old(oidcCache)
      ensures provider.oidc.Some? && !Hit(old(oidcCache), provider) ==>
                if environment.None? then result.Error? && oidcCache == old(oidcCache)
                else && result == Ok(Runtime(provider.oidc.value, environment.value))
                     && oidcCache == old(oidcCache)[provider.name := Entry(provider.version, result.runtime)]
    {
      if provider.oidc.None? {
        return Error;
      }
      if provider.name in oidcCache && oidcCache[provider.name].version == provider.version {
        return Ok(oidcCache[provider.name].runtime);
      }
      if environment.None? {
        return Error;
      }
      var runtime := Runtime(provider.oidc.value, environment.value);
      oidcCache := oidcCache[provider.name := Entry(provider.version, runtime)];
      return Ok(runtime);
    }
  }

  /* ---------- Interleaved calls ---------- */

  datatype Call =
    | Fetched(provider: Provider)
    | Building(provider: Provider)
    | Writing(provider: Provider, runtime: Runtime)
    | Returned(provider: Provider, result: Result)

  /** Every write to the API server takes a fresh revision; `issued` remembers what each revision was given to. */
  datatype State = State(providers: map<string, Provider>, revision: nat, issued: map<nat, Provider>,
                         cache: Cache, calls: map<nat, Call>)

  const INITIAL := State(map[], 0, map[], map[], map[])

  datatype Step =
    | Edit(name: string, oidc: Option<string>)
    | Remove(name: string)
    | Fetch(call: nat, name: string)
    | Read(call: nat)
    | Build(call: nat, environment: Option<string>)
    | Write(call: nat)

  ghost predicate Enabled(state: State, step: Step) {
    match step
    case Edit(_, _) => true
    case Remove(_) => true
    case Fetch(call, name) => call !in state.calls && name in state.providers
    case Read(call) => call in state.calls && state.calls[call].Fetched?
    case Build(call, _) => call in state.calls && state.calls[call].Building? && state.calls[call].provider.oidc.Some?
    case Write(call) => call in state.calls && state.calls[call].Writing?
  }

  function Move(state: State, call: nat, next: Call): State {
    state.(calls := state.calls[call := next])
  }

  ghost function Apply(state: State, step: Step): State
    requires Enabled(state, step)
  {
    match step
    case Edit(name, oidc) =>
      var provider := Provider(name, state.revision, oidc);
      state.(providers := state.providers[name := provider], issued := state.issued[state.revision := provider],
             revision := state.revision + 1)
    case Remove(name) => state.(providers := state.providers - {name})
    case Fetch(call, name) => Move(state, call, Fetched(state.providers[name]))
    case Read(call) =>
      var provider := state.calls[call].provider;
      if provider.oidc.None? then Move(state, call, Returned(provider, Error))
      else if Hit(state.cache, provider) then
          Move(state, call, Returned(provider, Ok(state.cache[provider.name].runtime)))
      else Move(state, call, Building(provider))
    case Build(call, environment) =>
      var provider := state.calls[call].provider;
      if environment.None? then Move(state, call, Returned(provider, Error))
      else Move(state, call, Writing(provider, Runtime(provider.oidc.value, environment.value)))
    case Write(call) =>
      var provider, runtime := state.calls[call].provider, state.calls[call].runtime;
      var next := Move(state, call, Returned(provider, Ok(runtime)));
      next.(cache := state.cache[provider.name := Entry(provider.version, runtime)])
  }

  ghost predicate Runs(start: State, steps: seq<Step>, end: State)
    decreases |steps|
  {
    if steps == [] then start == end else Enabled(start, steps[0]) && Runs(Apply(start, steps[0]), steps[1..], end)
  }

  ghost predicate Issued(state: State, provider: Provider) {
    provider.version in state.issued && state.issued[provider.version] == provider
  }

  ghost predicate BuiltFrom(provider: Provider, runtime: Runtime) {
    provider.oidc == Some(runtime.oidc)
  }

  ghost predicate SoundCall(state: State, call: Call) {
    && Issued(state, call.provider)
    && (call.Building? ==> call.provider.oidc.Some?)
    && (call.Writing? ==> BuiltFrom(call.provider, call.runtime))
    && (call.Returned? && call.result.Ok? ==> BuiltFrom(call.provider, call.result.runtime))
  }

  /** Each cache entry was built from the provider that its revision was issued to. */
  ghost predicate SoundEntry(state: State, name: string, entry: Entry) {
    entry.version in state.issued && state.issued[entry.version].name == name
        && BuiltFrom(state.issued[entry.version], entry.runtime)
  }

  ghost predicate Sound(state: State) {
    && (forall version | version in state.issued :: version < state.revision)
    && (forall name | name in state.providers ::
          state.providers[name].name == name && Issued(state, state.providers[name]))
    && (forall name | name in state.cache :: SoundEntry(state, name, state.cache[name]))
    && (forall call | call in state.calls :: SoundCall(state, state.calls[call]))
  }

  lemma EditStaysSound(state: State, name: string, oidc: Option<string>)
    requires Sound(state)
    ensures Sound(Apply(state, Edit(name, oidc)))
  {
    var next := Apply(state, Edit(name, oidc));
    assert forall provider | Issued(state, provider) :: Issued(next, provider);
    assert forall name, entry | SoundEntry(state, name, entry) :: SoundEntry(next, name, entry);
    assert forall call | SoundCall(state, call) :: SoundCall(next, call);
  }

  lemma MoveStaysSound(state: State, call: nat, moved: Call)
    requires Sound(state) && SoundCall(state, moved)
    ensures Sound(Move(state, call, moved))
  {
    var next := Move(state, call, moved);
    assert forall provider | Issued(state, provider) :: Issued(next, provider);
    assert forall name, entry | SoundEntry(state, name, entry) :: SoundEntry(next, name, entry);
    assert forall call | SoundCall(state, call) :: SoundCall(next, call);
  }

  lemma WriteStaysSound(state: State, name: string, entry: Entry)
    requires Sound(state) && SoundEntry(state, name, entry)
    ensures Sound(state.(cache := state.cache[name := entry]))
  {
    var next := state.(cache := state.cache[name := entry]);
    assert forall provider | Issued(state, provider) :: Issued(next, provider);
    assert forall name, entry | SoundEntry(state, name, entry) :: SoundEntry(next, name, entry);
    assert forall call | SoundCall(state, call) :: SoundCall(next, call);
  }

  /** What a call knows after each of its own steps follows from what was sound before. */
  lemma CallStepStaysSound(state: State, step: Step)
    requires Sound(state) && Enabled(state, step) && (step.Fetch? || step.Read? || step.Build?)
    ensures Sound(Apply(state, step))
  {
    match step
    case Fetch(call, name) =>
      MoveStaysSound(state, call, Fetched(state.providers[name]));
    case Read(call) =>
      var provider := state.calls[call].provider;
      assert SoundCall(state, state.calls[call]);
      if provider.oidc.Some? && Hit(state.cache, provider) {
        assert SoundEntry(state, provider.name, state.cache[provider.name]);
      }
      MoveStaysSound(state, call, Apply(state, step).calls[call]);
    case Build(call, environment) =>
      assert SoundCall(state, state.calls[call]);
      MoveStaysSound(state, call, Apply(state, step).calls[call]);
  }

  lemma StepStaysSound(state: State, step: Step)
    requires Sound(state) && Enabled(state, step)
    ensures Sound(Apply(state, step))
  {
    match step
    case Edit(name, oidc) => EditStaysSound(state, name, oidc);
    case Remove(name) =>
      var next := Apply(state, step);
      assert forall call | SoundCall(state, call) :: SoundCall(next, call);
      assert forall name, entry | SoundEntry(state, name, entry) :: SoundEntry(next, name, entry);
    case Write(call) =>
      var provider, runtime := state.calls[call].provider, state.calls[call].runtime;
      assert SoundCall(state, state.calls[call]);
      MoveStaysSound(state, call, Returned(provider, Ok(runtime)));
      WriteStaysSound(Move(state, call, Returned(provider, Ok(runtime))), provider.name,
                      Entry(provider.version, runtime));
    case _ => CallStepStaysSound(state, step);
  }

  lemma {:induction false} RunStaysSound(start: State, steps: seq<Step>, end: State)
    requires Sound(start) && Runs(start, steps, end)
    ensures Sound(end)
    decreases |steps|
  {
    if steps != [] {
      StepStaysSound(start, steps[0]);
      RunStaysSound(Apply(start, steps[0]), steps[1..], end);
    }
  }

  /** Under any interleaving, a call that succeeds returns a runtime built from the very provider it was given, even if
      the provider has changed since or a slower call has put an older entry back into the cache. */
  lemma CallsGetTheirOwnProvider(steps: seq<Step>, end: State, call: nat)
    requires Runs(INITIAL, steps, end)
    requires call in end.calls && end.calls[call].Returned? && end.calls[call].result.Ok?
    ensures end.calls[call].provider.oidc == Some(end.calls[call].result.runtime.oidc)
  {
    RunStaysSound(INITIAL, steps, end);
    assert SoundCall(end, end.calls[call]);
  }

  /* ---------- Reuse ---------- */

  /** No call writes a runtime for the provider's name. */
  ghost predicate WritesOthers(start: State, steps: seq<Step>, name: string)
    decreases |steps|
  {
    steps == [] || (Enabled(start, steps[0])
                    && (steps[0].Write? ==> start.calls[steps[0].call].provider.name != name)
                    && WritesOthers(Apply(start, steps[0]), steps[1..], name))
  }

  lemma {:induction false} EntryStays(start: State, steps: seq<Step>, end: State, name: string, entry: Entry)
    requires Runs(start, steps, end) && WritesOthers(start, steps, name)
    requires name in start.cache && start.cache[name] == entry
    ensures name in end.cache && end.cache[name] == entry
    decreases |steps|
  {
    if steps != [] {
      EntryStays(Apply(start, steps[0]), steps[1..], end, name, entry);
    }
  }

  /** Once a call has written a runtime, every call that was given the same revision of the provider returns it as soon
      as it reads the cache, without building, until another runtime is written for the provider's name; and a call that
      was given another revision builds its own. */
  lemma WrittenRuntimeIsReused(start: State, first: nat, steps: seq<Step>, end: State, second: nat)
    requires Enabled(start, Write(first)) && Runs(Apply(start, Write(first)), steps, end)
    requires var provider := start.calls[first].provider;
             WritesOthers(Apply(start, Write(first)), steps, provider.name)
             && Enabled(end, Read(second)) && end.calls[second].provider.name == provider.name
    requires end.calls[second].provider.oidc.Some?
    ensures var wanted, next := end.calls[second].provider, Apply(end, Read(second));
            next == Move(end, second,
                         if wanted.version == start.calls[first].provider.version
                         then Returned(wanted, Ok(start.calls[first].runtime)) else Building(wanted))
  {
    var Writing(provider, runtime) := start.calls[first];
    EntryStays(Apply(start, Write(first)), steps, end, provider.name, Entry(provider.version, runtime));
  }
}
