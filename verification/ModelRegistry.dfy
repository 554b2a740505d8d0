/** Where the models behind the caches come from: the registry of loaded models, filled on demand and
    looked up by model key (`load_or_get` in runtime/backend.rs), around the step system of PromptCaches. */
module ModelRegistry {
  import opened Text
  import opened CacheKeys
  import opened Utf8
  import opened PromptCaches
  import S = Session
  import ContextBudget

  /** What the model file at a path contains, the models that can be asked for, by identifier and path,
      and the hash functions. */
  datatype Library = Library(load: string -> S.Model, catalog: set<(string, string)>, hashes: Hashes)

  /** A request as it comes in: its model is named by identifier and path, and nobody has looked at the
      length of its texts yet. */
  datatype Asked = Asked(
    id: string, path: string, modelContextLength: nat, config: Config, prefix: string, suffix: string, maxTokens: nat)

  function KeyOf(a: Asked): string { ModelKey(a.id, a.path) }

  /** Widths of the integers, and a model of the catalog. */
  predicate Plausible(l: Library, a: Asked) {
    && (a.id, a.path) in l.catalog
    && a.modelContextLength <= ContextBudget.U32_MAX && a.maxTokens > 0 && |EncodeText(a.prefix)| < Power256(8)
  }

  // ---------- The request once its model is at hand ----------

  function CountTokens(model: S.Model, text: string): nat {
    match model.tokenize(text) case Some(tokens) => |tokens| case None => 0
  }

  /** The tokenizer of the loaded model and the selector choose the context; None when they refuse. */
  function Resolved(model: S.Model, a: Asked): Option<Request> {
    if model.tokenize(a.prefix).None? || model.tokenize(a.suffix).None? then None
    else
      match ContextBudget.SelectContextLength(
        ContextBudget.SaturatingAdd(CountTokens(model, a.prefix), CountTokens(model, a.suffix)),
        a.maxTokens, a.modelContextLength)
      case None => None
      case Some(n) => Some(Request(KeyOf(a), a.modelContextLength, a.config, a.prefix, a.suffix, a.maxTokens, n))
  }

  /** `r` is `a` with some context length. */
  predicate Describes(a: Asked, r: Request) {
    r == Request(KeyOf(a), a.modelContextLength, a.config, a.prefix, a.suffix, a.maxTokens, r.contextLength)
  }

  lemma ResolvedIsAdmitted(l: Library, w: World, a: Asked, r: Request)
    requires Plausible(l, a) && Describes(a, r)
    ensures Admitted(w, r) <==> Resolved(w.models(KeyOf(a)), a) == Some(r)
  {
    hide ContextBudget.SelectContextLength, ContextBudget.SaturatingAdd, EncodeText, Power256;
  }

  // ---------- Registry and world ----------

  /** Stands for the models that are not loaded: it can do nothing. */
  const NO_MODEL: S.Model := S.Model(text => None, tokens => 0, token => None, token => true)

  function WorldOf(registry: map<string, S.Model>, hashes: Hashes): World {
    World(k => if k in registry then registry[k] else NO_MODEL, hashes)
  }

  ghost predicate Grows(before: map<string, S.Model>, after: map<string, S.Model>) {
    forall k :: k in before ==> k in after && after[k] == before[k]
  }

  /** Loads a model under its key unless the key is taken. */
  function Loaded(l: Library, registry: map<string, S.Model>, id: string, path: string): (r: map<string, S.Model>)
    ensures ModelKey(id, path) in r && Grows(registry, r)
  {
    var key := ModelKey(id, path);
    if key in registry then registry else registry[key := l.load(path)]
  }

  // ---------- The whole system ----------

  datatype Host = Host(registry: map<string, S.Model>, asked: map<nat, Asked>, machine: Machine)

  datatype HostStep =
    | Load(id: string, path: string)
    | Enter(call: nat, kind: Kind, request: Asked)
    | Inner(step: Step)

  ghost predicate HostEnabled(l: Library, h: Host, step: HostStep) {
    var w := WorldOf(h.registry, l.hashes);
    match step
    case Load(id, path) => (id, path) in l.catalog
    case Enter(c, kind, a) =>
      && KeyOf(a) in h.registry && Plausible(l, a) && Resolved(h.registry[KeyOf(a)], a).Some?
      && Enabled(w, h.machine, Spawn(c, kind, Resolved(h.registry[KeyOf(a)], a).value))
    case Inner(inner) => !inner.Spawn? && Enabled(w, h.machine, inner)
  }

  ghost function HostApply(l: Library, h: Host, step: HostStep): Host
    requires HostEnabled(l, h, step)
  {
    var w := WorldOf(h.registry, l.hashes);
    match step
    case Load(id, path) => h.(registry := Loaded(l, h.registry, id, path))
    case Enter(c, kind, a) =>
      var r := Resolved(h.registry[KeyOf(a)], a).value;
      h.(asked := h.asked[c := a], machine := Apply(w, h.machine, Spawn(c, kind, r)))
    case Inner(inner) => h.(machine := Apply(w, h.machine, inner))
  }

  const EMPTY: Host := Host(map[], map[], INITIAL)

  ghost predicate HostNext(l: Library, h: Host, h': Host) {
    exists step :: HostEnabled(l, h, step) && h' == HostApply(l, h, step)
  }

  ghost predicate IsHostRun(l: Library, run: seq<Host>) {
    && run != [] && run[0] == EMPTY
    && forall i :: 0 <= i < |run| - 1 ==> HostNext(l, run[i], run[i + 1])
  }

  // ---------- What the registry keeps ----------

  /** Every entry is what some model of the catalog with this key contains. */
  ghost predicate RegistryInv(l: Library, registry: map<string, S.Model>) {
    forall k :: k in registry ==>
      exists id, path :: (id, path) in l.catalog && k == ModelKey(id, path) && registry[k] == l.load(path)
  }

  /** Every call works on the request that the registered model made of what was asked. */
  ghost predicate CallsKnown(l: Library, h: Host) {
    forall c :: c in h.machine.calls ==> c in h.asked && IsKnown(l, h, c)
  }

  ghost predicate IsKnown(l: Library, h: Host, c: nat)
    requires c in h.machine.calls && c in h.asked
  {
    var a := h.asked[c];
    KeyOf(a) in h.registry && Plausible(l, a) && Resolved(h.registry[KeyOf(a)], a) == Some(h.machine.calls[c].request)
  }

  ghost predicate HostInv(l: Library, h: Host) { RegistryInv(l, h.registry) && CallsKnown(l, h) }

  /** Spawning adds one call, and the other steps change no call's request. */
  lemma SpawnAddsCall(w: World, m: Machine, step: Step)
    requires step.Spawn? && Enabled(w, m, step)
    ensures Apply(w, m, step).calls == m.calls[step.call := Call(step.kind, step.request, Started)]
    ensures Admitted(w, step.request)
  {
    hide Admitted;
  }

  ghost predicate SameRequests(m: Machine, m': Machine) {
    m'.calls.Keys == m.calls.Keys && forall c :: c in m.calls ==> m'.calls[c].request == m.calls[c].request
  }

  lemma OwnStepsKeepRequests(w: World, m: Machine, step: Step)
    requires IsOwnStep(step) && Enabled(w, m, step)
    ensures SameRequests(m, Apply(w, m, step))
  {
    hide Admitted, PrefixState, PromptState, NewState, PromptKeyOf, InputKeyOf, CanContinue, Possible, TokensOf;
    hide StorePrepared, S.Advanced, S.Spoiled, NextToken, Own, StoreStep, CheckStep, HasCopy;
  }

  lemma CacheStepsKeepRequests(w: World, m: Machine, step: Step)
    requires !step.Spawn? && !IsOwnStep(step) && Enabled(w, m, step)
    ensures SameRequests(m, Apply(w, m, step))
  {
    hide Admitted, PrefixState, PromptState, NewState, PromptKeyOf, InputKeyOf, CanContinue, Possible, TokensOf;
    hide StorePrepared, S.Advanced, S.Spoiled, NextToken, Own;
  }

  lemma CallsStay(w: World, m: Machine, step: Step)
    requires !step.Spawn? && Enabled(w, m, step)
    ensures SameRequests(m, Apply(w, m, step))
  {
    hide *;
    if IsOwnStep(step) {
      OwnStepsKeepRequests(w, m, step);
    } else {
      CacheStepsKeepRequests(w, m, step);
    }
  }

  lemma LoadedKeepsInv(l: Library, registry: map<string, S.Model>, id: string, path: string)
    requires RegistryInv(l, registry) && (id, path) in l.catalog
    ensures RegistryInv(l, Loaded(l, registry, id, path))
  {
    hide ModelKey;
    var after := Loaded(l, registry, id, path);
    forall k | k in after
      ensures exists i, p :: (i, p) in l.catalog && k == ModelKey(i, p) && after[k] == l.load(p)
    {
      if k !in registry {
        assert k == ModelKey(id, path) && after[k] == l.load(path);
      }
    }
  }

  lemma HostStepKeepsInv(l: Library, h: Host, step: HostStep)
    requires HostInv(l, h) && HostEnabled(l, h, step)
    ensures HostInv(l, HostApply(l, h, step)) && Grows(h.registry, HostApply(l, h, step).registry)
  {
    hide Apply, Enabled, Resolved, Plausible, ModelKey;
    match step
    case Load(id, path) => LoadedKeepsInv(l, h.registry, id, path);
    case Enter(c, kind, a) =>
      SpawnAddsCall(WorldOf(h.registry, l.hashes), h.machine, Spawn(c, kind, Resolved(h.registry[KeyOf(a)], a).value));
    case Inner(inner) =>
      CallsStay(WorldOf(h.registry, l.hashes), h.machine, inner);
  }

  lemma {:induction false} HostRunKeepsInv(l: Library, run: seq<Host>, i: nat, j: nat)
    requires IsHostRun(l, run) && i <= j < |run|
    ensures HostInv(l, run[i]) && HostInv(l, run[j]) && Grows(run[i].registry, run[j].registry)
    decreases j
  {
    hide HostEnabled, HostApply, HostInv;
    if j == 0 {
      NothingKnown(l);
    } else {
      if i == j {
        HostRunKeepsInv(l, run, j - 1, j - 1);
      } else {
        HostRunKeepsInv(l, run, i, j - 1);
      }
      assert HostNext(l, run[j - 1], run[j]);
      var step :| HostEnabled(l, run[j - 1], step) && run[j] == HostApply(l, run[j - 1], step);
      HostStepKeepsInv(l, run[j - 1], step);
    }
  }

  lemma NothingKnown(l: Library)
    ensures HostInv(l, EMPTY)
  {
  }

  // ---------- One world for the whole run ----------

  /** The two worlds hash alike and have the same model for this request. */
  ghost predicate Alike(w: World, v: World, r: Request) { w.hashes == v.hashes && ModelOf(w, r) == ModelOf(v, r) }

  lemma SameModelSameSpawn(w: World, v: World, m: Machine, step: Step)
    requires step.Spawn? && Alike(w, v, step.request)
    ensures Enabled(w, m, step) <==> Enabled(v, m, step)
    ensures Enabled(w, m, step) ==> Apply(w, m, step) == Apply(v, m, step)
  {
    hide Admitted, Alike;
    SameModelSameStates(w, v, step.request);
  }

  /** A step sees nothing of the world but the model of its own request and the hash functions. */
  lemma SameModelSameStep(w: World, v: World, m: Machine, step: Step)
    requires !step.Spawn? && step.call in m.calls && Alike(w, v, m.calls[step.call].request)
    ensures Enabled(w, m, step) <==> Enabled(v, m, step)
    ensures Enabled(w, m, step) ==> Apply(w, m, step) == Apply(v, m, step)
  {
    hide Admitted, PrefixState, PromptState, NewState, PromptKeyOf, InputKeyOf, CanContinue, Possible, TokensOf;
    hide StorePrepared;
    hide S.Advanced, S.Spoiled, NextToken, ModelOf, Alike, Own, Feed, Add, Put, At, TakeMatching;
    SameModelSameStates(w, v, m.calls[step.call].request);
  }

  lemma SameModelSameStates(w: World, v: World, r: Request)
    requires Alike(w, v, r)
    ensures Admitted(w, r) == Admitted(v, r) && NewState(w, r) == NewState(v, r)
    ensures PrefixState(w, r) == PrefixState(v, r) && PromptState(w, r) == PromptState(v, r)
    ensures PromptKeyOf(w, r) == PromptKeyOf(v, r) && InputKeyOf(w, r) == InputKeyOf(v, r)
    ensures forall text :: TokensOf(w, r, text) == TokensOf(v, r, text)
  {
    hide ContextBudget.SelectContextLength, S.Advanced, PromptKey, InputKey, EncodeText, Power256;
  }

  lemma RegisteredModel(registry: map<string, S.Model>, final: map<string, S.Model>, hashes: Hashes, r: Request)
    requires r.modelKey in registry && Grows(registry, final)
    ensures ModelOf(WorldOf(registry, hashes), r) == ModelOf(WorldOf(final, hashes), r) == registry[r.modelKey]
    ensures Alike(WorldOf(registry, hashes), WorldOf(final, hashes), r)
  {
  }

  lemma StepHasCall(w: World, m: Machine, step: Step)
    requires !step.Spawn? && Enabled(w, m, step)
    ensures step.call in m.calls
  {
  }

  lemma KnownRequest(l: Library, h: Host, c: nat)
    requires CallsKnown(l, h) && c in h.machine.calls
    ensures h.machine.calls[c].request.modelKey in h.registry
  {
    assert IsKnown(l, h, c);
  }

  /** Seen from the registry at the end of a run, every step of the system is a step of the caches. */
  lemma HostStepIsMachineStep(l: Library, h: Host, step: HostStep, final: map<string, S.Model>)
    requires HostInv(l, h) && HostEnabled(l, h, step) && Grows(HostApply(l, h, step).registry, final) &&
      Grows(h.registry, final)
    ensures Next(WorldOf(final, l.hashes), h.machine, HostApply(l, h, step).machine)
  {
    hide Enabled, Apply, ModelOf, WorldOf, Plausible, ModelKey, Alike;
    var w, v := WorldOf(h.registry, l.hashes), WorldOf(final, l.hashes);
    match step
    case Load(_, _) =>
    case Enter(c, kind, a) =>
      var r := Resolved(h.registry[KeyOf(a)], a).value;
      RegisteredModel(h.registry, final, l.hashes, r);
      SameModelSameSpawn(w, v, h.machine, Spawn(c, kind, r));
    case Inner(inner) =>
      StepHasCall(w, h.machine, inner);
      KnownRequest(l, h, inner.call);
      RegisteredModel(h.registry, final, l.hashes, h.machine.calls[inner.call].request);
      SameModelSameStep(w, v, h.machine, inner);
  }

  function Machines(run: seq<Host>): (machines: seq<Machine>)
    ensures |machines| == |run| && forall i :: 0 <= i < |run| ==> machines[i] == run[i].machine
  {
    seq(|run|, i requires 0 <= i < |run| => run[i].machine)
  }

  /** So everything that is proved of the caches for models fixed by their keys holds for a run in
      which models are loaded on the way, with the models that its registry ends up with. */
  lemma ProjectionIsRun(l: Library, run: seq<Host>)
    requires IsHostRun(l, run)
    ensures IsRun(WorldOf(run[|run| - 1].registry, l.hashes), Machines(run))
  {
    hide HostEnabled, HostApply, HostInv, WorldOf, Next;
    var final := run[|run| - 1].registry;
    forall i | 0 <= i < |run| - 1 ensures Next(WorldOf(final, l.hashes), run[i].machine, run[i + 1].machine) {
      HostRunKeepsInv(l, run, i, |run| - 1);
      HostRunKeepsInv(l, run, i + 1, |run| - 1);
      assert HostNext(l, run[i], run[i + 1]);
      var step :| HostEnabled(l, run[i], step) && run[i + 1] == HostApply(l, run[i], step);
      HostStepIsMachineStep(l, run[i], step, final);
    }
  }

  // ---------- What a generating call runs on ----------

  /** The session from which a call without any cache would generate, on the given model. */
  function UncachedOn(hashes: Hashes, model: S.Model, a: Asked): Option<S.SessionState> {
    match Resolved(model, a)
    case None => None
    case Some(r) => Some(PromptState(WorldOf(map[KeyOf(a) := model], hashes), r))
  }

  ghost predicate IsGenerating(h: Host, c: nat) {
    c in h.asked && c in h.machine.calls && h.machine.calls[c].progress.Generating?
  }

  /** Call `c` generates from the session of an uncached call on `model`, advanced by what it has
      generated so far. */
  ghost predicate RunsOn(hashes: Hashes, model: S.Model, h: Host, c: nat)
    requires IsGenerating(h, c)
  {
    var p := h.machine.calls[c].progress;
    var uncached := UncachedOn(hashes, model, h.asked[c]);
    && uncached.Some? && uncached.value.tokens != []
    && p.own in h.machine.sessions && h.machine.sessions[p.own].state == S.Generated(uncached.value, p.generated)
    && S.IsGreedy(model, uncached.value.tokens, p.generated) && |p.generated| <= h.asked[c].maxTokens
  }

  lemma RunTakes(l: Library, run: seq<Host>, i: nat)
    requires IsHostRun(l, run) && i < |run|
    ensures IsHostRun(l, run[..i + 1])
  {
    hide HostNext;
  }

  /** The uncached session on the registered model is the prompt state of the caches' own world. */
  lemma UncachedOnRegistered(registry: map<string, S.Model>, hashes: Hashes, a: Asked, r: Request)
    requires KeyOf(a) in registry && Resolved(registry[KeyOf(a)], a) == Some(r)
    ensures UncachedOn(hashes, registry[KeyOf(a)], a) == Some(PromptState(WorldOf(registry, hashes), r))
    ensures ModelOf(WorldOf(registry, hashes), r) == registry[KeyOf(a)] && r.maxTokens == a.maxTokens
  {
    hide PromptState, ContextBudget.SelectContextLength, ContextBudget.SaturatingAdd, CountTokens, ModelKey;
    SameModelSameStates(WorldOf(registry, hashes), WorldOf(map[KeyOf(a) := registry[KeyOf(a)]], hashes), r);
  }

  /** A run of the whole system up to `i`, seen from the registry at `i`. */
  lemma MachineGenerates(l: Library, run: seq<Host>, i: nat, c: nat)
    requires CollisionFree(l.hashes) && IsHostRun(l, run) && i < |run| && IsGenerating(run[i], c)
    ensures var m, w := run[i].machine, WorldOf(run[i].registry, l.hashes);
      var call := m.calls[c];
      && call.progress.own in m.sessions && PromptState(w, call.request).tokens != []
      && m.sessions[call.progress.own].state == S.Generated(PromptState(w, call.request), call.progress.generated)
      && S.IsGreedy(ModelOf(w, call.request), PromptState(w, call.request).tokens, call.progress.generated)
      && |call.progress.generated| <= call.request.maxTokens
  {
    hide IsHostRun, IsRun, PromptState, CollisionFree, S.Generated, S.Ready, S.IsGreedy, S.Clamped, TokensOf;
    RunTakes(l, run, i);
    ProjectionIsRun(l, run[..i + 1]);
    assert Machines(run[..i + 1])[i] == run[i].machine;
    GenerationRefinesUncached(WorldOf(run[i].registry, l.hashes), Machines(run[..i + 1]), i, c);
  }

  /** Whatever was loaded when, a call generates from the uncached session on the model that is
      registered under its key. */
  lemma RunsOnRegisteredModel(l: Library, run: seq<Host>, i: nat, c: nat)
    requires CollisionFree(l.hashes) && IsHostRun(l, run) && i < |run| && IsGenerating(run[i], c)
    ensures HostInv(l, run[i]) && KeyOf(run[i].asked[c]) in run[i].registry && Plausible(l, run[i].asked[c])
    ensures RunsOn(l.hashes, run[i].registry[KeyOf(run[i].asked[c])], run[i], c)
  {
    hide IsHostRun, PromptState, CollisionFree, S.Generated, WorldOf, UncachedOn, Resolved, Plausible, ModelKey;
    hide RegistryInv;
    var h, a := run[i], run[i].asked[c];
    HostRunKeepsInv(l, run, i, i);
    assert IsKnown(l, h, c);
    MachineGenerates(l, run, i, c);
    UncachedOnRegistered(h.registry, l.hashes, a, h.machine.calls[c].request);
  }

  // ---------- Exactly when the caches are invisible ----------

  /** Call `c` generates from the uncached session on the model that its request names. */
  ghost predicate RunsOnItsOwn(l: Library, h: Host, c: nat)
    requires IsGenerating(h, c)
  {
    RunsOn(l.hashes, l.load(h.asked[c].path), h, c)
  }

  /** In every run every call that was asked `a` and generates does so as if there were no caches: on its
      own model. */
  ghost predicate GeneratesOnItsOwn(l: Library, a: Asked) {
    forall run: seq<Host>, i: nat, c: nat ::
      IsHostRun(l, run) && i < |run| && IsGenerating(run[i], c) && run[i].asked[c] == a ==> RunsOnItsOwn(l, run[i], c)
  }

  /** The models of `a` and `b` are different but share a key, and `b` could run on the model of `a`. */
  ghost predicate Clashes(l: Library, a: Asked, b: Asked) {
    && Plausible(l, a) && Plausible(l, b) && KeyOf(a) == KeyOf(b) && l.load(a.path) != l.load(b.path)
    && UncachedOn(l.hashes, l.load(a.path), b).Some?
    && UncachedOn(l.hashes, l.load(a.path), b).value.tokens != []
  }

  /** No other model could take the place of the one that `b` names. */
  ghost predicate HasItsOwnKey(l: Library, b: Asked) { forall a :: !Clashes(l, a, b) }

  /** Then the model that is registered under its key is its own, if it can run on that at all. */
  lemma RegisteredIsOwn(l: Library, registry: map<string, S.Model>, b: Asked)
    requires RegistryInv(l, registry) && KeyOf(b) in registry && Plausible(l, b) && HasItsOwnKey(l, b)
    requires UncachedOn(l.hashes, registry[KeyOf(b)], b).Some?
    requires UncachedOn(l.hashes, registry[KeyOf(b)], b).value.tokens != []
    ensures registry[KeyOf(b)] == l.load(b.path)
  {
    hide UncachedOn, ModelKey;
    var id, path :| (id, path) in l.catalog && KeyOf(b) == ModelKey(id, path) && registry[KeyOf(b)] == l.load(path);
    assert !Clashes(l, b.(id := id, path := path), b);
  }

  lemma WrongModelClashes(l: Library, run: seq<Host>, i: nat, c: nat)
    requires CollisionFree(l.hashes) && IsHostRun(l, run) && i < |run| && IsGenerating(run[i], c)
    requires !RunsOnItsOwn(l, run[i], c)
    ensures !HasItsOwnKey(l, run[i].asked[c])
  {
    hide IsHostRun, UncachedOn, ModelKey, RegistryInv, HasItsOwnKey, Plausible;
    RunsOnRegisteredModel(l, run, i, c);
    if HasItsOwnKey(l, run[i].asked[c]) {
      RegisteredIsOwn(l, run[i].registry, run[i].asked[c]);
    }
  }

  /** How a request of the caches can have been asked for, when `b` is the one of interest. */
  function AskedAs(a: Asked, b: Asked, rb: Request, r: Request): Asked {
    if r == rb then b else Asked(a.id, a.path, r.modelContextLength, r.config, r.prefix, r.suffix, r.maxTokens)
  }

  ghost predicate IsLifted(l: Library, a: Asked, b: Asked, rb: Request, h: Host, m: Machine) {
    && h.machine == m && h.registry == map[KeyOf(a) := l.load(a.path)]
    && forall c :: c in m.calls ==> c in h.asked && h.asked[c] == AskedAs(a, b, rb, m.calls[c].request)
  }

  lemma HostExtend(l: Library, run: seq<Host>, step: HostStep) returns (longer: seq<Host>)
    requires IsHostRun(l, run) && HostEnabled(l, run[|run| - 1], step)
    ensures IsHostRun(l, longer) && longer[|longer| - 1] == HostApply(l, run[|run| - 1], step) && run <= longer
  {
    hide HostEnabled, HostApply;
    longer := run + [HostApply(l, run[|run| - 1], step)];
    forall i | 0 <= i < |longer| - 1 ensures HostNext(l, longer[i], longer[i + 1]) {
      if i < |run| - 1 {
        assert HostNext(l, run[i], run[i + 1]);
      }
    }
  }

  /** The world in which only the model of `a` is loaded. */
  function WorldWith(l: Library, a: Asked): World { WorldOf(map[KeyOf(a) := l.load(a.path)], l.hashes) }

  /** A spawned request was asked for the loaded model: no other model can admit anything. */
  lemma SpawnWasAsked(l: Library, a: Asked, b: Asked, rb: Request, r: Request)
    requires Plausible(l, a) && Plausible(l, b) && KeyOf(a) == KeyOf(b)
    requires Resolved(l.load(a.path), b) == Some(rb)
    requires Admitted(WorldWith(l, a), r)
    ensures var asked := AskedAs(a, b, rb, r);
      Plausible(l, asked) && KeyOf(asked) == KeyOf(a) && Resolved(l.load(a.path), asked) == Some(r)
  {
    var w := WorldWith(l, a);
    var asked := AskedAs(a, b, rb, r);
    if r != rb {
      assert r.modelKey == KeyOf(a);
      ResolvedIsAdmitted(l, w, asked, r);
    }
  }

  lemma LiftSpawn(l: Library, a: Asked, b: Asked, rb: Request, h: Host, m: Machine, step: Step)
    returns (hostStep: HostStep)
    requires Plausible(l, a) && Plausible(l, b) && KeyOf(a) == KeyOf(b)
    requires Resolved(l.load(a.path), b) == Some(rb)
    requires IsLifted(l, a, b, rb, h, m) && step.Spawn? && Enabled(WorldWith(l, a), m, step)
    ensures HostEnabled(l, h, hostStep)
    ensures IsLifted(l, a, b, rb, HostApply(l, h, hostStep), Apply(WorldWith(l, a), m, step))
  {
    hide Apply, Enabled, Resolved, Plausible, WorldOf, AskedAs, Admitted, KeyOf;
    SpawnAddsCall(WorldWith(l, a), m, step);
    SpawnWasAsked(l, a, b, rb, step.request);
    hostStep := Enter(step.call, step.kind, AskedAs(a, b, rb, step.request));
  }

  lemma LiftInner(l: Library, a: Asked, b: Asked, rb: Request, h: Host, m: Machine, step: Step)
    requires IsLifted(l, a, b, rb, h, m) && !step.Spawn? && Enabled(WorldWith(l, a), m, step)
    ensures HostEnabled(l, h, Inner(step))
    ensures IsLifted(l, a, b, rb, HostApply(l, h, Inner(step)), Apply(WorldWith(l, a), m, step))
  {
    hide Apply, Enabled, Resolved, Plausible, WorldOf, AskedAs, Admitted, ModelKey;
    CallsStay(WorldWith(l, a), m, step);
  }

  /** Every run of the caches on the loaded model is a run of the whole system. */
  lemma {:induction false} LiftRun(l: Library, a: Asked, b: Asked, rb: Request, run: seq<Machine>)
    returns (hosts: seq<Host>)
    requires Plausible(l, a) && Plausible(l, b) && KeyOf(a) == KeyOf(b)
    requires Resolved(l.load(a.path), b) == Some(rb)
    requires IsRun(WorldWith(l, a), run)
    ensures IsHostRun(l, hosts) && IsLifted(l, a, b, rb, hosts[|hosts| - 1], run[|run| - 1])
    decreases |run|
  {
    var w, n := WorldWith(l, a), |run| - 1;
    hide WorldOf, Enabled, Apply, Resolved, UncachedOn;
    if n == 0 {
      hosts := [EMPTY];
      hosts := HostExtend(l, hosts, Load(a.id, a.path));
    } else {
      hide IsLifted, HostEnabled, HostApply;
      hosts := LiftRun(l, a, b, rb, run[..n]);
      assert Next(w, run[n - 1], run[n]);
      if run[n] != run[n - 1] {
        var step :| Enabled(w, run[n - 1], step) && run[n] == Apply(w, run[n - 1], step);
        var hostStep := Inner(step);
        if step.Spawn? {
          hostStep := LiftSpawn(l, a, b, rb, hosts[|hosts| - 1], run[n - 1], step);
        } else {
          LiftInner(l, a, b, rb, hosts[|hosts| - 1], run[n - 1], step);
        }
        hosts := HostExtend(l, hosts, hostStep);
      }
    }
  }

  /** Two models that share a key: load the one, ask for the other, and the second request generates on
      the model of the first. */
  lemma ClashGoesWrong(l: Library, a: Asked, b: Asked) returns (run: seq<Host>)
    requires Clashes(l, a, b)
    ensures IsHostRun(l, run)
    ensures var h := run[|run| - 1];
      && IsGenerating(h, 0) && h.asked[0] == b
      && h.machine.calls[0].progress.own in h.machine.sessions
      && h.machine.sessions[h.machine.calls[0].progress.own].state.model == l.load(a.path)
      && !RunsOnItsOwn(l, h, 0)
  {
    var model := l.load(a.path);
    var w := WorldOf(map[KeyOf(a) := model], l.hashes);
    var rb := Resolved(model, b).value;
    ResolvedIsAdmitted(l, w, b, rb);
    assert Admitted(w, rb);
    PromptStateIsReady(w, rb);
    UncachedModel(l, l.load(b.path), b);
    hide Admitted, PromptState, Resolved, Plausible, UncachedOn, IsRun, IsHostRun;
    assert UncachedOn(l.hashes, model, b) == Some(PromptState(w, rb));
    var machines := UncachedPathGenerates(w, rb, 0);
    run := LiftRun(l, a, b, rb, machines);
    assert machines[|machines| - 1].calls[0].request == rb;
  }

  lemma UncachedModel(l: Library, model: S.Model, b: Asked)
    requires Plausible(l, b)
    ensures UncachedOn(l.hashes, model, b).Some? ==> UncachedOn(l.hashes, model, b).value.model == model
  {
    if Resolved(model, b).Some? {
      var w := WorldOf(map[KeyOf(b) := model], l.hashes);
      ResolvedIsAdmitted(l, w, b, Resolved(model, b).value);
      PromptStateIsReady(w, Resolved(model, b).value);
    }
  }

  /** Calls for a request generate on their own model only, if and only if no different model shares the key
      and could run the request. */
  lemma GenerationIsOwnExactly(l: Library, b: Asked)
    requires CollisionFree(l.hashes)
    ensures GeneratesOnItsOwn(l, b) <==> HasItsOwnKey(l, b)
  {
    hide HostNext, Clashes, RunsOnItsOwn, CollisionFree;
    if a :| Clashes(l, a, b) {
      var run := ClashGoesWrong(l, a, b);
      var i: nat := |run| - 1;
      assert IsHostRun(l, run) && IsGenerating(run[i], 0) && !RunsOnItsOwn(l, run[i], 0);
    } else {
      forall run: seq<Host>, i: nat, c: nat |
        IsHostRun(l, run) && i < |run| && IsGenerating(run[i], c) && run[i].asked[c] == b
        ensures RunsOnItsOwn(l, run[i], c)
      {
        if !RunsOnItsOwn(l, run[i], c) {
          WrongModelClashes(l, run, i, c);
        }
      }
    }
  }

  // ---------- Refusals ----------

  /** What a compression of `b` on this model generates from without any cache; None when it is refused. */
  function ServedFrom(l: Library, model: S.Model, b: Asked): Option<S.SessionState> {
    match UncachedOn(l.hashes, model, b)
    case Some(s) => if s.tokens == [] then None else Some(s)
    case None => None
  }

  /** Neither the registry nor the caches ever make a difference to a compression of `b`: it is refused or
      served as on its own model, and it generates there. */
  ghost predicate CachesAreInvisible(l: Library, b: Asked) {
    && GeneratesOnItsOwn(l, b)
    && forall run: seq<Host>, i: nat ::
         IsHostRun(l, run) && i < |run| && Plausible(l, b) && KeyOf(b) in run[i].registry ==>
           ServedFrom(l, run[i].registry[KeyOf(b)], b) == ServedFrom(l, l.load(b.path), b)
  }

  /** Every model of the catalog with the key of `b` would do the same with it. */
  ghost predicate IsUncontested(l: Library, b: Asked) {
    Plausible(l, b) ==> forall id, path :: (id, path) in l.catalog && ModelKey(id, path) == KeyOf(b) ==>
      ServedFrom(l, l.load(path), b) == ServedFrom(l, l.load(b.path), b)
  }

  lemma UncontestedHasItsOwnKey(l: Library, b: Asked)
    requires IsUncontested(l, b)
    ensures HasItsOwnKey(l, b)
  {
    hide UncachedOn, ModelKey;
    forall a ensures !Clashes(l, a, b) {
      if Clashes(l, a, b) {
        assert (a.id, a.path) in l.catalog && ModelKey(a.id, a.path) == KeyOf(b);
        UncachedModel(l, l.load(a.path), b);
        UncachedModel(l, l.load(b.path), b);
      }
    }
  }

  /** Loading another model first is enough to make a difference. */
  lemma ContestedIsVisible(l: Library, b: Asked, id: string, path: string)
    requires Plausible(l, b) && (id, path) in l.catalog && ModelKey(id, path) == KeyOf(b)
    requires ServedFrom(l, l.load(path), b) != ServedFrom(l, l.load(b.path), b)
    ensures !CachesAreInvisible(l, b)
  {
    hide ServedFrom, ModelKey, Plausible;
    var run := HostExtend(l, [EMPTY], Load(id, path));
    var i: nat := |run| - 1;
    assert KeyOf(b) in run[i].registry && run[i].registry[KeyOf(b)] == l.load(path);
  }

  lemma RegisteredDoesTheSame(l: Library, run: seq<Host>, i: nat, b: Asked)
    requires IsHostRun(l, run) && i < |run| && Plausible(l, b) && KeyOf(b) in run[i].registry && IsUncontested(l, b)
    ensures ServedFrom(l, run[i].registry[KeyOf(b)], b) == ServedFrom(l, l.load(b.path), b)
  {
    hide ServedFrom, ModelKey, Plausible, IsHostRun, CallsKnown;
    HostRunKeepsInv(l, run, i, i);
  }

  /** The caches are invisible to the compressions of a request if and only if every model of the catalog
      with its key would refuse it or serve it in the same way. */
  lemma InvisibleExactly(l: Library, b: Asked)
    requires CollisionFree(l.hashes)
    ensures CachesAreInvisible(l, b) <==> IsUncontested(l, b)
  {
    hide IsHostRun, CollisionFree, ServedFrom, ModelKey, GeneratesOnItsOwn, HasItsOwnKey, Plausible;
    if IsUncontested(l, b) {
      UncontestedHasItsOwnKey(l, b);
      GenerationIsOwnExactly(l, b);
      forall run: seq<Host>, i: nat |
        IsHostRun(l, run) && i < |run| && Plausible(l, b) && KeyOf(b) in run[i].registry
        ensures ServedFrom(l, run[i].registry[KeyOf(b)], b) == ServedFrom(l, l.load(b.path), b)
      {
        RegisteredDoesTheSame(l, run, i, b);
      }
    } else {
      var id, path :| (id, path) in l.catalog && ModelKey(id, path) == KeyOf(b) &&
        ServedFrom(l, l.load(path), b) != ServedFrom(l, l.load(b.path), b);
      ContestedIsVisible(l, b, id, path);
    }
  }

  /** In particular when no identifier of the catalog has a colon. */
  lemma InvisibleWithoutColons(l: Library, b: Asked)
    requires CollisionFree(l.hashes) && forall id, path :: (id, path) in l.catalog ==> NoColon(id)
    ensures CachesAreInvisible(l, b)
  {
    hide ServedFrom;
    if Plausible(l, b) {
      forall id, path | (id, path) in l.catalog && ModelKey(id, path) == KeyOf(b) ensures path == b.path {
        ModelKeyInjective(id, path, b.id, b.path);
      }
    }
    InvisibleExactly(l, b);
  }

  /** Whatever two runs did before, two calls that were asked the same never disagree: what the one has
      generated is the start of what the other has. */
  lemma SameAnswerInEveryRun(l: Library, run1: seq<Host>, i: nat, c: nat, run2: seq<Host>, j: nat, d: nat)
    requires CollisionFree(l.hashes)
    requires IsHostRun(l, run1) && i < |run1| && IsGenerating(run1[i], c)
    requires IsHostRun(l, run2) && j < |run2| && IsGenerating(run2[j], d)
    requires run1[i].asked[c] == run2[j].asked[d] && HasItsOwnKey(l, run1[i].asked[c])
    ensures var g1, g2 := run1[i].machine.calls[c].progress.generated, run2[j].machine.calls[d].progress.generated;
      g1 <= g2 || g2 <= g1
  {
    hide IsHostRun, HasItsOwnKey, CollisionFree, UncachedOn, S.IsGreedy, S.Generated;
    GenerationIsOwnExactly(l, run1[i].asked[c]);
    assert RunsOnItsOwn(l, run1[i], c) && RunsOnItsOwn(l, run2[j], d);
    var a := run1[i].asked[c];
    var prompt := UncachedOn(l.hashes, l.load(a.path), a).value.tokens;
    var g1, g2 := run1[i].machine.calls[c].progress.generated, run2[j].machine.calls[d].progress.generated;
    if |g1| <= |g2| {
      S.GreedyIsDeterministic(l.load(a.path), prompt, g1, g2);
    } else {
      S.GreedyIsDeterministic(l.load(a.path), prompt, g2, g1);
    }
  }

  lemma SmallRequestResolves(hashes: Hashes, model: S.Model, a: Asked)
    requires a.prefix == "" && a.suffix == "x" && a.modelContextLength == 1024 && a.maxTokens == 1
    requires model.tokenize("") == Some([]) && model.tokenize("x") == Some([0])
    ensures UncachedOn(hashes, model, a).Some? && UncachedOn(hashes, model, a).value.tokens != []
    ensures |EncodeText(a.prefix)| < Power256(8)
  {
    ContextBudget.SelectionIsLeast(1, 1, 1024);
    var w := WorldOf(map[KeyOf(a) := model], hashes);
    PromptStateIsReady(w, Resolved(model, a).value);
  }

  /** There are such catalogs: here the two entries of ModelKeyIsAmbiguous. */
  const AMBIGUOUS: set<(string, string)> := {("a:b", "c"), ("a", "b:c")}

  /** With two models that both serve a request, it can run on the wrong one. */
  lemma SomeCatalogClashes(hashes: Hashes, config: Config) returns (l: Library, b: Asked)
    requires CollisionFree(hashes)
    ensures l.hashes == hashes && l.catalog == AMBIGUOUS && !GeneratesOnItsOwn(l, b)
  {
    hide GeneratesOnItsOwn, CollisionFree;
    var load := (path: string) =>
      S.Model(text => Some(if text == "" then [] else [0]), tokens => if path == "c" then 1 else 2,
              token => Some([0x41]), token => false);
    l := Library(load, AMBIGUOUS, hashes);
    var a := Asked("a:b", "c", 1024, config, "", "x", 1);
    b := a.(id := "a", path := "b:c");
    ModelKeyIsAmbiguous();
    assert l.load(a.path).next([]) == 1 && l.load(b.path).next([]) == 2;
    SmallRequestResolves(hashes, l.load(a.path), a);
    SmallRequestResolves(hashes, l.load(a.path), b);
    assert Clashes(l, a, b);
    GenerationIsOwnExactly(l, b);
  }

  /** With one that does not, nothing ever runs on the wrong model, but a request that its own model would
      serve is refused. */
  lemma SomeCatalogRefuses(hashes: Hashes, config: Config) returns (l: Library, b: Asked)
    requires CollisionFree(hashes)
    ensures l.hashes == hashes && l.catalog == AMBIGUOUS && GeneratesOnItsOwn(l, b) && !CachesAreInvisible(l, b)
    ensures ServedFrom(l, l.load("c"), b) == None && ServedFrom(l, l.load(b.path), b).Some?
  {
    hide GeneratesOnItsOwn, CollisionFree, CachesAreInvisible;
    var load := (path: string) =>
      S.Model(text => if path == "c" then None else Some(if text == "" then [] else [0]), tokens => 0,
              token => Some([0x41]), token => false);
    l := Library(load, AMBIGUOUS, hashes);
    b := Asked("a", "b:c", 1024, config, "", "x", 1);
    ModelKeyIsAmbiguous();
    SmallRequestResolves(hashes, l.load(b.path), b);
    assert Resolved(l.load("c"), b) == None;
    ContestedIsVisible(l, b, "a:b", "c");
    forall a ensures !Clashes(l, a, b) {
      OnlyTwoPaths(l, a, b);
    }
    GenerationIsOwnExactly(l, b);
  }

  lemma OnlyTwoPaths(l: Library, a: Asked, b: Asked)
    requires l.catalog == AMBIGUOUS && b.path == "b:c" && Resolved(l.load("c"), b) == None
    ensures !Clashes(l, a, b)
  {
    hide Resolved, KeyOf;
    if Plausible(l, a) {
      assert a.path == "c" || a.path == b.path;
    }
  }
}
