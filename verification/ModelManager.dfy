/** The embedded model manager and the three calls that use it, as one thread runs them
    (runtime/backend.rs).  PromptCaches shows what remains true when many calls interleave. */
module ModelManager {
  import opened Text
  import opened Session
  import opened PromptCaches
  import opened ModelRegistry
  import opened Answers
  import opened SoloCalls
  import opened CacheKeys
  import TextOrder

  class EmbeddedModelManager {
    const library: Library
    var models: map<string, Model>
    var prepared: map<string, LlamaSession>
    var slot: Option<(string, LlamaSession)>

    // The sessions the manager keeps.
    ghost var kept: set<LlamaSession>

    /** The world as far as it has been loaded. */
    ghost function Known(): World
      reads this`models
    {
      WorldOf(models, library.hashes)
    }

    ghost predicate Valid()
      reads this, kept
    {
      && CollisionFree(library.hashes)
      && |prepared| <= MAX_PREPARED_PROMPT_SESSIONS
      && RegistryInv(library, models)
      && (forall k :: k in prepared ==> prepared[k] in kept)
      && PrefixesMatch(Known(), prepared, kept)
      && (slot.Some? ==>
            && slot.value.1 in kept && (forall k :: k in prepared ==> prepared[k] != slot.value.1)
            && InputMatches(Known(), slot.value.0, slot.value.1))
    }

    /** What the caches hold, as values. */
    ghost function Held(): Caches
      requires Valid()
      reads this, kept
    {
      Caches(StatesOf(prepared),
             match slot case Some((key, session)) => Some((key, session.State())) case None => None)
    }

    constructor (library: Library)
      requires CollisionFree(library.hashes)
      ensures Valid() && this.library == library && models == map[] && prepared == map[] && slot == None
    {
      this.library := library;
      models, prepared, slot, kept := map[], map[], None, {};
    }

    /** A model is read from its path only if its key is free; if the key is taken, whatever was loaded
        under it is returned. */
    method LoadOrGet(id: string, path: string) returns (answer: Answer<Model>)
      requires Valid() && (id, path) in library.catalog
      modifies this`models
      ensures Valid()
      ensures answer.Answered? ==>
        models == Loaded(library, old(models), id, path) && answer.value == models[ModelKey(id, path)]
      ensures !answer.Answered? ==> models == old(models) && ModelKey(id, path) !in models
      ensures Held() == old(Held())
    {
      hide PrefixesMatch, InputMatches, RegistryInv, ModelKey, StatesOf;
      var key := ModelKey(id, path);
      if key in models {
        return Answered(models[key]);
      }
      var readable: bool := *;
      if !readable {
        return Failed;
      }
      ghost var before := models;
      models := models[key := library.load(path)];
      answer := Answered(models[key]);
      LoadedKeepsInv(library, before, id, path);
      PrefixesMatchLater(before, models, library.hashes, prepared, kept);
      if slot.Some? {
        InputMatchesLater(before, models, library.hashes, slot.value.0, slot.value.1);
      }
    }

    /** A copy of the stored session; the stored one is not handed out. */
    method GetPreparedSession(ghost r: Request, key: string) returns (answer: Answer<Option<LlamaSession>>)
      requires Valid() && Admitted(Known(), r) && r.prefix != "" && key == PromptKeyOf(Known(), r)
      ensures answer.Answered? ==> (answer.value.Some? <==> key in prepared)
      ensures answer.Answered? && answer.value.Some? ==>
        fresh(answer.value.value) && answer.value.value.State() == PrefixState(Known(), r)
    {
      hide PrefixState, Admitted, PromptKeyOf, IsPrefixSession, InputMatches, RegistryInv;
      if key !in prepared {
        return Answered(None);
      }
      var stored := prepared[key];
      assert IsPrefixSession(Known(), key, stored);
      PrefixSessionIsForAll(Known(), r, stored);
      ParamsAreClamped(Known(), r);
      var copy := stored.DeepCopy();
      match copy
      case None => answer := Failed;
      case Some(session) => answer := Answered(Some(session));
    }

    /** Stores a session; a full cache first loses the entry whose key comes first. */
    method StorePreparedSession(ghost r: Request, key: string, session: LlamaSession)
      requires Valid() && Admitted(Known(), r) && key == PromptKeyOf(Known(), r)
      requires session.State() == PrefixState(Known(), r) && session !in kept
      modifies this`prepared, this`kept
      ensures Valid() && prepared == StorePrepared(old(prepared), key, session)
      ensures kept <= old(kept) + {session}
      ensures Held() == old(Held()).(prepared := StorePrepared(old(Held()).prepared, key, session.State()))
    {
      hide PrefixesMatch, InputMatches, PromptKeyOf, Admitted, PrefixState, StorePrepared, RegistryInv, WorldOf;
      hide StatesOf;
      var updated := Insert(prepared, key, session);
      StoredPrefixesMatch(Known(), prepared, kept, r, session);
      StoredIn(prepared, key, session);
      StoredStates(prepared, key, session);
      prepared, kept := updated, kept + {session};
    }

    method TakePreparedInputSession(ghost r: Request, key: string) returns (found: Option<LlamaSession>)
      requires Valid() && Admitted(Known(), r) && key == InputKeyOf(Known(), r)
      modifies this`slot, this`kept
      ensures Valid() && (slot, found) == TakeMatching(old(slot), key)
      ensures found.Some? ==> found.value !in kept && found.value.State() == PromptState(Known(), r)
      ensures kept <= old(kept)
      ensures Held() == old(Held()).(slot := TakeMatching(old(Held()).slot, key).0)
    {
      hide PromptState, InputKeyOf, Admitted, IsPrefixSession, InputMatches, RegistryInv, StatesOf;
      if slot.Some? && slot.value.0 == key {
        found := Some(slot.value.1);
        InputSessionIsForAll(Known(), r, found.value);
        slot := None;
        kept := kept - {found.value};
      } else {
        found := None;
      }
    }

    method StorePreparedInputSession(ghost r: Request, key: string, session: LlamaSession)
      requires Valid() && Admitted(Known(), r) && key == InputKeyOf(Known(), r)
      requires session.State() == PromptState(Known(), r) && session !in kept
      modifies this`slot, this`kept
      ensures Valid() && slot == Some((key, session))
      ensures Held() == old(Held()).(slot := Some((key, session.State())))
    {
      hide IsPrefixSession, InputKeyOf, Admitted, PromptState, RegistryInv, StatesOf;
      assert InputMatches(Known(), key, session);
      slot, kept := Some((key, session)), kept + {session};
    }

    /** The input session answers exactly the requests with its key. */
    lemma SlotMatches(r: Request)
      requires Valid() && Admitted(Known(), r) && slot.Some? && slot.value.0 == InputKeyOf(Known(), r)
      ensures slot.value.1.State() == PromptState(Known(), r)
    {
      hide PromptState, InputKeyOf, Admitted, InputMatches;
      InputSessionIsForAll(Known(), r, slot.value.1);
    }

    lemma SameKeysHeld()
      requires Valid()
      ensures Held().prepared.Keys == prepared.Keys
      ensures slot.Some? <==> Held().slot.Some?
      ensures slot.Some? ==> Held().slot.value.0 == slot.value.0
    {
      hide PrefixesMatch, InputMatches, RegistryInv, WorldOf, StatesOf;
    }

    lemma OwnUnlessShared(a: Asked)
      requires Valid() && Plausible(library, a) && KeyOf(a) in models
      requires UncachedOn(library.hashes, models[KeyOf(a)], a).Some?
      requires UncachedOn(library.hashes, models[KeyOf(a)], a).value.tokens != []
      ensures HasItsOwnKey(library, a) ==> models[KeyOf(a)] == library.load(a.path)
    {
      hide RegistryInv, UncachedOn, HasItsOwnKey, Plausible, PrefixesMatch, InputMatches;
      if HasItsOwnKey(library, a) {
        RegisteredIsOwn(library, models, a);
      }
    }
  }

  ghost function StatesOf(prepared: map<string, LlamaSession>): (states: map<string, SessionState>)
    reads prepared.Values
    ensures states.Keys == prepared.Keys
  {
    map k | k in prepared :: prepared[k].State()
  }

  /** Storing a session stores its state. */
  lemma StoredStates(prepared: map<string, LlamaSession>, key: string, session: LlamaSession)
    ensures StatesOf(StorePrepared(prepared, key, session)) == StorePrepared(StatesOf(prepared), key, session.State())
  {
    SameKeysStored(prepared, StatesOf(prepared), key, session, session.State());
  }

  /** The session is the one an uncached call would have after the prefix, for a request with this key. */
  ghost predicate IsPrefixSession(w: World, key: string, session: LlamaSession)
    reads session
  {
    exists r :: Admitted(w, r) && PromptKeyOf(w, r) == key && session.State() == PrefixState(w, r)
  }

  ghost predicate PrefixesMatch(w: World, prepared: map<string, LlamaSession>, kept: set<LlamaSession>)
    requires forall k :: k in prepared ==> prepared[k] in kept
    reads kept
  {
    forall k :: k in prepared ==> IsPrefixSession(w, k, prepared[k])
  }

  /** The input session is the one an uncached call would generate from, for a request with this key. */
  ghost predicate InputMatches(w: World, key: string, session: LlamaSession)
    reads session
  {
    exists r :: Admitted(w, r) && InputKeyOf(w, r) == key && session.State() == PromptState(w, r)
  }

  /** Then it is for every request with this key. */
  lemma PrefixSessionIsForAll(w: World, q: Request, session: LlamaSession)
    requires CollisionFree(w.hashes) && Admitted(w, q) && IsPrefixSession(w, PromptKeyOf(w, q), session)
    ensures session.State() == PrefixState(w, q)
  {
    hide PrefixState, Admitted, PromptKeyOf;
    var r :| Admitted(w, r) && PromptKeyOf(w, r) == PromptKeyOf(w, q) && session.State() == PrefixState(w, r);
    SameKeySamePrefix(w, r, q);
  }

  lemma InputSessionIsForAll(w: World, q: Request, session: LlamaSession)
    requires CollisionFree(w.hashes) && Admitted(w, q) && InputMatches(w, InputKeyOf(w, q), session)
    ensures session.State() == PromptState(w, q)
  {
    hide PromptState, Admitted, InputKeyOf;
    var r :| Admitted(w, r) && InputKeyOf(w, r) == InputKeyOf(w, q) && session.State() == PromptState(w, r);
    SameKeySamePrompt(w, r, q);
  }

  lemma AdmittedLater(before: map<string, Model>, after: map<string, Model>, hashes: Hashes, r: Request)
    requires Grows(before, after) && Admitted(WorldOf(before, hashes), r)
    ensures Admitted(WorldOf(after, hashes), r)
    ensures PrefixState(WorldOf(before, hashes), r) == PrefixState(WorldOf(after, hashes), r)
    ensures PromptState(WorldOf(before, hashes), r) == PromptState(WorldOf(after, hashes), r)
    ensures PromptKeyOf(WorldOf(before, hashes), r) == PromptKeyOf(WorldOf(after, hashes), r)
    ensures InputKeyOf(WorldOf(before, hashes), r) == InputKeyOf(WorldOf(after, hashes), r)
  {
    AdmittedIsRegistered(before, hashes, r);
    RegisteredModel(before, after, hashes, r);
    SameModelSameStates(WorldOf(before, hashes), WorldOf(after, hashes), r);
    hide *;
  }

  lemma AdmittedIsRegistered(registry: map<string, Model>, hashes: Hashes, r: Request)
    requires Admitted(WorldOf(registry, hashes), r)
    ensures r.modelKey in registry
  {
  }

  /** What is stored stays right when more models are loaded. */
  lemma PrefixesMatchLater(before: map<string, Model>, after: map<string, Model>, hashes: Hashes,
                           prepared: map<string, LlamaSession>, kept: set<LlamaSession>)
    requires Grows(before, after) && forall k :: k in prepared ==> prepared[k] in kept
    requires PrefixesMatch(WorldOf(before, hashes), prepared, kept)
    ensures PrefixesMatch(WorldOf(after, hashes), prepared, kept)
  {
    hide PrefixState, Admitted, PromptKeyOf, WorldOf, Grows;
    var w := WorldOf(before, hashes);
    forall k | k in prepared ensures IsPrefixSession(WorldOf(after, hashes), k, prepared[k]) {
      assert IsPrefixSession(w, k, prepared[k]);
      var r :| Admitted(w, r) && PromptKeyOf(w, r) == k && prepared[k].State() == PrefixState(w, r);
      AdmittedLater(before, after, hashes, r);
    }
  }

  lemma InputMatchesLater(before: map<string, Model>, after: map<string, Model>, hashes: Hashes,
                          key: string, session: LlamaSession)
    requires Grows(before, after) && InputMatches(WorldOf(before, hashes), key, session)
    ensures InputMatches(WorldOf(after, hashes), key, session)
  {
    hide PromptState, Admitted, InputKeyOf, WorldOf, Grows;
    var w := WorldOf(before, hashes);
    var r :| Admitted(w, r) && InputKeyOf(w, r) == key && session.State() == PromptState(w, r);
    AdmittedLater(before, after, hashes, r);
  }

  lemma StoredPrefixesMatch(w: World, before: map<string, LlamaSession>, kept: set<LlamaSession>, r: Request,
                            session: LlamaSession)
    requires forall k :: k in before ==> before[k] in kept
    requires Admitted(w, r) && PrefixesMatch(w, before, kept) && session.State() == PrefixState(w, r)
    ensures forall k :: k in StorePrepared(before, PromptKeyOf(w, r), session) ==>
      StorePrepared(before, PromptKeyOf(w, r), session)[k] in kept + {session}
    ensures PrefixesMatch(w, StorePrepared(before, PromptKeyOf(w, r), session), kept + {session})
  {
    hide PrefixState, Admitted, PromptKeyOf, StorePrepared;
    assert IsPrefixSession(w, PromptKeyOf(w, r), session);
  }

  method Insert<T>(prepared: map<string, T>, key: string, value: T) returns (r: map<string, T>)
    ensures r == StorePrepared(prepared, key, value)
  {
    r := prepared;
    if key !in prepared && |prepared| >= MAX_PREPARED_PROMPT_SESSIONS {
      var oldest := FirstKey(prepared.Keys);
      r := prepared - {oldest};
    }
    r := r[key := value];
  }

  // ---------- The calls ----------

  /** Creating a context may fail. */
  method CreateSession(model: Model, params: Params) returns (session: Option<LlamaSession>)
    ensures session.Some? ==> fresh(session.value) && session.value.State() == Created(model, params)
  {
    var possible: bool := *;
    if !possible {
      return None;
    }
    var created := new LlamaSession(model, params);
    session := Some(created);
  }

  /** Opens a session and evaluates the prefix under a deadline. */
  method OpenWithPrefix(ghost w: World, r: Request, model: Model, signal: AbortSignal)
    returns (answer: Answer<LlamaSession>)
    requires Admitted(w, r) && r.prefix != "" && model == ModelOf(w, r)
    ensures answer.Answered? ==> fresh(answer.value) && answer.value.State() == PrefixState(w, r)
  {
    hide Admitted;
    var created := CreateSession(model, SessionParams(r));
    if created.None? { return Failed; }
    var session := created.value;
    session.SetAbortSignal(signal);
    var fed := session.AdvanceContext(r.prefix);
    var aborted := signal.IsAborted();
    if aborted { return TimedOut; }
    if !fed { return Failed; }
    PrefixIsReady(w, r);
    answer := Answered(session);
  }

  /** What every call does first: get the model, then find out whether and with which context length
      the request fits it. */
  method Admit(manager: EmbeddedModelManager, a: Asked, signal: AbortSignal) returns (answer: Answer<Request>)
    requires manager.Valid() && Plausible(manager.library, a)
    modifies manager`models
    ensures manager.Valid() && manager.Held() == old(manager.Held())
    ensures Loads(manager.library, old(manager.models), manager.models, a)
    ensures answer.Answered? ==> IsResolved(manager.models, a, answer.value) && Admitted(manager.Known(), answer.value)
  {
    hide EmbeddedModelManager.Valid, Admitted, Resolved;
    var loaded := manager.LoadOrGet(a.id, a.path);
    var aborted := signal.IsAborted();
    if aborted { return TimedOut; }
    match loaded
    case TimedOut => answer := TimedOut;
    case Failed => answer := Failed;
    case Answered(model) =>
      var resolved := Resolved(model, a);
      if resolved.None? { return Failed; }
      ResolvedDescribes(model, a, resolved.value);
      ResolvedIsAdmitted(manager.library, manager.Known(), a, resolved.value);
      answer := Answered(resolved.value);
  }

  /** At most the model of `a` has been loaded, and only if its key was free. */
  ghost predicate Loads(l: Library, before: map<string, Model>, after: map<string, Model>, a: Asked) {
    after == before || after == Loaded(l, before, a.id, a.path)
  }

  /** `r` is what the registered model makes of `a`. */
  ghost predicate IsResolved(models: map<string, Model>, a: Asked, r: Request) {
    KeyOf(a) in models && Resolved(models[KeyOf(a)], a) == Some(r)
  }

  /** What a call that was asked `a` may leave in the caches; one that never gets to them leaves them alone. */
  ghost predicate Leaves(models: map<string, Model>, hashes: Hashes, kind: Kind, a: Asked,
                         before: Caches, after: Caches, done: bool) {
    || (!done && after == before)
    || exists r :: IsResolved(models, a, r) && Effect(WorldOf(models, hashes), kind, r, before, after, done)
  }

  lemma NeverMind(models: map<string, Model>, hashes: Hashes, kind: Kind, a: Asked, caches: Caches)
    ensures forall later: map<string, Model> :: Leaves(later, hashes, kind, a, caches, caches, false)
  {
    hide IsResolved, Effect;
  }

  lemma ResolvedLeaves(models: map<string, Model>, hashes: Hashes, kind: Kind, a: Asked, r: Request,
                       before: Caches, after: Caches, done: bool)
    requires IsResolved(models, a, r) && Effect(WorldOf(models, hashes), kind, r, before, after, done)
    ensures Leaves(models, hashes, kind, a, before, after, done)
  {
    hide IsResolved, Effect;
  }

  lemma ResolvedDescribes(model: Model, a: Asked, r: Request)
    requires Resolved(model, a) == Some(r)
    ensures Describes(a, r)
  {
  }

  method PromptKeyFor(library: Library, r: Request, ghost w: World) returns (key: string)
    requires w.hashes == library.hashes
    ensures key == PromptKeyOf(w, r)
  {
    key := PromptKey(library.hashes, r.modelKey, r.contextLength, r.config, r.prefix);
  }

  method InputKeyFor(library: Library, r: Request, ghost w: World) returns (key: string)
    requires w.hashes == library.hashes
    ensures key == InputKeyOf(w, r)
  {
    key := InputKey(library.hashes, r.modelKey, r.contextLength, r.config, r.prefix, r.suffix);
  }

  /** The key has an entry, and one that was there before has not been touched. */
  ghost predicate IsPrepared(manager: EmbeddedModelManager, before: map<string, LlamaSession>, key: string)
    reads manager
  {
    key in manager.prepared && (key in before ==> manager.prepared == before)
  }

  lemma ResolvedKnowsModel(models: map<string, Model>, hashes: Hashes, a: Asked, r: Request)
    requires IsResolved(models, a, r)
    ensures r.modelKey in models && models[r.modelKey] == ModelOf(WorldOf(models, hashes), r)
    ensures WorldOf(models, hashes).hashes == hashes && r.prefix == a.prefix
  {
  }

  method WarmPrefix(manager: EmbeddedModelManager, r: Request, key: string, model: Model, signal: AbortSignal)
    returns (answer: Answer<bool>)
    requires manager.Valid() && Admitted(manager.Known(), r) && r.prefix != "" && key !in manager.prepared
    requires key == PromptKeyOf(manager.Known(), r) && model == ModelOf(manager.Known(), r)
    modifies manager`prepared, manager`kept
    ensures manager.Valid()
    ensures answer.Answered? ==> answer.value && key in manager.prepared
    ensures !answer.Answered? ==> manager.prepared == old(manager.prepared)
    ensures Effect(manager.Known(), PreparePrefix, r, old(manager.Held()), manager.Held(), answer.Answered?)
  {
    hide StorePrepared, EmbeddedModelManager.Valid, EmbeddedModelManager.Held, WorldOf;
    hide Admitted, PromptKeyOf, InputKeyOf, PromptState, PrefixState, NewState, Ready;
    manager.SameKeysHeld();
    var ready := OpenWithPrefix(manager.Known(), r, model, signal);
    if !ready.Answered? { return if ready.TimedOut? then TimedOut else Failed; }
    var session := ready.value;
    PrefixIsReady(manager.Known(), r);
    var clean := session.DeepCopy();
    var aborted := signal.IsAborted();
    if aborted { return TimedOut; }
    if clean.None? { return Failed; }
    var warmedUp := WarmUp(session, signal);
    if !warmedUp.Answered? { return warmedUp; }
    manager.StorePreparedSession(r, key, clean.value);
    answer := Answered(true);
  }

  /** With the prefix already stored there is nothing to do. */
  method WarmUnlessStored(manager: EmbeddedModelManager, r: Request, model: Model, signal: AbortSignal)
    returns (answer: Answer<bool>)
    requires manager.Valid() && Admitted(manager.Known(), r) && r.prefix != "" && model == ModelOf(manager.Known(), r)
    modifies manager`prepared, manager`kept
    ensures manager.Valid()
    ensures answer.Answered? ==>
      answer.value && IsPrepared(manager, old(manager.prepared), PromptKeyOf(manager.Known(), r))
    ensures !answer.Answered? ==> manager.prepared == old(manager.prepared)
    ensures Effect(manager.Known(), PreparePrefix, r, old(manager.Held()), manager.Held(), answer.Answered?)
  {
    hide StorePrepared, EmbeddedModelManager.Valid, EmbeddedModelManager.Held, Effect, Admitted, PromptKeyOf;
    var key := PromptKeyFor(manager.library, r, manager.Known());
    manager.SameKeysHeld();
    if key in manager.prepared {
      PrefixIsThere(manager.Known(), r, manager.Held());
      return Answered(true);
    }
    answer := WarmPrefix(manager, r, key, model, signal);
  }

  /** Warms the prefix cache before the first request: the prefix is evaluated, copied while clean,
      one token is generated, and then the clean copy is stored.  Without a prefix there is nothing to do. */
  method PreparePromptPrefix(manager: EmbeddedModelManager, a: Asked) returns (answer: Answer<bool>)
    requires manager.Valid() && Plausible(manager.library, a)
    modifies manager
    ensures manager.Valid() && manager.slot == old(manager.slot)
    ensures Loads(manager.library, old(manager.models), manager.models, a)
    ensures answer.Answered? ==> (answer.value <==> a.prefix != "")
    ensures answer.Answered? && answer.value ==> exists r ::
      && IsResolved(manager.models, a.(suffix := ""), r)
      && IsPrepared(manager, old(manager.prepared), PromptKeyOf(manager.Known(), r))
    ensures !answer.Answered? || !answer.value ==> manager.prepared == old(manager.prepared)
    ensures Leaves(manager.models, manager.library.hashes, PreparePrefix, a.(suffix := ""),
                   old(manager.Held()), manager.Held(), answer == Answered(true))
  {
    hide EmbeddedModelManager.Valid, EmbeddedModelManager.Held, Resolved, WorldOf, Effect, Leaves, IsPrepared;
    hide Admitted, PromptKeyOf;
    NeverMind(manager.models, manager.library.hashes, PreparePrefix, a.(suffix := ""), manager.Held());
    var signal := new AbortSignal();
    var loaded := manager.LoadOrGet(a.id, a.path);
    var aborted := signal.IsAborted();
    if aborted { return TimedOut; }
    if !loaded.Answered? { return Failed; }
    if a.prefix == "" { return Answered(false); }
    var admitted := Admit(manager, a.(suffix := ""), signal);
    if !admitted.Answered? { return if admitted.TimedOut? then TimedOut else Failed; }
    var r := admitted.value;
    ResolvedKnowsModel(manager.models, manager.library.hashes, a.(suffix := ""), r);
    ghost var before := manager.Held();
    answer := WarmUnlessStored(manager, r, manager.models[r.modelKey], signal);
    ResolvedLeaves(manager.models, manager.library.hashes, PreparePrefix, a.(suffix := ""), r,
                   before, manager.Held(), answer.Answered?);
  }

  /** Generates one token and drops the session. */
  method WarmUp(session: LlamaSession, signal: AbortSignal) returns (answer: Answer<bool>)
    requires Ready(session.State())
    modifies session
    ensures answer.Answered? ==> answer.value
  {
    var handle := session.StartCompletingWith(1);
    if handle.None? { return Failed; }
    var item := handle.value.Next();
    if item.Some? {
      var late := signal.IsAborted();
      if late { return TimedOut; }
      if item.value.Failure? { return Failed; }
    }
    var aborted := signal.IsAborted();
    answer := if aborted then TimedOut else Answered(true);
  }

  /** A session with the prefix of `r` evaluated: a copy of the stored one, or a new one of which a
      copy is stored; without a prefix just a new one. */
  method PrefixSession(manager: EmbeddedModelManager, r: Request, key: string, model: Model, signal: AbortSignal)
    returns (answer: Answer<LlamaSession>)
    requires manager.Valid() && Admitted(manager.Known(), r)
    requires key == PromptKeyOf(manager.Known(), r) && model == ModelOf(manager.Known(), r)
    modifies manager`prepared, manager`kept
    ensures manager.Valid()
    ensures !answer.Answered? ==> manager.prepared == old(manager.prepared)
    ensures manager.Held().slot == old(manager.Held()).slot
    ensures PrefixEffect(manager.Known(), r, old(manager.Held()).prepared, manager.Held().prepared, answer.Answered?)
    ensures answer.Answered? ==>
      && fresh(answer.value) && answer.value !in manager.kept
      && answer.value.State() == PrefixState(manager.Known(), r)
  {
    hide StorePrepared, EmbeddedModelManager.Valid, EmbeddedModelManager.Held, WorldOf;
    hide Admitted, PromptKeyOf, InputKeyOf, PromptState, PrefixState, NewState, Ready;
    manager.SameKeysHeld();
    if r.prefix == "" {
      var bare := CreateSession(model, SessionParams(r));
      BarePrefix(manager.Known(), r);
      return if bare.None? then Failed else Answered(bare.value);
    }
    var stored := manager.GetPreparedSession(r, key);
    if !stored.Answered? { return Failed; }
    if stored.value.Some? {
      return Answered(stored.value.value);
    }
    var ready := OpenWithPrefix(manager.Known(), r, model, signal);
    if !ready.Answered? { return ready; }
    var session := ready.value;
    PrefixIsReady(manager.Known(), r);
    var copy := session.DeepCopy();
    if copy.None? { return Failed; }
    manager.StorePreparedSession(r, key, copy.value);
    answer := Answered(session);
  }

  /** Evaluates the suffix under the deadline of the call. */
  method FeedSuffix(ghost w: World, r: Request, session: LlamaSession, signal: AbortSignal)
    returns (answer: Answer<bool>)
    requires Admitted(w, r) && session.State() == PrefixState(w, r)
    modifies session
    ensures answer.Answered? ==> answer.value && session.State() == PromptState(w, r) && session.signal == signal
  {
    hide PrefixState;
    PrefixIsReady(w, r);
    session.SetAbortSignal(signal);
    var aborted := signal.IsAborted();
    if aborted { return TimedOut; }
    var fed := session.AdvanceContext(r.suffix);
    aborted := signal.IsAborted();
    if aborted { return TimedOut; }
    answer := if fed then Answered(true) else Failed;
  }

  /** A prefix session that has been fed the suffix. */
  method FreshPrompt(manager: EmbeddedModelManager, r: Request, key: string, model: Model, signal: AbortSignal)
    returns (answer: Answer<LlamaSession>)
    requires manager.Valid() && Admitted(manager.Known(), r)
    requires key == PromptKeyOf(manager.Known(), r) && model == ModelOf(manager.Known(), r)
    modifies manager`prepared, manager`kept
    ensures manager.Valid() && manager.Held().slot == old(manager.Held()).slot
    ensures PrefixEffect(manager.Known(), r, old(manager.Held()).prepared, manager.Held().prepared, answer.Answered?)
    ensures answer.Answered? ==>
      && fresh(answer.value) && answer.value !in manager.kept
      && answer.value.State() == PromptState(manager.Known(), r) && answer.value.signal == signal
  {
    hide EmbeddedModelManager.Valid, EmbeddedModelManager.Held, WorldOf, AfterPrefix;
    hide Admitted, PromptKeyOf, PromptState, PrefixState;
    var prefix := PrefixSession(manager, r, key, model, signal);
    match prefix
    case TimedOut => return TimedOut;
    case Failed => return Failed;
    case Answered(session) =>
      var fed := FeedSuffix(manager.Known(), r, session, signal);
      match fed
      case TimedOut => answer := TimedOut;
      case Failed => answer := Failed;
      case Answered(_) => answer := Answered(session);
  }

  method PrepareAdmittedInput(manager: EmbeddedModelManager, r: Request, model: Model, signal: AbortSignal)
    returns (answer: Answer<bool>)
    requires manager.Valid() && Admitted(manager.Known(), r) && model == ModelOf(manager.Known(), r)
    modifies manager`prepared, manager`slot, manager`kept
    ensures manager.Valid()
    ensures Effect(manager.Known(), Kind.PrepareInput, r, old(manager.Held()), manager.Held(), answer.Answered?)
    ensures answer.Answered? ==> answer.value && HoldsInput(manager, r)
    ensures !answer.Answered? ==> manager.slot == old(manager.slot)
    ensures manager.slot == old(manager.slot) || (manager.slot.Some? && fresh(manager.slot.value.1))
  {
    hide StorePrepared, EmbeddedModelManager.Valid, EmbeddedModelManager.Held, WorldOf, Effect, PrefixEffect;
    hide Admitted, PromptKeyOf, InputKeyOf, PromptState, PrefixState;
    KnownHashes(manager);
    var promptKey := PromptKeyFor(manager.library, r, manager.Known());
    var inputKey := InputKeyFor(manager.library, r, manager.Known());
    manager.SameKeysHeld();
    ghost var before := manager.Held();
    if manager.slot.Some? && manager.slot.value.0 == inputKey {
      manager.SlotMatches(r);
      InputIsThere(manager.Known(), r, before);
      return Answered(true);
    }
    var prompt := FreshPrompt(manager, r, promptKey, model, signal);
    InputOnPrefix(manager.Known(), r, before, manager.Held(), prompt.Answered?);
    var aborted := signal.IsAborted();
    if aborted || !prompt.Answered? {
      return if aborted || prompt.TimedOut? then TimedOut else Failed;
    }
    manager.StorePreparedInputSession(r, inputKey, prompt.value);
    answer := Answered(true);
  }

  ghost predicate HoldsInput(manager: EmbeddedModelManager, r: Request)
    reads manager, if manager.slot.Some? then {manager.slot.value.1} else {}
  {
    && manager.slot.Some? && manager.slot.value.0 == InputKeyOf(manager.Known(), r)
    && manager.slot.value.1.State() == PromptState(manager.Known(), r)
  }

  /** Evaluates a request that is being typed, for the compression that may follow. */
  method PrepareInput(manager: EmbeddedModelManager, a: Asked) returns (answer: Answer<bool>)
    requires manager.Valid() && Plausible(manager.library, a)
    modifies manager
    ensures manager.Valid() && Loads(manager.library, old(manager.models), manager.models, a)
    ensures answer.Answered? ==>
      answer.value && exists r :: IsResolved(manager.models, a, r) && HoldsInput(manager, r)
    ensures !answer.Answered? ==> manager.slot == old(manager.slot)
    ensures manager.slot == old(manager.slot) || (manager.slot.Some? && fresh(manager.slot.value.1))
    ensures Leaves(manager.models, manager.library.hashes, Kind.PrepareInput, a,
                   old(manager.Held()), manager.Held(), answer.Answered?)
  {
    hide EmbeddedModelManager.Valid, EmbeddedModelManager.Held, Resolved, WorldOf, Effect, Leaves, HoldsInput;
    hide Admitted;
    NeverMind(manager.models, manager.library.hashes, Kind.PrepareInput, a, manager.Held());
    var signal := new AbortSignal();
    var admitted := Admit(manager, a, signal);
    if !admitted.Answered? { return if admitted.TimedOut? then TimedOut else Failed; }
    var r := admitted.value;
    ResolvedKnowsModel(manager.models, manager.library.hashes, a, r);
    ghost var before := manager.Held();
    answer := PrepareAdmittedInput(manager, r, manager.models[r.modelKey], signal);
    ResolvedLeaves(manager.models, manager.library.hashes, Kind.PrepareInput, a, r,
                   before, manager.Held(), answer.Answered?);
  }

  lemma KnownHashes(manager: EmbeddedModelManager)
    ensures manager.Known().hashes == manager.library.hashes
  {
  }

  /** The session a compression generates from: the prepared input if its key matches, else a
      prefix session that is then fed the suffix. */
  method PromptSession(manager: EmbeddedModelManager, r: Request, promptKey: string, inputKey: string,
                       model: Model, signal: AbortSignal)
    returns (answer: Answer<LlamaSession>)
    requires manager.Valid() && Admitted(manager.Known(), r) && model == ModelOf(manager.Known(), r)
    requires promptKey == PromptKeyOf(manager.Known(), r) && inputKey == InputKeyOf(manager.Known(), r)
    modifies manager`prepared, manager`slot, manager`kept, if manager.slot.Some? then {manager.slot.value.1} else {}
    ensures manager.Valid() && (manager.slot == None || manager.slot == old(manager.slot))
    ensures Effect(manager.Known(), Complete, r, old(manager.Held()), manager.Held(), answer.Answered?)
    ensures answer.Answered? ==>
      && (fresh(answer.value) || (old(manager.slot.Some?) && answer.value == old(manager.slot).value.1))
      && answer.value !in manager.kept
      && answer.value.State() == PromptState(manager.Known(), r) && answer.value.signal == signal
  {
    hide StorePrepared, EmbeddedModelManager.Valid, EmbeddedModelManager.Held, WorldOf, PrefixEffect, Effect;
    manager.SameKeysHeld();
    ghost var before := manager.Held();
    hide Admitted, PromptKeyOf, InputKeyOf, PromptState, PrefixState;
    var taken := manager.TakePreparedInputSession(r, inputKey);
    if taken.Some? {
      PromptIsTaken(manager.Known(), r, before, false);
      PromptIsTaken(manager.Known(), r, before, true);
      var session := taken.value;
      session.SetAbortSignal(signal);
      var late := signal.IsAborted();
      return if late then TimedOut else Answered(session);
    }
    answer := FreshPrompt(manager, r, promptKey, model, signal);
    PromptOnPrefix(manager.Known(), r, before, manager.Held(), answer.Answered?);
  }

  /** `answer` is what generating without any cache on `model` returns. */
  ghost predicate IsUncachedAnswer(hashes: Hashes, model: Model, a: Asked, answer: string) {
    var uncached := UncachedOn(hashes, model, a);
    uncached.Some? && uncached.value.tokens != [] && IsAnswer(model, uncached.value.tokens, a.maxTokens, answer)
  }

  /** Generates from the session of the uncached call, wherever it came from. */
  method CompleteAdmitted(manager: EmbeddedModelManager, r: Request, model: Model, signal: AbortSignal)
    returns (answer: Answer<string>)
    requires manager.Valid() && Admitted(manager.Known(), r) && model == ModelOf(manager.Known(), r)
    modifies manager`prepared, manager`slot, manager`kept, if manager.slot.Some? then {manager.slot.value.1} else {}
    ensures manager.Valid() && (manager.slot == None || manager.slot == old(manager.slot))
    ensures Effect(manager.Known(), Complete, r, old(manager.Held()), manager.Held(), answer.Answered?)
    ensures answer.Answered? ==>
      var prompt := PromptState(manager.Known(), r).tokens;
      prompt != [] && IsAnswer(model, prompt, r.maxTokens, answer.value)
  {
    hide StorePrepared, EmbeddedModelManager.Valid, EmbeddedModelManager.Held, WorldOf, Effect, IsAnswer;
    hide Admitted, PromptKeyOf, InputKeyOf, PromptState, PrefixState;
    KnownHashes(manager);
    var promptKey := PromptKeyFor(manager.library, r, manager.Known());
    var inputKey := InputKeyFor(manager.library, r, manager.Known());
    ghost var before := manager.Held();
    var source := PromptSession(manager, r, promptKey, inputKey, model, signal);
    PromptMayFail(manager.Known(), r, before, manager.Held(), source.Answered?);
    match source
    case TimedOut => answer := TimedOut;
    case Failed => answer := Failed;
    case Answered(session) =>
      PromptStateIsReady(manager.Known(), r);
      answer := Answers.Generate(session, r.maxTokens, signal);
  }

  /** One compression: whatever the caches hold, the answer is the uncached one on the model that is
      registered under the key of the request, which is its own unless a different one shares the key. */
  method RequestCompletion(manager: EmbeddedModelManager, a: Asked)
    returns (answer: Answer<string>)
    requires manager.Valid() && Plausible(manager.library, a)
    modifies manager, if manager.slot.Some? then {manager.slot.value.1} else {}
    ensures manager.Valid() && Loads(manager.library, old(manager.models), manager.models, a)
    ensures manager.slot == None || manager.slot == old(manager.slot)
    ensures Leaves(manager.models, manager.library.hashes, Complete, a,
                   old(manager.Held()), manager.Held(), answer.Answered?)
    ensures answer.Answered? ==>
      && KeyOf(a) in manager.models
      && IsUncachedAnswer(manager.library.hashes, manager.models[KeyOf(a)], a, answer.value)
    ensures answer.Answered? && HasItsOwnKey(manager.library, a) ==>
      IsUncachedAnswer(manager.library.hashes, manager.library.load(a.path), a, answer.value)
  {
    hide EmbeddedModelManager.Valid, EmbeddedModelManager.Held, Resolved, WorldOf, Effect, Leaves, UncachedOn;
    hide IsAnswer, HasItsOwnKey, Plausible, Admitted, PromptState;
    NeverMind(manager.models, manager.library.hashes, Complete, a, manager.Held());
    var signal := new AbortSignal();
    var admitted := Admit(manager, a, signal);
    if !admitted.Answered? { return if admitted.TimedOut? then TimedOut else Failed; }
    var r := admitted.value;
    ResolvedKnowsModel(manager.models, manager.library.hashes, a, r);
    ghost var before := manager.Held();
    answer := CompleteAdmitted(manager, r, manager.models[r.modelKey], signal);
    ResolvedLeaves(manager.models, manager.library.hashes, Complete, a, r, before, manager.Held(), answer.Answered?);
    if answer.Answered? {
      UncachedOnRegistered(manager.models, manager.library.hashes, a, r);
      manager.OwnUnlessShared(a);
    }
  }

  /** Two compressions of the same request never differ. */
  lemma UncachedAnswersAgree(hashes: Hashes, model: Model, a: Asked, x: string, y: string)
    requires IsUncachedAnswer(hashes, model, a, x) && IsUncachedAnswer(hashes, model, a, y)
    ensures x == y
  {
    hide IsAnswer, UncachedOn;
    AnswerIsUnique(model, UncachedOn(hashes, model, a).value.tokens, a.maxTokens, x, y);
  }

  /** So asking again is no different, though the first time may have emptied or filled the caches. */
  method AskTwice(manager: EmbeddedModelManager, a: Asked)
    returns (first: Answer<string>, second: Answer<string>)
    requires manager.Valid() && Plausible(manager.library, a)
    modifies manager, if manager.slot.Some? then {manager.slot.value.1} else {}
    ensures manager.Valid()
    ensures first.Answered? && second.Answered? ==> first == second
  {
    hide EmbeddedModelManager.Valid, IsUncachedAnswer, Plausible;
    first := RequestCompletion(manager, a);
    second := RequestCompletion(manager, a);
    if first.Answered? && second.Answered? {
      UncachedAnswersAgree(manager.library.hashes, manager.models[KeyOf(a)], a, first.value, second.value);
    }
  }

  lemma BarePrefix(w: World, r: Request)
    requires r.prefix == ""
    ensures PrefixState(w, r) == Created(ModelOf(w, r), SessionParams(r))
  {
  }

  lemma PrefixIsReady(w: World, r: Request)
    requires Admitted(w, r)
    ensures Ready(PrefixState(w, r)) && Clamped(PrefixState(w, r).params) == PrefixState(w, r).params
    ensures PrefixState(w, r).model == ModelOf(w, r)
    ensures NewState(w, r).model == ModelOf(w, r)
    ensures ModelOf(w, r).tokenize(r.prefix) == Some(PromptCaches.TokensOf(w, r, r.prefix))
    ensures ModelOf(w, r).tokenize(r.suffix) == Some(PromptCaches.TokensOf(w, r, r.suffix))
  {
    PromptStateIsReady(w, r);
    ParamsAreClamped(w, r);
    AdvanceRecords(NewState(w, r), PromptCaches.TokensOf(w, r, r.prefix));
  }

  lemma ParamsAreClamped(w: World, r: Request)
    ensures Clamped(PrefixState(w, r).params) == PrefixState(w, r).params
  {
    AdvanceRecords(NewState(w, r), PromptCaches.TokensOf(w, r, r.prefix));
  }

  lemma StoredIn<T>(before: map<string, T>, key: string, value: T)
    ensures forall k :: k in StorePrepared(before, key, value) ==>
      StorePrepared(before, key, value)[k] == value ||
        (k in before && StorePrepared(before, key, value)[k] == before[k])
  {
  }

  /** The key that comes first, found as the map's iterator would meet it. */
  method FirstKey(keys: set<string>) returns (first: string)
    requires keys != {}
    ensures first == TextOrder.LeastKey(keys)
  {
    first :| first in keys;
    var rest := keys - {first};
    TextOrder.NotAfterIsTotal(first, first);
    while rest != {}
      invariant first in keys && rest <= keys
      invariant forall k :: k in keys - rest ==> TextOrder.NotAfter(first, k)
      decreases rest
    {
      var k :| k in rest;
      TextOrder.NotAfterIsTotal(first, k);
      TextOrder.NotAfterIsTotal(k, k);
      if !TextOrder.NotAfter(first, k) {
        forall other | other in keys - rest ensures TextOrder.NotAfter(k, other) {
          TextOrder.NotAfterIsTransitive(k, first, other);
        }
        first := k;
      }
      rest := rest - {k};
    }
    TextOrder.FirstIsUnique(first, TextOrder.LeastKey(keys), keys);
  }
}
