/** The methods of ModelManager, as one thread calls them, and the step system of ModelRegistry: every
    call continues a run of the system to the models and caches that the call leaves. */
module CallRuns {
  import opened Text
  import opened CacheKeys
  import opened PromptCaches
  import opened SoloCalls
  import opened ModelRegistry
  import opened ModelManager
  import S = Session
  import A = Answers

  /** The run ends with these models and caches. */
  ghost predicate EndsIn(l: Library, hosts: seq<Host>, models: map<string, S.Model>, caches: Caches) {
    && IsHostRun(l, hosts)
    && var h := hosts[|hosts| - 1];
       h.registry == models && SharedExist(h.machine) && CachesOf(h.machine) == caches
  }

  /** A new manager is where every run begins. */
  lemma NewManagerIsEmpty(l: Library)
    ensures EndsIn(l, [EMPTY], map[], Caches(map[], None))
  {
    assert CachesOf(INITIAL).prepared == map[];
  }

  lemma {:induction false} UpperBound(used: set<nat>) returns (bound: nat)
    ensures forall k :: k in used ==> k < bound
    decreases |used|
  {
    if used == {} {
      bound := 0;
    } else {
      var k :| k in used;
      var rest := UpperBound(used - {k});
      bound := if rest <= k then k + 1 else rest;
      forall other | other in used ensures other < bound {
        assert other == k || other in used - {k};
      }
    }
  }

  /** Once it is there, the call keeps its request to the end. */
  lemma {:induction false} RequestStays(w: World, c: nat, run: seq<Machine>, i: nat)
    requires IsSolo(w, c, run) && i < |run| && c in run[i].calls
    ensures c in Last(run).calls && Last(run).calls[c].request == run[i].calls[c].request
    decreases |run| - i
  {
    hide Apply;
    if i + 1 < |run| {
      assert SoloNext(w, c, run[i], run[i + 1]);
      var step: Step :| step.call == c && Enabled(w, run[i], step) && run[i + 1] == Apply(w, run[i], step);
      CallsStay(w, run[i], step);
      RequestStays(w, c, run, i + 1);
    }
  }

  /** The whole system follows the steps of one call. */
  lemma {:induction false} LiftSolo(l: Library, hosts: seq<Host>, c: nat, run: seq<Machine>, a: Asked, r: Request,
                                    n: nat)
    returns (longer: seq<Host>)
    requires IsHostRun(l, hosts) && n < |run|
    requires var h := hosts[|hosts| - 1];
      && IsSolo(WorldOf(h.registry, l.hashes), c, run) && run[0] == h.machine
      && Plausible(l, a) && IsResolved(h.registry, a, r)
    requires c in Last(run).calls && Last(run).calls[c].request == r && c !in run[0].calls
    ensures IsHostRun(l, longer) && hosts <= longer
    ensures var h := longer[|longer| - 1];
      h.registry == hosts[|hosts| - 1].registry && h.machine == run[n]
    ensures c in run[n].calls ==> c in longer[|longer| - 1].asked && longer[|longer| - 1].asked[c] == a
    decreases n
  {
    hide HostNext, SoloNext, Enabled, Apply, WorldOf, Plausible, Resolved, KeyOf;
    var w := WorldOf(hosts[|hosts| - 1].registry, l.hashes);
    if n == 0 {
      longer := hosts;
    } else {
      longer := LiftSolo(l, hosts, c, run, a, r, n - 1);
      var step := StepOf(w, c, run, n - 1);
      if step.Spawn? {
        SpawnAddsCall(w, run[n - 1], step);
        RequestStays(w, c, run, n);
        assert step == Spawn(c, step.kind, r);
        longer := HostExtend(l, longer, Enter(c, step.kind, a));
      } else {
        StepHasCall(w, run[n - 1], step);
        longer := HostExtend(l, longer, Inner(step));
      }
    }
  }

  lemma StepOf(w: World, c: nat, run: seq<Machine>, i: nat) returns (step: Step)
    requires IsSolo(w, c, run) && i + 1 < |run|
    ensures step.call == c && Enabled(w, run[i], step) && run[i + 1] == Apply(w, run[i], step)
  {
    hide Enabled, Apply;
    assert SoloNext(w, c, run[i], run[i + 1]);
    step :| step.call == c && Enabled(w, run[i], step) && run[i + 1] == Apply(w, run[i], step);
  }

  lemma LoadsIsAStep(l: Library, hosts: seq<Host>, after: map<string, S.Model>, caches: Caches, a: Asked)
    returns (longer: seq<Host>)
    requires Plausible(l, a) && IsHostRun(l, hosts) && EndsIn(l, hosts, hosts[|hosts| - 1].registry, caches)
    requires Loads(l, hosts[|hosts| - 1].registry, after, a)
    ensures EndsIn(l, longer, after, caches) && hosts <= longer
  {
    hide HostNext, SharedExist, CachesOf, Loaded;
    if after == hosts[|hosts| - 1].registry {
      longer := hosts;
    } else {
      longer := HostExtend(l, hosts, Load(a.id, a.path));
    }
  }

  lemma EndHasInv(l: Library, hosts: seq<Host>)
    requires CollisionFree(l.hashes) && IsHostRun(l, hosts)
    ensures Inv(WorldOf(hosts[|hosts| - 1].registry, l.hashes), hosts[|hosts| - 1].machine)
  {
    hide HostNext, Inv, IsRun, CollisionFree;
    ProjectionIsRun(l, hosts);
    var machines := Machines(hosts);
    assert machines[|hosts| - 1] == hosts[|hosts| - 1].machine;
    RunKeepsInv(WorldOf(hosts[|hosts| - 1].registry, l.hashes), machines, |hosts| - 1);
  }

  /** An answer is read from tokens that the call can generate. */
  lemma AnswerHasTokens(models: map<string, S.Model>, hashes: Hashes, a: Asked, r: Request,
                        answer: string)
    returns (generated: seq<S.Token>)
    requires IsResolved(models, a, r) && IsUncachedAnswer(hashes, models[KeyOf(a)], a, answer)
    ensures GeneratesFor(WorldOf(models, hashes), r, generated)
    ensures DeliversAnswer(hashes, models[KeyOf(a)], a, answer, generated)
  {
    hide PromptState, Resolved, A.NoObject, A.Emits, A.Read, S.IsGreedy, UncachedOn;
    UncachedOnRegistered(models, hashes, a, r);
    var prompt := UncachedOn(hashes, models[KeyOf(a)], a).value.tokens;
    generated :| A.IsReadFrom(models[KeyOf(a)], prompt, a.maxTokens, generated, answer);
  }

  ghost predicate DeliversAnswer(hashes: Hashes, model: S.Model, a: Asked, answer: string,
                                 generated: seq<S.Token>) {
    var uncached := UncachedOn(hashes, model, a);
    uncached.Some? && A.IsReadFrom(model, uncached.value.tokens, a.maxTokens, generated, answer)
  }

  /** A call as its contract shows it: what was asked, the models and caches afterwards, whether it got
      through and, for a compression that did, its answer. */
  datatype Served = Served(
    kind: Kind, asked: Asked, models: map<string, S.Model>, caches: Caches, done: bool, answer: string)

  /** What the contracts of the manager's methods allow a call to do. */
  ghost predicate MayFollow(l: Library, models: map<string, S.Model>, caches: Caches, call: Served) {
    && Plausible(l, call.asked) && (call.kind.PreparePrefix? ==> call.asked.suffix == "")
    && Loads(l, models, call.models, call.asked)
    && Leaves(call.models, l.hashes, call.kind, call.asked, caches, call.caches, call.done)
    && (Answers(call) ==>
          && KeyOf(call.asked) in call.models
          && IsUncachedAnswer(l.hashes, call.models[KeyOf(call.asked)], call.asked, call.answer))
  }

  predicate Answers(call: Served) { call.kind.Complete? && call.done }

  /** Somewhere in the run a call that was asked the same has delivered the tokens of this answer. */
  ghost predicate IsAnsweredIn(l: Library, hosts: seq<Host>, call: Served) {
    exists k, c, generated :: 0 <= k < |hosts| && HasDelivered(l, hosts[k], c, generated, call)
  }

  ghost predicate HasDelivered(l: Library, h: Host, c: nat, generated: seq<S.Token>, call: Served) {
    && c in h.asked && h.asked[c] == call.asked
    && c in h.machine.calls && h.machine.calls[c].progress == Delivered(generated)
    && KeyOf(call.asked) in h.registry
    && DeliversAnswer(l.hashes, h.registry[KeyOf(call.asked)], call.asked, call.answer, generated)
  }

  /** What the contracts allow one call to do, a run of the system can do: it loads the model if need be, and
      then the call alone takes its steps.  A compression that answers delivers in that run the tokens that
      its answer is read from. */
  lemma CallContinuesRun(l: Library, hosts: seq<Host>, before: Caches, call: Served) returns (longer: seq<Host>)
    requires CollisionFree(l.hashes) && IsHostRun(l, hosts) && EndsIn(l, hosts, hosts[|hosts| - 1].registry, before)
    requires MayFollow(l, hosts[|hosts| - 1].registry, before, call)
    ensures EndsIn(l, longer, call.models, call.caches) && hosts <= longer
    ensures Answers(call) ==> IsAnsweredIn(l, longer, call)
  {
    hide HostNext, Inv, CollisionFree, Plausible, Effect, IsResolved, IsUncachedAnswer, DeliversAnswer, GeneratesFor;
    hide SharedExist, CachesOf, SoloNext, WorldOf, Loads, Admitted;
    var a, models, after := call.asked, call.models, call.caches;
    longer := LoadsIsAStep(l, hosts, models, before, a);
    var h := longer[|longer| - 1];
    var c := UpperBound(h.machine.calls.Keys);
    if after != before || Answers(call) {
      var w := WorldOf(models, l.hashes);
      EndHasInv(l, longer);
      var r :| IsResolved(models, a, r) && Effect(w, call.kind, r, before, after, call.done);
      MaySpawn(l, models, call.kind, a, r, before, after, call.done);
      var generated := [];
      if Answers(call) {
        generated := AnswerHasTokens(models, l.hashes, a, r, call.answer);
      }
      var run := EffectIsReachable(w, c, h.machine, call.kind, r, after, call.done, generated);
      longer := LiftSolo(l, longer, c, run, a, r, |run| - 1);
      if Answers(call) {
        assert HasDelivered(l, longer[|longer| - 1], c, generated, call);
      }
    }
  }

  lemma MaySpawn(l: Library, models: map<string, S.Model>, kind: Kind, a: Asked, r: Request,
                 before: Caches, after: Caches, done: bool)
    requires Plausible(l, a) && IsResolved(models, a, r)
    requires Effect(WorldOf(models, l.hashes), kind, r, before, after, done)
    requires kind.PreparePrefix? ==> a.suffix == "" && after != before
    ensures Admitted(WorldOf(models, l.hashes), r) && WorldOf(models, l.hashes).hashes == l.hashes
    ensures kind.PreparePrefix? ==> r.prefix != "" && r.suffix == ""
  {
    hide Admitted, InputKeyOf, PromptKeyOf, PrefixState, PromptState, StorePrepared, Plausible;
    ResolvedDescribes(models[KeyOf(a)], a, r);
    ResolvedIsAdmitted(l, WorldOf(models, l.hashes), a, r);
  }

  // ---------- Any number of calls ----------

  function ModelsAfter(log: seq<Served>): map<string, S.Model> {
    if log == [] then map[] else log[|log| - 1].models
  }

  function CachesAfter(log: seq<Served>): Caches {
    if log == [] then Caches(map[], None) else log[|log| - 1].caches
  }

  /** Calls on one manager, from its creation on, each as its contract allows. */
  ghost predicate IsLog(l: Library, log: seq<Served>)
    decreases |log|
  {
    log == [] ||
    var earlier := log[..|log| - 1];
    IsLog(l, earlier) && MayFollow(l, ModelsAfter(earlier), CachesAfter(earlier), log[|log| - 1])
  }

  lemma AnsweredLater(l: Library, hosts: seq<Host>, longer: seq<Host>, call: Served)
    requires hosts <= longer && IsAnsweredIn(l, hosts, call)
    ensures IsAnsweredIn(l, longer, call)
  {
    hide HasDelivered;
    var k, c, generated :| 0 <= k < |hosts| && HasDelivered(l, hosts[k], c, generated, call);
    assert longer[k] == hosts[k];
  }

  /** Whatever calls one thread makes on a manager, there is a run of the whole system that ends with the same
      models and caches and that has delivered every answer. */
  lemma {:induction false} CallsAreARun(l: Library, log: seq<Served>) returns (hosts: seq<Host>)
    requires CollisionFree(l.hashes) && IsLog(l, log)
    ensures EndsIn(l, hosts, ModelsAfter(log), CachesAfter(log))
    ensures forall i :: 0 <= i < |log| && Answers(log[i]) ==> IsAnsweredIn(l, hosts, log[i])
    decreases |log|
  {
    hide HostNext, CollisionFree, MayFollow, SharedExist, CachesOf, IsAnsweredIn;
    if log == [] {
      NewManagerIsEmpty(l);
      hosts := [EMPTY];
    } else {
      var earlier, call := log[..|log| - 1], log[|log| - 1];
      var shorter := CallsAreARun(l, earlier);
      hosts := CallContinuesRun(l, shorter, CachesAfter(earlier), call);
      forall i | 0 <= i < |log| && Answers(log[i]) ensures IsAnsweredIn(l, hosts, log[i]) {
        if i < |earlier| {
          assert earlier[i] == log[i];
          AnsweredLater(l, shorter, hosts, log[i]);
        }
      }
    }
  }

  lemma Logged(l: Library, log: seq<Served>, call: Served)
    requires IsLog(l, log) && MayFollow(l, ModelsAfter(log), CachesAfter(log), call)
    ensures IsLog(l, log + [call])
    ensures ModelsAfter(log + [call]) == call.models && CachesAfter(log + [call]) == call.caches
  {
    hide MayFollow;
    assert (log + [call])[..|log|] == log;
  }

  /** A thread that creates a manager and makes the given calls on it, one after another, leaves a log of this
      kind; so every such thread is a run of the whole system. */
  method Serve(library: Library, calls: seq<(Kind, Asked)>)
    returns (manager: EmbeddedModelManager, ghost log: seq<Served>)
    requires CollisionFree(library.hashes) && forall i :: 0 <= i < |calls| ==> Plausible(library, calls[i].1)
    ensures manager.Valid() && manager.library == library
    ensures |log| == |calls| && IsLog(library, log)
    ensures manager.models == ModelsAfter(log) && manager.Held() == CachesAfter(log)
    ensures forall i :: 0 <= i < |log| ==> log[i].kind == calls[i].0
  {
    hide EmbeddedModelManager.Valid, EmbeddedModelManager.Held, IsLog, CollisionFree, Leaves, Loads, IsUncachedAnswer;
    log := [];
    manager := new EmbeddedModelManager(library);
    NothingHeld(manager);
    for i := 0 to |calls|
      invariant fresh(manager) && manager.Valid() && manager.library == library
      invariant manager.slot.Some? ==> fresh(manager.slot.value.1)
      invariant |log| == i && IsLog(library, log)
      invariant manager.models == ModelsAfter(log) && manager.Held() == CachesAfter(log)
      invariant forall j :: 0 <= j < i ==> log[j].kind == calls[j].0
    {
      ghost var call := ServeOne(manager, calls[i].0, calls[i].1);
      Logged(library, log, call);
      log := log + [call];
    }
  }

  lemma NothingHeld(manager: EmbeddedModelManager)
    requires manager.Valid() && manager.models == map[] && manager.prepared == map[] && manager.slot == None
    ensures IsLog(manager.library, []) && manager.Held() == CachesAfter([])
  {
    assert StatesOf(manager.prepared) == map[];
  }

  method ServeOne(manager: EmbeddedModelManager, kind: Kind, a: Asked) returns (ghost call: Served)
    requires manager.Valid() && Plausible(manager.library, a)
    modifies manager, if manager.slot.Some? then {manager.slot.value.1} else {}
    ensures manager.Valid() && call.kind == kind
    ensures MayFollow(manager.library, old(manager.models), old(manager.Held()), call)
    ensures call.models == manager.models && call.caches == manager.Held()
    ensures manager.slot.Some? ==> manager.slot == old(manager.slot) || fresh(manager.slot.value.1)
  {
    hide EmbeddedModelManager.Valid, EmbeddedModelManager.Held, Leaves, IsUncachedAnswer, Resolved, UncachedOn;
    match kind
    case PreparePrefix =>
      var answer := PreparePromptPrefix(manager, a);
      call := Served(kind, a.(suffix := ""), manager.models, manager.Held(), answer == A.Answered(true), "");
    case PrepareInput =>
      var answer := ModelManager.PrepareInput(manager, a);
      call := Served(kind, a, manager.models, manager.Held(), answer.Answered?, "");
    case Complete =>
      var answer := RequestCompletion(manager, a);
      call := Served(kind, a, manager.models, manager.Held(), answer.Answered?,
                     if answer.Answered? then answer.value else "");
  }

  // ---------- Served or refused ----------

  /** A compression of `b` has got as far as generating. */
  ghost predicate Compresses(h: Host, c: nat, b: Asked) {
    && c in h.asked && h.asked[c] == b && c in h.machine.calls
    && (h.machine.calls[c].progress.Generating? || h.machine.calls[c].progress.Delivered?)
  }

  /** The run goes on to a compression of `b`. */
  ghost predicate LeadsToCompressing(l: Library, hosts: seq<Host>, longer: seq<Host>, c: nat, b: Asked) {
    IsHostRun(l, longer) && hosts <= longer && Compresses(longer[|longer| - 1], c, b)
  }

  lemma CompressingMeansServed(l: Library, hosts: seq<Host>, c: nat, b: Asked)
    requires CollisionFree(l.hashes) && IsHostRun(l, hosts) && Compresses(hosts[|hosts| - 1], c, b)
    ensures KeyOf(b) in hosts[|hosts| - 1].registry
    ensures ServedFrom(l, hosts[|hosts| - 1].registry[KeyOf(b)], b).Some?
  {
    hide HostNext, CollisionFree, PromptState, Resolved, UncachedOn, RegistryInv, Plausible, PreparedInv, SlotInv;
    hide Admitted, S.IsGreedy, S.Generated;
    var h := hosts[|hosts| - 1];
    HostRunKeepsInv(l, hosts, |hosts| - 1, |hosts| - 1);
    assert IsKnown(l, h, c);
    EndHasInv(l, hosts);
    assert CallInv(WorldOf(h.registry, l.hashes), h.machine, c, h.machine.calls[c]);
    UncachedOnRegistered(h.registry, l.hashes, b, h.machine.calls[c].request);
  }

  /** What a compression that gets through leaves behind. */
  lemma SomeEffect(w: World, r: Request, before: Caches) returns (after: Caches)
    ensures Effect(w, Complete, r, before, after, true)
  {
    hide AfterPrefix, InputKeyOf;
    if Hits(w, r, before) {
      after := before.(slot := None);
      PromptIsTaken(w, r, before, true);
    } else {
      after := before.(prepared := AfterPrefix(w, r, before.prepared));
      PromptOnPrefix(w, r, before, after, true);
    }
  }

  lemma ServedCompresses(l: Library, hosts: seq<Host>, b: Asked) returns (longer: seq<Host>, c: nat)
    requires CollisionFree(l.hashes) && IsHostRun(l, hosts) && Plausible(l, b)
    requires KeyOf(b) in hosts[|hosts| - 1].registry
    requires ServedFrom(l, hosts[|hosts| - 1].registry[KeyOf(b)], b).Some?
    ensures IsHostRun(l, longer) && hosts <= longer && Compresses(longer[|longer| - 1], c, b)
  {
    hide HostNext, Inv, CollisionFree, Plausible, Effect, Admitted, PromptState, Resolved, SharedExist, CachesOf;
    hide SoloNext;
    var h := hosts[|hosts| - 1];
    var w := WorldOf(h.registry, l.hashes);
    var r := Resolved(h.registry[KeyOf(b)], b).value;
    EndHasInv(l, hosts);
    InvSharedExist(w, h.machine);
    UncachedOnRegistered(h.registry, l.hashes, b, r);
    ResolvedDescribes(h.registry[KeyOf(b)], b, r);
    ResolvedIsAdmitted(l, w, b, r);
    c := UpperBound(h.machine.calls.Keys);
    var after := SomeEffect(w, r, CachesOf(h.machine));
    var run := EffectIsReachable(w, c, h.machine, Complete, r, after, true, []);
    longer := LiftSolo(l, hosts, c, run, b, r, |run| - 1);
  }

  /** Once a model is registered under its key, a compression can still get through if and only if that model
      serves it, whatever happens in between. */
  lemma RegistryDecides(l: Library, hosts: seq<Host>, b: Asked)
    requires CollisionFree(l.hashes) && IsHostRun(l, hosts) && Plausible(l, b)
    requires KeyOf(b) in hosts[|hosts| - 1].registry
    ensures (exists longer, c :: LeadsToCompressing(l, hosts, longer, c, b)) <==>
      ServedFrom(l, hosts[|hosts| - 1].registry[KeyOf(b)], b).Some?
  {
    hide HostNext, CollisionFree, Plausible, ServedFrom, Compresses, HostInv;
    if longer, c :| LeadsToCompressing(l, hosts, longer, c, b) {
      CompressingMeansServed(l, longer, c, b);
      HostRunKeepsInv(l, longer, |hosts| - 1, |longer| - 1);
      assert longer[|hosts| - 1] == hosts[|hosts| - 1];
    }
    if ServedFrom(l, hosts[|hosts| - 1].registry[KeyOf(b)], b).Some? {
      var longer, c := ServedCompresses(l, hosts, b);
      assert LeadsToCompressing(l, hosts, longer, c, b);
    }
  }
}
