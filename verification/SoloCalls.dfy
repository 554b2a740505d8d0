/** What a call leaves in the caches when no other call comes in between, and that the step system of
    PromptCaches can do exactly that. */
module SoloCalls {
  import opened Text
  import opened CacheKeys
  import opened PromptCaches
  import S = Session

  /** What the caches hold, as values. */
  datatype Caches = Caches(prepared: map<string, S.SessionState>, slot: Option<(string, S.SessionState)>)

  /** The prefix cache once a call has its prefix session. */
  ghost function AfterPrefix(w: World, r: Request, prepared: map<string, S.SessionState>): map<string, S.SessionState> {
    var key := PromptKeyOf(w, r);
    if r.prefix == "" || key in prepared then prepared else StorePrepared(prepared, key, PrefixState(w, r))
  }

  /** A call that does not get through may or may not have stored the prefix. */
  ghost predicate PrefixEffect(w: World, r: Request, before: map<string, S.SessionState>,
                               after: map<string, S.SessionState>, done: bool) {
    after == AfterPrefix(w, r, before) || (!done && after == before)
  }

  /** What a call may leave behind, `done` or not. */
  ghost predicate Effect(w: World, kind: Kind, r: Request, before: Caches, after: Caches, done: bool) {
    var (left, found) := TakeMatching(before.slot, InputKeyOf(w, r));
    match kind
    case PreparePrefix =>
      after.slot == before.slot && PrefixEffect(w, r, before.prepared, after.prepared, done)
    case PrepareInput =>
      if found.Some? then after == before
      else
        && PrefixEffect(w, r, before.prepared, after.prepared, done)
        && after.slot == if done then Some((InputKeyOf(w, r), PromptState(w, r))) else before.slot
    case Complete =>
      && after.slot == left
      && if found.Some? then after.prepared == before.prepared
         else PrefixEffect(w, r, before.prepared, after.prepared, done)
  }

  predicate Hits(w: World, r: Request, caches: Caches) {
    caches.slot.Some? && caches.slot.value.0 == InputKeyOf(w, r)
  }

  lemma PrefixIsThere(w: World, r: Request, caches: Caches)
    requires PromptKeyOf(w, r) in caches.prepared
    ensures Effect(w, PreparePrefix, r, caches, caches, true)
  {
    hide PromptKeyOf, StorePrepared;
  }

  lemma InputIsThere(w: World, r: Request, caches: Caches)
    requires Hits(w, r, caches)
    ensures Effect(w, PrepareInput, r, caches, caches, true)
  {
    hide InputKeyOf;
  }

  /** With the prefix at hand, the input is stored or not. */
  lemma InputOnPrefix(w: World, r: Request, before: Caches, filled: Caches, done: bool)
    requires !Hits(w, r, before) && filled.slot == before.slot
    requires PrefixEffect(w, r, before.prepared, filled.prepared, done)
    ensures Effect(w, PrepareInput, r, before, filled, false)
    ensures done ==>
      Effect(w, PrepareInput, r, before, filled.(slot := Some((InputKeyOf(w, r), PromptState(w, r)))), true)
  {
    hide InputKeyOf, AfterPrefix, PromptState;
  }

  lemma PromptIsTaken(w: World, r: Request, before: Caches, done: bool)
    requires Hits(w, r, before)
    ensures Effect(w, Complete, r, before, before.(slot := None), done)
  {
    hide InputKeyOf;
  }

  /** A compression that got its session may still fail afterwards. */
  lemma PromptMayFail(w: World, r: Request, before: Caches, after: Caches, done: bool)
    requires Effect(w, Complete, r, before, after, done)
    ensures Effect(w, Complete, r, before, after, false)
  {
    hide InputKeyOf, AfterPrefix;
  }

  lemma PromptOnPrefix(w: World, r: Request, before: Caches, filled: Caches, done: bool)
    requires !Hits(w, r, before) && filled.slot == before.slot
    requires PrefixEffect(w, r, before.prepared, filled.prepared, done)
    ensures Effect(w, Complete, r, before, filled, false)
    ensures done ==> Effect(w, Complete, r, before, filled, true)
  {
    hide InputKeyOf, AfterPrefix;
  }

  // ---------- The caches of the step system ----------

  ghost predicate SharedExist(m: Machine) {
    && (forall k :: k in m.prepared ==> m.prepared[k] in m.sessions)
    && (m.slot.Some? ==> m.slot.value.1 in m.sessions)
  }

  ghost function CachesOf(m: Machine): Caches
    requires SharedExist(m)
  {
    Caches(map k | k in m.prepared :: m.sessions[m.prepared[k]].state,
           match m.slot case Some((key, id)) => Some((key, m.sessions[id].state)) case None => None)
  }

  lemma InvSharedExist(w: World, m: Machine)
    requires Inv(w, m)
    ensures SharedExist(m)
  {
    hide Admitted, PrefixState, PromptState, PromptKeyOf, InputKeyOf, CallInv, S.Ready;
  }

  ghost predicate SoloNext(w: World, c: nat, m: Machine, m': Machine) {
    exists step: Step :: step.call == c && Enabled(w, m, step) && m' == Apply(w, m, step)
  }

  /** Only call `c` takes steps. */
  ghost predicate IsSolo(w: World, c: nat, run: seq<Machine>) {
    run != [] && forall i :: 0 <= i < |run| - 1 ==> SoloNext(w, c, run[i], run[i + 1])
  }

  function Last(run: seq<Machine>): Machine
    requires run != []
  {
    run[|run| - 1]
  }

  /** The call has got to the end of `run` and the caches are as given. */
  ghost predicate Reached(w: World, c: nat, m: Machine, run: seq<Machine>, kind: Kind, r: Request, caches: Caches) {
    && IsSolo(w, c, run) && run[0] == m
    && Inv(w, Last(run)) && SharedExist(Last(run)) && CachesOf(Last(run)) == caches
    && c in Last(run).calls && Last(run).calls[c].kind == kind && Last(run).calls[c].request == r
  }

  lemma SoloExtend(w: World, c: nat, run: seq<Machine>, step: Step) returns (longer: seq<Machine>)
    requires IsSolo(w, c, run) && step.call == c && Enabled(w, Last(run), step)
    ensures IsSolo(w, c, longer) && longer[0] == run[0] && Last(longer) == Apply(w, Last(run), step)
  {
    hide Enabled, Apply;
    longer := run + [Apply(w, Last(run), step)];
    forall i | 0 <= i < |longer| - 1 ensures SoloNext(w, c, longer[i], longer[i + 1]) {
      if i < |run| - 1 {
        assert SoloNext(w, c, run[i], run[i + 1]);
      }
    }
  }

  lemma LocalKeepsCaches(w: World, m: Machine, m': Machine, c: nat)
    requires Inv(w, m) && IsLocal(m, m', c) && SharedExist(m)
    ensures SharedExist(m') && CachesOf(m') == CachesOf(m)
  {
    hide Admitted, PrefixState, PromptState, PromptKeyOf, InputKeyOf, CallInv, S.Ready, Own;
    assert CachesOf(m').prepared == CachesOf(m).prepared;
  }

  lemma InvBoundsIds(w: World, m: Machine)
    requires Inv(w, m)
    ensures forall id :: id in m.sessions ==> id < m.nextId
  {
    hide CallsInv, PreparedInv, SlotInv;
  }

  // ---------- Single steps ----------

  /** The step is possible and takes the call to `p`. */
  ghost predicate Goes(w: World, m: Machine, c: nat, step: Step, p: Progress) {
    Enabled(w, m, step) && c in Apply(w, m, step).calls && Apply(w, m, step).calls[c].progress == p
  }

  lemma SpawnStep(w: World, m: Machine, c: nat, kind: Kind, r: Request)
    requires Inv(w, m) && SharedExist(m) && c !in m.calls && Admitted(w, r)
    requires kind.PreparePrefix? ==> r.prefix != "" && r.suffix == ""
    ensures Enabled(w, m, Spawn(c, kind, r))
    ensures var m' := Apply(w, m, Spawn(c, kind, r));
      && m'.calls == m.calls[c := Call(kind, r, Started)] && Inv(w, m')
      && SharedExist(m') && CachesOf(m') == CachesOf(m)
  {
    hide Inv, Admitted;
    SpawnKeepsInv(w, m, Spawn(c, kind, r));
  }

  /** Where a call that takes nothing from the slot stands after its check. */
  function CheckedAt(w: World, m: Machine, kind: Kind, r: Request): Progress {
    match kind
    case PreparePrefix => if PromptKeyOf(w, r) in m.prepared then Ended else Missed
    case PrepareInput => if m.slot.Some? && m.slot.value.0 == InputKeyOf(w, r) then Ended else SlotMissed
    case Complete => SlotMissed
  }

  lemma CheckMisses(w: World, m: Machine, c: nat)
    requires Inv(w, m) && c in m.calls && m.calls[c].progress.Started?
    requires !(m.calls[c].kind.Complete? && m.slot.Some? && m.slot.value.0 == InputKeyOf(w, m.calls[c].request))
    ensures Enabled(w, m, Check(c)) && IsLocal(m, Apply(w, m, Check(c)), c)
    ensures Goes(w, m, c, Check(c), CheckedAt(w, m, m.calls[c].kind, m.calls[c].request))
  {
    hide Admitted, PromptKeyOf, InputKeyOf, CallInv, PreparedInv, SlotInv, IsLocal;
    MissIsLocal(w, m, c);
  }

  lemma CheckHits(w: World, m: Machine, c: nat)
    requires Inv(w, m) && SharedExist(m) && c in m.calls && m.calls[c].progress.Started? && m.calls[c].kind.Complete?
    requires m.slot.Some? && m.slot.value.0 == InputKeyOf(w, m.calls[c].request)
    ensures Enabled(w, m, Check(c))
    ensures var m' := Apply(w, m, Check(c));
      && SharedExist(m') && CachesOf(m') == CachesOf(m).(slot := None)
      && m'.calls == m.calls[c := m.calls[c].(progress := Taken(m.slot.value.1))]
  {
    hide InputKeyOf, Inv;
  }

  lemma LookupStep(w: World, m: Machine, c: nat)
    requires Inv(w, m) && c in m.calls && m.calls[c].progress.SlotMissed?
    ensures Enabled(w, m, Lookup(c)) && IsLocal(m, Apply(w, m, Lookup(c)), c)
    ensures var r := m.calls[c].request;
      Goes(w, m, c, Lookup(c),
        if r.prefix != "" && PromptKeyOf(w, r) in m.prepared then Looked(m.prepared[PromptKeyOf(w, r)]) else Missed)
  {
    hide PromptKeyOf, CallsInv, PreparedInv, SlotInv, IsLocal;
    LookupIsLocal(w, m, c);
  }

  lemma OpenStep(w: World, m: Machine, c: nat)
    requires Inv(w, m) && c in m.calls && m.calls[c].progress.Missed?
    ensures Goes(w, m, c, Open(c), if m.calls[c].request.prefix == "" then PrefixReady(m.nextId) else Opened(m.nextId))
  {
    hide Inv, NewState;
  }

  lemma FeedPrefixStep(w: World, m: Machine, c: nat)
    requires Inv(w, m) && c in m.calls && m.calls[c].progress.Opened?
    ensures Goes(w, m, c, FeedPrefix(c, Success), PrefixFed(m.calls[c].progress.own))
  {
    hide Inv, TokensOf, S.Advanced;
    OwnedExist(w, m, c);
  }

  lemma CopyStep(w: World, m: Machine, c: nat)
    requires Inv(w, m) && c in m.calls && (m.calls[c].progress.PrefixFed? || m.calls[c].progress.Looked?)
    ensures var p := m.calls[c].progress;
      Goes(w, m, c, CopyPrefix(c), if p.Looked? then PrefixReady(m.nextId) else PrefixCopied(p.own, m.nextId))
  {
    hide Admitted, PrefixState, PromptState, NewState, PromptKeyOf, InputKeyOf, PreparedInv, SlotInv, GeneratesFor;
    OwnedExist(w, m, c);
    assert CallInv(w, m, c, m.calls[c]);
  }

  lemma WarmUpStep(w: World, m: Machine, c: nat)
    requires Inv(w, m) && c in m.calls && m.calls[c].kind.PreparePrefix? && m.calls[c].progress.PrefixCopied?
    ensures Goes(w, m, c, WarmUp(c, Success), Warmed(m.calls[c].progress.own, m.calls[c].progress.clean))
  {
    hide Inv, S.Advanced, CanContinue, NextToken;
    OwnedExist(w, m, c);
  }

  /** Storing the clean copy does to the cache what StorePrepared does. */
  lemma StoreCopyStep(w: World, m: Machine, c: nat)
    requires Inv(w, m) && SharedExist(m) && HasCopy(m, c)
    ensures Enabled(w, m, Store(c))
    ensures var m', r := Apply(w, m, Store(c)), m.calls[c].request;
      && SharedExist(m')
      && CachesOf(m') ==
           CachesOf(m).(prepared := StorePrepared(CachesOf(m).prepared, PromptKeyOf(w, r), PrefixState(w, r)))
      && m'.calls == m.calls[c := m.calls[c].(progress := m'.calls[c].progress)]
      && m'.calls[c].progress ==
           if m.calls[c].kind.PreparePrefix? then Ended else PrefixReady(m.calls[c].progress.own)
  {
    hide Admitted, PrefixState, PromptState, NewState, PromptKeyOf, InputKeyOf, PreparedInv, SlotInv, GeneratesFor;
    hide StorePrepared;
    OwnedExist(w, m, c);
    assert CallInv(w, m, c, m.calls[c]);
    var clean, key := m.calls[c].progress.clean, PromptKeyOf(w, m.calls[c].request);
    StoringValues(w, m, key, clean, PrefixState(w, m.calls[c].request));
  }

  lemma StoringValues(w: World, m: Machine, key: string, id: nat, s: S.SessionState)
    requires SharedExist(m) && Holds(w, m, id, s)
    ensures var after := m.(prepared := StorePrepared(m.prepared, key, id));
      SharedExist(after) && CachesOf(after).prepared == StorePrepared(CachesOf(m).prepared, key, s)
  {
    var values := CachesOf(m).prepared;
    SameKeysStored(m.prepared, values, key, id, s);
  }

  /** Which entry is dropped depends on the keys alone. */
  lemma SameKeysStored<T, U>(a: map<string, T>, b: map<string, U>, key: string, x: T, y: U)
    requires a.Keys == b.Keys
    ensures StorePrepared(a, key, x).Keys == StorePrepared(b, key, y).Keys
  {
    assert |a| == |a.Keys| && |b| == |b.Keys|;
  }

  lemma ArmStep(w: World, m: Machine, c: nat)
    requires Inv(w, m) && c in m.calls && (m.calls[c].progress.PrefixReady? || m.calls[c].progress.Taken?)
    ensures var p := m.calls[c].progress;
      Goes(w, m, c, Arm(c), if p.Taken? then PromptReady(p.own) else Armed(p.own))
  {
    hide Inv;
    OwnedExist(w, m, c);
  }

  lemma FeedSuffixStep(w: World, m: Machine, c: nat)
    requires Inv(w, m) && c in m.calls && m.calls[c].progress.Armed?
    ensures Goes(w, m, c, FeedSuffix(c, Success), PromptReady(m.calls[c].progress.own))
  {
    hide Inv, TokensOf, S.Advanced;
    OwnedExist(w, m, c);
  }

  lemma StoreInputStep(w: World, m: Machine, c: nat)
    requires Inv(w, m) && SharedExist(m) && c in m.calls
    requires m.calls[c].kind.PrepareInput? && m.calls[c].progress.PromptReady?
    ensures Goes(w, m, c, StoreInput(c), Ended)
    ensures var m', r := Apply(w, m, StoreInput(c)), m.calls[c].request;
      && SharedExist(m') && CachesOf(m') == CachesOf(m).(slot := Some((InputKeyOf(w, r), PromptState(w, r))))
      && m'.calls == m.calls[c := m.calls[c].(progress := Ended)]
  {
    hide Admitted, PrefixState, PromptState, NewState, PromptKeyOf, InputKeyOf, PreparedInv, SlotInv, GeneratesFor;
    OwnedExist(w, m, c);
    assert CallInv(w, m, c, m.calls[c]);
  }

  lemma BeginStep(w: World, m: Machine, c: nat)
    requires Inv(w, m) && c in m.calls && m.calls[c].kind.Complete? && m.calls[c].progress.PromptReady?
    requires PromptState(w, m.calls[c].request).tokens != []
    ensures Goes(w, m, c, Begin(c), Generating(m.calls[c].progress.own, []))
  {
    hide Admitted, PrefixState, PromptState, NewState, PromptKeyOf, InputKeyOf, PreparedInv, SlotInv, GeneratesFor;
    OwnedExist(w, m, c);
    assert CallInv(w, m, c, m.calls[c]);
  }

  /** The next token of a greedy run can be generated, and it is the one that is generated. */
  lemma GenerateStep(w: World, m: Machine, c: nat, generated: seq<S.Token>, n: nat)
    requires Inv(w, m) && c in m.calls && GeneratesFor(w, m.calls[c].request, generated) && n < |generated|
    requires m.calls[c].progress.Generating? && m.calls[c].progress.generated == generated[..n]
    ensures Goes(w, m, c, Generate(c, Success), Generating(m.calls[c].progress.own, generated[..n + 1]))
  {
    hide Admitted, PrefixState, PromptState, NewState, PromptKeyOf, InputKeyOf, PreparedInv, SlotInv, S.Generated;
    hide S.Ready, S.Advanced;
    OwnedExist(w, m, c);
    assert CallInv(w, m, c, m.calls[c]);
    var r := m.calls[c].request;
    PromptStateIsReady(w, r);
    S.GeneratedIsReady(PromptState(w, r), generated[..n]);
    assert generated[n] == ModelOf(w, r).next(PromptState(w, r).tokens + generated[..n]);
    assert generated[..n] + [generated[n]] == generated[..n + 1];
  }

  lemma FinishStep(w: World, m: Machine, c: nat)
    requires Inv(w, m) && c in m.calls && m.calls[c].progress.Generating?
    ensures Goes(w, m, c, Finish(c), Delivered(m.calls[c].progress.generated))
  {
    hide Inv;
    OwnedExist(w, m, c);
  }

  lemma AbandonStep(w: World, m: Machine, c: nat)
    requires Inv(w, m) && c in m.calls && !m.calls[c].progress.Ended? && !m.calls[c].progress.Delivered?
    ensures Goes(w, m, c, Abandon(c), Ended)
  {
    hide Inv;
    OwnedExist(w, m, c);
  }

  // ---------- Stretches of a call ----------

  /** The call is at `p` now. */
  ghost predicate Stands(w: World, c: nat, m: Machine, run: seq<Machine>, kind: Kind, r: Request, caches: Caches,
                         p: Progress) {
    Reached(w, c, m, run, kind, r, caches) && Last(run).calls[c].progress == p
  }

  /** One more step, with what it does to the caches. */
  lemma Forward(w: World, c: nat, m: Machine, run: seq<Machine>, kind: Kind, r: Request, caches: Caches,
                step: Step, after: Caches, p: Progress)
    returns (longer: seq<Machine>)
    requires CollisionFree(w.hashes) && Reached(w, c, m, run, kind, r, caches)
    requires step.call == c && Goes(w, Last(run), c, step, p)
    requires var m' := Apply(w, Last(run), step);
      SharedExist(m') && CachesOf(m') == after && m'.calls[c].kind == kind && m'.calls[c].request == r
    ensures Stands(w, c, m, longer, kind, r, after, p)
  {
    hide Enabled, Apply, Inv, SoloNext, CachesOf, SharedExist, CollisionFree;
    longer := SoloExtend(w, c, run, step);
    StepKeepsInv(w, Last(run), step);
  }

  lemma LocalForward(w: World, c: nat, m: Machine, run: seq<Machine>, kind: Kind, r: Request, caches: Caches,
                     step: Step, p: Progress)
    returns (longer: seq<Machine>)
    requires CollisionFree(w.hashes) && Reached(w, c, m, run, kind, r, caches)
    requires step.call == c && Goes(w, Last(run), c, step, p) && IsLocal(Last(run), Apply(w, Last(run), step), c)
    ensures Stands(w, c, m, longer, kind, r, caches, p)
  {
    hide Enabled, Apply, Inv, SoloNext, CachesOf, SharedExist, CollisionFree, Stands;
    LocalKeepsCaches(w, Last(run), Apply(w, Last(run), step), c);
    longer := Forward(w, c, m, run, kind, r, caches, step, caches, p);
  }

  /** A step on the call's own sessions leaves the caches alone. */
  lemma Move(w: World, c: nat, m: Machine, run: seq<Machine>, kind: Kind, r: Request, caches: Caches,
             step: Step, p: Progress)
    returns (longer: seq<Machine>)
    requires CollisionFree(w.hashes) && Reached(w, c, m, run, kind, r, caches)
    requires step.call == c && IsOwnStep(step) && Goes(w, Last(run), c, step, p)
    ensures Stands(w, c, m, longer, kind, r, caches, p)
  {
    hide Enabled, Apply, Inv, SoloNext, CachesOf, SharedExist, IsOwnStep, CollisionFree, Stands, IsLocal;
    InvBoundsIds(w, Last(run));
    OwnStepIsLocal(w, Last(run), step);
    longer := LocalForward(w, c, m, run, kind, r, caches, step, p);
  }

  lemma Start(w: World, c: nat, m: Machine, kind: Kind, r: Request) returns (run: seq<Machine>)
    requires Inv(w, m) && SharedExist(m) && c !in m.calls && Admitted(w, r)
    requires kind.PreparePrefix? ==> r.prefix != "" && r.suffix == ""
    ensures Stands(w, c, m, run, kind, r, CachesOf(m), Started)
  {
    hide Enabled, Apply, Inv, SoloNext, CachesOf, SharedExist, Admitted;
    SpawnStep(w, m, c, kind, r);
    run := SoloExtend(w, c, [m], Spawn(c, kind, r));
  }

  lemma CheckAndMiss(w: World, c: nat, m: Machine, run: seq<Machine>, kind: Kind, r: Request, caches: Caches)
    returns (longer: seq<Machine>)
    requires CollisionFree(w.hashes) && Stands(w, c, m, run, kind, r, caches, Started)
    requires !(kind.Complete? && TakeMatching(caches.slot, InputKeyOf(w, r)).1.Some?)
    ensures Stands(w, c, m, longer, kind, r, caches,
      match kind
      case PreparePrefix => if PromptKeyOf(w, r) in caches.prepared then Ended else Missed
      case PrepareInput => if TakeMatching(caches.slot, InputKeyOf(w, r)).1.Some? then Ended else SlotMissed
      case Complete => SlotMissed)
  {
    hide Enabled, Apply, Inv, SoloNext, PromptKeyOf, InputKeyOf, IsLocal, CollisionFree;
    CheckMisses(w, Last(run), c);
    longer := LocalForward(w, c, m, run, kind, r, caches, Check(c), CheckedAt(w, Last(run), kind, r));
  }

  lemma CheckAndTake(w: World, c: nat, m: Machine, run: seq<Machine>, r: Request, caches: Caches)
    returns (longer: seq<Machine>, own: nat)
    requires CollisionFree(w.hashes) && Stands(w, c, m, run, Complete, r, caches, Started)
    requires TakeMatching(caches.slot, InputKeyOf(w, r)).1.Some?
    ensures Stands(w, c, m, longer, Complete, r, caches.(slot := None), Taken(own))
  {
    hide Enabled, Apply, Inv, SoloNext, InputKeyOf, CollisionFree;
    own := Last(run).slot.value.1;
    CheckHits(w, Last(run), c);
    longer := Forward(w, c, m, run, Complete, r, caches, Check(c), caches.(slot := None), Taken(own));
  }

  lemma StoreCopy(w: World, c: nat, m: Machine, run: seq<Machine>, kind: Kind, r: Request, caches: Caches)
    returns (longer: seq<Machine>)
    requires CollisionFree(w.hashes) && Reached(w, c, m, run, kind, r, caches) && HasCopy(Last(run), c)
    ensures
      var stored := caches.(prepared := StorePrepared(caches.prepared, PromptKeyOf(w, r), PrefixState(w, r)));
      Stands(w, c, m, longer, kind, r, stored,
        if kind.PreparePrefix? then Ended else PrefixReady(Last(run).calls[c].progress.own))
  {
    hide Enabled, Apply, Inv, SoloNext, PromptKeyOf, PrefixState, StorePrepared, SharedExist, CachesOf, Stands;
    hide CollisionFree;
    StoreCopyStep(w, Last(run), c);
    var stored := caches.(prepared := StorePrepared(caches.prepared, PromptKeyOf(w, r), PrefixState(w, r)));
    longer := Forward(w, c, m, run, kind, r, caches, Store(c), stored,
                      if kind.PreparePrefix? then Ended else PrefixReady(Last(run).calls[c].progress.own));
  }

  /** Opening a session, feeding it the prefix and copying it while it is clean. */
  lemma OpenAndCopy(w: World, c: nat, m: Machine, run: seq<Machine>, kind: Kind, r: Request, caches: Caches)
    returns (longer: seq<Machine>, own: nat, clean: nat)
    requires CollisionFree(w.hashes) && Stands(w, c, m, run, kind, r, caches, Missed) && r.prefix != ""
    ensures Stands(w, c, m, longer, kind, r, caches, PrefixCopied(own, clean))
  {
    hide Inv, SoloNext, CollisionFree, Goes, CachesOf, SharedExist;
    own := Last(run).nextId;
    OpenStep(w, Last(run), c);
    longer := Move(w, c, m, run, kind, r, caches, Open(c), Opened(own));
    FeedPrefixStep(w, Last(longer), c);
    longer := Move(w, c, m, longer, kind, r, caches, FeedPrefix(c, Success), PrefixFed(own));
    CopyStep(w, Last(longer), c);
    clean := Last(longer).nextId;
    longer := Move(w, c, m, longer, kind, r, caches, CopyPrefix(c), PrefixCopied(own, clean));
  }

  /** From a missed slot to a session with the prefix. */
  lemma GetPrefix(w: World, c: nat, m: Machine, run: seq<Machine>, kind: Kind, r: Request, caches: Caches)
    returns (longer: seq<Machine>, own: nat)
    requires CollisionFree(w.hashes) && !kind.PreparePrefix? && Stands(w, c, m, run, kind, r, caches, SlotMissed)
    ensures Stands(w, c, m, longer, kind, r, caches.(prepared := AfterPrefix(w, r, caches.prepared)), PrefixReady(own))
  {
    hide Inv, SoloNext, CollisionFree, Goes, Enabled, Apply, IsLocal, PromptKeyOf, StorePrepared, PrefixState;
    var key := PromptKeyOf(w, r);
    LookupStep(w, Last(run), c);
    longer := LocalForward(w, c, m, run, kind, r, caches, Lookup(c),
      if r.prefix != "" && key in Last(run).prepared then Looked(Last(run).prepared[key]) else Missed);
    own := Last(longer).nextId;
    if r.prefix == "" {
      OpenStep(w, Last(longer), c);
      longer := Move(w, c, m, longer, kind, r, caches, Open(c), PrefixReady(own));
    } else if key in caches.prepared {
      CopyStep(w, Last(longer), c);
      longer := Move(w, c, m, longer, kind, r, caches, CopyPrefix(c), PrefixReady(own));
    } else {
      var clean;
      longer, own, clean := OpenAndCopy(w, c, m, longer, kind, r, caches);
      longer := StoreCopy(w, c, m, longer, kind, r, caches);
    }
  }

  /** Feeding the suffix. */
  lemma GetPrompt(w: World, c: nat, m: Machine, run: seq<Machine>, kind: Kind, r: Request, caches: Caches, own: nat)
    returns (longer: seq<Machine>)
    requires CollisionFree(w.hashes) && Stands(w, c, m, run, kind, r, caches, PrefixReady(own))
    ensures Stands(w, c, m, longer, kind, r, caches, PromptReady(own))
  {
    hide Inv, SoloNext, CollisionFree, Goes, CachesOf, SharedExist;
    ArmStep(w, Last(run), c);
    longer := Move(w, c, m, run, kind, r, caches, Arm(c), Armed(own));
    FeedSuffixStep(w, Last(longer), c);
    longer := Move(w, c, m, longer, kind, r, caches, FeedSuffix(c, Success), PromptReady(own));
  }

  lemma {:induction false} GenerateTokens(w: World, c: nat, m: Machine, run: seq<Machine>, r: Request, caches: Caches,
                                          own: nat, generated: seq<S.Token>, n: nat)
    returns (longer: seq<Machine>)
    requires CollisionFree(w.hashes) && Stands(w, c, m, run, Complete, r, caches, PromptReady(own))
    requires GeneratesFor(w, r, generated) && n <= |generated|
    ensures Stands(w, c, m, longer, Complete, r, caches, Generating(own, generated[..n]))
    decreases n
  {
    hide Inv, SoloNext, CollisionFree, Goes, CachesOf, SharedExist;
    if n == 0 {
      BeginStep(w, Last(run), c);
      longer := Move(w, c, m, run, Complete, r, caches, Begin(c), Generating(own, []));
      assert generated[..0] == [];
    } else {
      longer := GenerateTokens(w, c, m, run, r, caches, own, generated, n - 1);
      GenerateStep(w, Last(longer), c, generated, n - 1);
      longer := Move(w, c, m, longer, Complete, r, caches, Generate(c, Success), Generating(own, generated[..n]));
    }
  }

  lemma GenerateAll(w: World, c: nat, m: Machine, run: seq<Machine>, r: Request, caches: Caches,
                    own: nat, generated: seq<S.Token>)
    returns (longer: seq<Machine>)
    requires CollisionFree(w.hashes) && Stands(w, c, m, run, Complete, r, caches, PromptReady(own))
    requires GeneratesFor(w, r, generated)
    ensures Stands(w, c, m, longer, Complete, r, caches, Delivered(generated))
  {
    hide Inv, SoloNext, CollisionFree, Goes, CachesOf, SharedExist, GeneratesFor;
    longer := GenerateTokens(w, c, m, run, r, caches, own, generated, |generated|);
    assert generated[..|generated|] == generated;
    FinishStep(w, Last(longer), c);
    longer := Move(w, c, m, longer, Complete, r, caches, Finish(c), Delivered(generated));
  }

  lemma GiveUp(w: World, c: nat, m: Machine, run: seq<Machine>, kind: Kind, r: Request, caches: Caches)
    returns (longer: seq<Machine>)
    requires CollisionFree(w.hashes) && Reached(w, c, m, run, kind, r, caches)
    requires !Last(run).calls[c].progress.Delivered?
    ensures Stands(w, c, m, longer, kind, r, caches, Ended)
  {
    hide Inv, SoloNext, CollisionFree, Goes, CachesOf, SharedExist;
    if Last(run).calls[c].progress.Ended? {
      longer := run;
    } else {
      AbandonStep(w, Last(run), c);
      longer := Move(w, c, m, run, kind, r, caches, Abandon(c), Ended);
    }
  }

  // ---------- Every effect is reachable ----------

  lemma PrefixEffectIsReachable(w: World, c: nat, m: Machine, r: Request, after: Caches, done: bool)
    returns (run: seq<Machine>)
    requires CollisionFree(w.hashes) && Inv(w, m) && SharedExist(m) && c !in m.calls && Admitted(w, r)
    requires r.prefix != "" && r.suffix == "" && Effect(w, PreparePrefix, r, CachesOf(m), after, done)
    ensures Stands(w, c, m, run, PreparePrefix, r, after, Ended)
  {
    hide Inv, SoloNext, CollisionFree, Goes, CachesOf, SharedExist, PromptKeyOf, InputKeyOf, StorePrepared, PrefixState;
    hide Admitted;
    var caches := CachesOf(m);
    run := Start(w, c, m, PreparePrefix, r);
    run := CheckAndMiss(w, c, m, run, PreparePrefix, r, caches);
    if PromptKeyOf(w, r) !in caches.prepared && after != caches {
      var own, clean;
      run, own, clean := OpenAndCopy(w, c, m, run, PreparePrefix, r, caches);
      WarmUpStep(w, Last(run), c);
      run := Move(w, c, m, run, PreparePrefix, r, caches, WarmUp(c, Success), Warmed(own, clean));
      run := StoreCopy(w, c, m, run, PreparePrefix, r, caches);
    } else {
      run := GiveUp(w, c, m, run, PreparePrefix, r, caches);
    }
  }

  lemma InputEffectIsReachable(w: World, c: nat, m: Machine, r: Request, after: Caches, done: bool)
    returns (run: seq<Machine>)
    requires CollisionFree(w.hashes) && Inv(w, m) && SharedExist(m) && c !in m.calls && Admitted(w, r)
    requires Effect(w, PrepareInput, r, CachesOf(m), after, done)
    ensures Stands(w, c, m, run, PrepareInput, r, after, Ended)
  {
    hide Inv, SoloNext, CollisionFree, Goes, CachesOf, SharedExist, PromptKeyOf, InputKeyOf, AfterPrefix, PromptState;
    hide Admitted;
    var caches := CachesOf(m);
    run := Start(w, c, m, PrepareInput, r);
    run := CheckAndMiss(w, c, m, run, PrepareInput, r, caches);
    if TakeMatching(caches.slot, InputKeyOf(w, r)).1.None? && after != caches {
      var own;
      run, own := GetPrefix(w, c, m, run, PrepareInput, r, caches);
      var filled := caches.(prepared := AfterPrefix(w, r, caches.prepared));
      if done {
        run := GetPrompt(w, c, m, run, PrepareInput, r, filled, own);
        StoreInputStep(w, Last(run), c);
        run := Forward(w, c, m, run, PrepareInput, r, filled, StoreInput(c), after, Ended);
      } else {
        run := GiveUp(w, c, m, run, PrepareInput, r, filled);
      }
    } else {
      run := GiveUp(w, c, m, run, PrepareInput, r, caches);
    }
  }

  lemma CompleteEffectIsReachable(w: World, c: nat, m: Machine, r: Request, after: Caches, done: bool,
                                  generated: seq<S.Token>)
    returns (run: seq<Machine>)
    requires CollisionFree(w.hashes) && Inv(w, m) && SharedExist(m) && c !in m.calls && Admitted(w, r)
    requires Effect(w, Complete, r, CachesOf(m), after, done) && (done ==> GeneratesFor(w, r, generated))
    ensures Stands(w, c, m, run, Complete, r, after, if done then Delivered(generated) else Ended)
  {
    hide Inv, SoloNext, CollisionFree, Goes, CachesOf, SharedExist, PromptKeyOf, InputKeyOf, AfterPrefix, PromptState;
    hide Admitted, GeneratesFor;
    var caches := CachesOf(m);
    var own;
    run := Start(w, c, m, Complete, r);
    if TakeMatching(caches.slot, InputKeyOf(w, r)).1.Some? {
      run, own := CheckAndTake(w, c, m, run, r, caches);
      if done {
        ArmStep(w, Last(run), c);
        run := Move(w, c, m, run, Complete, r, after, Arm(c), PromptReady(own));
      }
    } else {
      run := CheckAndMiss(w, c, m, run, Complete, r, caches);
      if after != caches || done {
        run, own := GetPrefix(w, c, m, run, Complete, r, caches);
        if done {
          run := GetPrompt(w, c, m, run, Complete, r, after, own);
        }
      }
    }
    if done {
      run := GenerateAll(w, c, m, run, r, after, own, generated);
    } else {
      run := GiveUp(w, c, m, run, Complete, r, after);
    }
  }

  /** Whatever a call alone leaves in the caches, the step system can leave there in the same way: from any
      state that it can be in, by steps of that one call. */
  lemma EffectIsReachable(w: World, c: nat, m: Machine, kind: Kind, r: Request, after: Caches, done: bool,
                          generated: seq<S.Token>)
    returns (run: seq<Machine>)
    requires CollisionFree(w.hashes) && Inv(w, m) && c !in m.calls && Admitted(w, r)
    requires kind.PreparePrefix? ==> r.prefix != "" && r.suffix == ""
    requires Effect(w, kind, r, CachesOf(m), after, done)
    requires kind.Complete? && done ==> GeneratesFor(w, r, generated)
    ensures IsSolo(w, c, run) && run[0] == m && SharedExist(Last(run)) && CachesOf(Last(run)) == after
    ensures c in Last(run).calls
    ensures Last(run).calls[c] == Call(kind, r, if kind.Complete? && done then Delivered(generated) else Ended)
  {
    hide Inv, SoloNext, CachesOf, SharedExist, Effect, CollisionFree, Admitted, GeneratesFor;
    InvSharedExist(w, m);
    match kind
    case PreparePrefix => run := PrefixEffectIsReachable(w, c, m, r, after, done);
    case PrepareInput => run := InputEffectIsReachable(w, c, m, r, after, done);
    case Complete => run := CompleteEffectIsReachable(w, c, m, r, after, done, generated);
  }

  // ---------- And nothing else is ----------

  /** What a call alone has made of the caches when it stands at `p`. */
  ghost predicate HasMade(w: World, kind: Kind, r: Request, before: Caches, now: Caches, p: Progress) {
    var filled := before.(prepared := AfterPrefix(w, r, before.prepared));
    var taken := before.(slot := None);
    var hit := kind.Complete? && Hits(w, r, before);
    var unknown := r.prefix == "" || PromptKeyOf(w, r) !in before.prepared;
    && (kind.PreparePrefix? ==> r.prefix != "")
    && (p != Started && !p.Ended? && kind.PrepareInput? ==> !Hits(w, r, before))
    && match p
       case Started => now == before
       case SlotMissed => now == before && !hit && !kind.PreparePrefix?
       case Looked(_) => now == before && !hit && !unknown && !kind.PreparePrefix?
       case Missed => now == before && !hit && unknown
       case Opened(_) => now == before && !hit && unknown
       case PrefixFed(_) => now == before && !hit && unknown
       case PrefixCopied(_, _) => now == before && !hit && unknown
       case Warmed(_, _) => now == before && kind.PreparePrefix? && unknown
       case PrefixReady(_) => now == filled && !hit && !kind.PreparePrefix?
       case Armed(_) => now == filled && !hit && !kind.PreparePrefix?
       case Taken(_) => now == taken && hit
       case PromptReady(_) => now == (if hit then taken else filled) && !kind.PreparePrefix?
       case Generating(_, _) => now == (if hit then taken else filled) && kind.Complete?
       case Delivered(_) => now == (if hit then taken else filled) && kind.Complete?
       case Broken(_) => if hit then now == taken else now == before || (now == filled && !kind.PreparePrefix?)
       case Ended => MayEnd(w, kind, r, before, now)
  }

  /** A call that has ended leaves the caches alone or leaves what `Effect` says. */
  ghost predicate MayEnd(w: World, kind: Kind, r: Request, before: Caches, after: Caches) {
    after == before || exists done :: Effect(w, kind, r, before, after, done)
  }

  /** Where a step on the call's own sessions can take it. */
  predicate Follows(kind: Kind, bare: bool, p: Progress, q: Progress) {
    || (p.Missed? && if bare then q.PrefixReady? else q.Opened?)
    || (p.Opened? && (q.PrefixFed? || q.Broken?))
    || (p.Looked? && q.PrefixReady?)
    || (p.PrefixFed? && q.PrefixCopied?)
    || (p.PrefixCopied? && kind.PreparePrefix? && (q.Warmed? || q.Broken?))
    || (p.PrefixReady? && q.Armed?)
    || (p.Taken? && q.PromptReady?)
    || (p.Armed? && (q.PromptReady? || q.Broken?))
    || (p.PromptReady? && kind.Complete? && q.Generating?)
    || (p.Generating? && (q.Generating? || q.Broken? || q.Delivered?))
    || (!p.Ended? && !p.Delivered? && q.Ended?)
  }

  lemma OwnStepFollows(w: World, m: Machine, step: Step)
    requires IsOwnStep(step) && Enabled(w, m, step)
    ensures step.call in Apply(w, m, step).calls
    ensures var call := m.calls[step.call];
      Follows(call.kind, call.request.prefix == "", call.progress, Apply(w, m, step).calls[step.call].progress)
  {
    hide Admitted, PrefixState, PromptState, NewState, PromptKeyOf, InputKeyOf, CanContinue, Possible, TokensOf;
    hide StorePrepared, S.Advanced, S.Spoiled, NextToken, Own, StoreStep, CheckStep, HasCopy;
  }

  lemma FollowingKeeps(w: World, kind: Kind, r: Request, before: Caches, now: Caches, p: Progress, q: Progress)
    requires HasMade(w, kind, r, before, now, p) && Follows(kind, r.prefix == "", p, q)
    ensures HasMade(w, kind, r, before, now, q)
  {
    hide PromptKeyOf, InputKeyOf, StorePrepared, PrefixState, PromptState, MayEnd;
    if q.Ended? {
      AbandonedMayEnd(w, kind, r, before, now, p);
    }
  }

  lemma AbandonedMayEnd(w: World, kind: Kind, r: Request, before: Caches, now: Caches, p: Progress)
    requires HasMade(w, kind, r, before, now, p)
    ensures MayEnd(w, kind, r, before, now)
  {
    hide PromptKeyOf, InputKeyOf, StorePrepared, PrefixState, PromptState, AfterPrefix;
    if !p.Ended? && now != before {
      assert Effect(w, kind, r, before, now, false);
    }
  }

  /** The call is in the state of `m`, with the caches it has made of `before`. */
  ghost predicate IsUnderWay(w: World, c: nat, before: Caches, m: Machine, kind: Kind, r: Request) {
    && Inv(w, m) && SharedExist(m) && c in m.calls && m.calls[c].kind == kind && m.calls[c].request == r
    && HasMade(w, kind, r, before, CachesOf(m), m.calls[c].progress)
  }

  lemma OwnStepKeepsCourse(w: World, c: nat, before: Caches, m: Machine, kind: Kind, r: Request, step: Step)
    requires IsUnderWay(w, c, before, m, kind, r)
    requires step.call == c && Enabled(w, m, step) && IsOwnStep(step)
    ensures IsUnderWay(w, c, before, Apply(w, m, step), kind, r)
  {
    hide Enabled, Apply, Inv, CachesOf, SharedExist, IsOwnStep, HasMade, Follows;
    OwnStepKeepsInv(w, m, step);
    InvBoundsIds(w, m);
    OwnStepIsLocal(w, m, step);
    LocalKeepsCaches(w, m, Apply(w, m, step), c);
    OwnStepFollows(w, m, step);
    FollowingKeeps(w, kind, r, before, CachesOf(m), m.calls[c].progress, Apply(w, m, step).calls[c].progress);
  }

  lemma CheckKeepsCourse(w: World, c: nat, before: Caches, m: Machine, kind: Kind, r: Request)
    requires IsUnderWay(w, c, before, m, kind, r) && m.calls[c].progress.Started?
    ensures Enabled(w, m, Check(c)) && IsUnderWay(w, c, before, Apply(w, m, Check(c)), kind, r)
  {
    hide Enabled, Apply, Inv, PromptKeyOf, InputKeyOf, AfterPrefix, IsLocal, PromptState;
    if kind.Complete? && m.slot.Some? && m.slot.value.0 == InputKeyOf(w, r) {
      CheckHits(w, m, c);
      CheckKeepsInv(w, m, c);
    } else {
      CheckMisses(w, m, c);
      CheckKeepsInv(w, m, c);
      LocalKeepsRest(w, m, Apply(w, m, Check(c)), c);
      assert MayEnd(w, kind, r, before, before);
    }
  }

  lemma LocalKeepsRest(w: World, m: Machine, m': Machine, c: nat)
    requires Inv(w, m) && IsLocal(m, m', c) && SharedExist(m)
    ensures SharedExist(m') && CachesOf(m') == CachesOf(m)
    ensures c in m'.calls && m'.calls[c].kind == m.calls[c].kind && m'.calls[c].request == m.calls[c].request
  {
    hide Inv, SharedExist, CachesOf;
    LocalKeepsCaches(w, m, m', c);
  }

  lemma LookupKeepsCourse(w: World, c: nat, before: Caches, m: Machine, kind: Kind, r: Request)
    requires IsUnderWay(w, c, before, m, kind, r) && m.calls[c].progress.SlotMissed?
    ensures Enabled(w, m, Lookup(c)) && IsUnderWay(w, c, before, Apply(w, m, Lookup(c)), kind, r)
  {
    hide Enabled, Apply, Inv, PromptKeyOf, InputKeyOf, AfterPrefix, IsLocal;
    LookupStep(w, m, c);
    LookupKeepsInv(w, m, c);
    LocalKeepsRest(w, m, Apply(w, m, Lookup(c)), c);
  }

  lemma StoreKeepsCourse(w: World, c: nat, before: Caches, m: Machine, kind: Kind, r: Request)
    requires CollisionFree(w.hashes) && IsUnderWay(w, c, before, m, kind, r) && HasCopy(m, c)
    ensures Enabled(w, m, Store(c)) && IsUnderWay(w, c, before, Apply(w, m, Store(c)), kind, r)
  {
    hide Enabled, Apply, Inv, PromptKeyOf, InputKeyOf, StorePrepared, PrefixState, CachesOf, SharedExist, CollisionFree;
    StoreCopyStep(w, m, c);
    StepKeepsInv(w, m, Store(c));
    CopierHasPrefix(w, m, c);
    if kind.PreparePrefix? {
      PrefixStored(w, r, before);
    }
  }

  lemma PrefixStored(w: World, r: Request, before: Caches)
    ensures MayEnd(w, PreparePrefix, r, before, before.(prepared := AfterPrefix(w, r, before.prepared)))
  {
    hide AfterPrefix;
    assert Effect(w, PreparePrefix, r, before, before.(prepared := AfterPrefix(w, r, before.prepared)), true);
  }

  lemma CopierHasPrefix(w: World, m: Machine, c: nat)
    requires Inv(w, m) && HasCopy(m, c)
    ensures m.calls[c].request.prefix != ""
  {
    hide Admitted, PrefixState, PromptState, NewState, PromptKeyOf, InputKeyOf, PreparedInv, SlotInv, GeneratesFor;
    assert CallInv(w, m, c, m.calls[c]);
  }

  lemma StoreInputKeepsCourse(w: World, c: nat, before: Caches, m: Machine, kind: Kind, r: Request)
    requires CollisionFree(w.hashes) && IsUnderWay(w, c, before, m, kind, r)
    requires kind.PrepareInput? && m.calls[c].progress.PromptReady?
    ensures Enabled(w, m, StoreInput(c)) && IsUnderWay(w, c, before, Apply(w, m, StoreInput(c)), kind, r)
  {
    hide Enabled, Apply, Inv, PromptKeyOf, InputKeyOf, AfterPrefix, PromptState, CachesOf, SharedExist, CollisionFree;
    StoreInputStep(w, m, c);
    StepKeepsInv(w, m, StoreInput(c));
    InputOnPrefix(w, r, before, before.(prepared := AfterPrefix(w, r, before.prepared)), true);
  }

  lemma StepKeepsCourse(w: World, c: nat, before: Caches, m: Machine, kind: Kind, r: Request, step: Step)
    requires CollisionFree(w.hashes) && IsUnderWay(w, c, before, m, kind, r)
    requires step.call == c && Enabled(w, m, step)
    ensures IsUnderWay(w, c, before, Apply(w, m, step), kind, r)
  {
    hide Apply, IsUnderWay, Admitted, Possible, CanContinue, NextToken, Own;
    assert c in m.calls by {
      UnderWayIsThere(w, c, before, m, kind, r);
    }
    if IsOwnStep(step) {
      OwnStepKeepsCourse(w, c, before, m, kind, r, step);
    } else {
      UnderWayIsThere(w, c, before, m, kind, r);
      match step
      case Check(_) => CheckKeepsCourse(w, c, before, m, kind, r);
      case Lookup(_) => LookupKeepsCourse(w, c, before, m, kind, r);
      case Store(_) => StoreKeepsCourse(w, c, before, m, kind, r);
      case StoreInput(_) => StoreInputKeepsCourse(w, c, before, m, kind, r);
    }
  }

  lemma UnderWayIsThere(w: World, c: nat, before: Caches, m: Machine, kind: Kind, r: Request)
    requires IsUnderWay(w, c, before, m, kind, r)
    ensures c in m.calls && m.calls[c].kind == kind && m.calls[c].request == r
  {
  }

  lemma SpawnKeepsCourse(w: World, c: nat, m: Machine, step: Step)
    requires Inv(w, m) && c !in m.calls && step.call == c && Enabled(w, m, step)
    ensures step.Spawn? && SharedExist(m)
    ensures IsUnderWay(w, c, CachesOf(m), Apply(w, m, step), step.kind, step.request)
  {
    hide Inv, Admitted, AfterPrefix, PromptKeyOf, InputKeyOf;
    InvSharedExist(w, m);
    SpawnStep(w, m, c, step.kind, step.request);
  }

  lemma {:induction false} SoloIsUnderWay(w: World, c: nat, run: seq<Machine>, n: nat)
    requires CollisionFree(w.hashes) && IsSolo(w, c, run) && Inv(w, run[0]) && c !in run[0].calls && n < |run|
    ensures SharedExist(run[0]) && (c !in run[n].calls ==> run[n] == run[0])
    ensures c in run[n].calls ==>
      IsUnderWay(w, c, CachesOf(run[0]), run[n], run[n].calls[c].kind, run[n].calls[c].request)
    decreases n
  {
    hide Inv, Enabled, Apply, IsUnderWay, CollisionFree, SharedExist, CachesOf;
    InvSharedExist(w, run[0]);
    if n > 0 {
      SoloIsUnderWay(w, c, run, n - 1);
      assert SoloNext(w, c, run[n - 1], run[n]);
      var step: Step :| step.call == c && Enabled(w, run[n - 1], step) && run[n] == Apply(w, run[n - 1], step);
      if c in run[n - 1].calls {
        var call := run[n - 1].calls[c];
        StepKeepsCourse(w, c, CachesOf(run[0]), run[n - 1], call.kind, call.request, step);
        UnderWayIsThere(w, c, CachesOf(run[0]), run[n], call.kind, call.request);
      } else {
        SpawnKeepsCourse(w, c, run[0], step);
        UnderWayIsThere(w, c, CachesOf(run[0]), run[n], step.kind, step.request);
      }
    }
  }

  /** A call alone can end like this. */
  ghost predicate CanEnd(w: World, c: nat, m: Machine, kind: Kind, r: Request, after: Caches) {
    exists run: seq<Machine> ::
      && IsSolo(w, c, run) && run[0] == m && c in Last(run).calls && Last(run).calls[c] == Call(kind, r, Ended)
      && SharedExist(Last(run)) && CachesOf(Last(run)) == after
  }

  lemma EndsOnlyInEffect(w: World, c: nat, m: Machine, kind: Kind, r: Request, after: Caches)
    requires CollisionFree(w.hashes) && Inv(w, m) && c !in m.calls && CanEnd(w, c, m, kind, r, after)
    ensures SharedExist(m) && MayEnd(w, kind, r, CachesOf(m), after)
  {
    hide Inv, MayEnd, CollisionFree, SharedExist, CachesOf, SoloNext;
    var run: seq<Machine> :|
      && IsSolo(w, c, run) && run[0] == m && c in Last(run).calls && Last(run).calls[c] == Call(kind, r, Ended)
      && SharedExist(Last(run)) && CachesOf(Last(run)) == after;
    SoloIsUnderWay(w, c, run, |run| - 1);
  }

  lemma UntouchedIsReachable(w: World, c: nat, m: Machine, kind: Kind, r: Request) returns (run: seq<Machine>)
    requires CollisionFree(w.hashes) && Inv(w, m) && SharedExist(m) && c !in m.calls && Admitted(w, r)
    requires kind.PreparePrefix? ==> r.prefix != "" && r.suffix == ""
    ensures Stands(w, c, m, run, kind, r, CachesOf(m), Ended)
  {
    hide Inv, SoloNext, CollisionFree, Goes, CachesOf, SharedExist, Admitted;
    run := Start(w, c, m, kind, r);
    run := GiveUp(w, c, m, run, kind, r, CachesOf(m));
  }

  lemma EffectCanEnd(w: World, c: nat, m: Machine, kind: Kind, r: Request, after: Caches)
    requires CollisionFree(w.hashes) && Inv(w, m) && SharedExist(m) && c !in m.calls && Admitted(w, r)
    requires kind.PreparePrefix? ==> r.prefix != "" && r.suffix == ""
    requires MayEnd(w, kind, r, CachesOf(m), after)
    ensures CanEnd(w, c, m, kind, r, after)
  {
    hide Inv, CollisionFree, CachesOf, SoloNext, Admitted, Effect, SharedExist;
    if after == CachesOf(m) {
      var run := UntouchedIsReachable(w, c, m, kind, r);
      assert Last(run).calls[c] == Call(kind, r, Ended);
    } else {
      var done :| Effect(w, kind, r, CachesOf(m), after, done);
      if kind.Complete? {
        PromptMayFail(w, r, CachesOf(m), after, done);
        var run := EffectIsReachable(w, c, m, kind, r, after, false, []);
        assert Last(run).calls[c] == Call(kind, r, Ended);
      } else {
        var run := EffectIsReachable(w, c, m, kind, r, after, done, []);
        assert Last(run).calls[c] == Call(kind, r, Ended);
      }
    }
  }

  /** From any state, the caches that a call alone can leave when it ends are exactly those of `MayEnd`. */
  lemma EndsExactly(w: World, c: nat, m: Machine, kind: Kind, r: Request, after: Caches)
    requires CollisionFree(w.hashes) && Inv(w, m) && c !in m.calls && Admitted(w, r)
    requires kind.PreparePrefix? ==> r.prefix != "" && r.suffix == ""
    ensures SharedExist(m) && (CanEnd(w, c, m, kind, r, after) <==> MayEnd(w, kind, r, CachesOf(m), after))
  {
    hide Inv, MayEnd, CollisionFree, SharedExist, CachesOf, CanEnd, Admitted;
    InvSharedExist(w, m);
    if CanEnd(w, c, m, kind, r, after) {
      EndsOnlyInEffect(w, c, m, kind, r, after);
    }
    if MayEnd(w, kind, r, CachesOf(m), after) {
      EffectCanEnd(w, c, m, kind, r, after);
    }
  }

  /** And a compression that delivers leaves what a compression that is done leaves. */
  lemma DeliversOnlyWhenDone(w: World, c: nat, run: seq<Machine>)
    requires CollisionFree(w.hashes) && IsSolo(w, c, run) && Inv(w, run[0]) && c !in run[0].calls
    requires c in Last(run).calls && Last(run).calls[c].progress.Delivered?
    ensures SharedExist(run[0]) && SharedExist(Last(run))
    ensures Effect(w, Complete, Last(run).calls[c].request, CachesOf(run[0]), CachesOf(Last(run)), true)
  {
    hide Inv, MayEnd, CollisionFree, SharedExist, CachesOf, SoloNext, InputKeyOf, PromptKeyOf, AfterPrefix;
    SoloIsUnderWay(w, c, run, |run| - 1);
  }
}
