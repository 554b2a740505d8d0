/** The prefix cache, the one-shot input slot and the calls that use them, as a step system in
    which any number of calls interleave (runtime/backend.rs).  A call is cut at every point where
    it takes a lock or runs inference; it may be abandoned (timed out or failed) at any of them. */
module PromptCaches {
  import opened Text
  import opened CacheKeys
  import opened Utf8
  import opened TextOrder
  import S = Session
  import ContextBudget

  const MAX_PREPARED_PROMPT_SESSIONS: nat := 3

  /** The loaded models by key, which ModelRegistry fills, and the hash functions of the cache keys. */
  datatype World = World(models: string -> S.Model, hashes: Hashes)

  /** A request with its embedded prompt.  The prefix is empty when the prompt has none. */
  datatype Request = Request(
    modelKey: string,
    modelContextLength: nat,
    config: Config,
    prefix: string,
    suffix: string,
    maxTokens: nat,
    contextLength: nat
  )

  datatype Kind = PreparePrefix | PrepareInput | Complete

  /** Where a call stands, and the sessions it has: `own` and `clean` are its alone, `shared` is a
      handle to a stored session. */
  datatype Progress =
    | Started
    | SlotMissed
    | Missed
    | Looked(shared: nat)
    | Opened(own: nat)
    | PrefixFed(own: nat)
    | PrefixCopied(own: nat, clean: nat)
    | Warmed(own: nat, clean: nat)
    | PrefixReady(own: nat)
    | Armed(own: nat)
    | Taken(own: nat)
    | PromptReady(own: nat)
    | Generating(own: nat, generated: seq<S.Token>)
    | Broken(own: nat)
    | Delivered(generated: seq<S.Token>)
    | Ended

  datatype Call = Call(kind: Kind, request: Request, progress: Progress)

  /** A session object: its state and the call whose deadline it obeys. */
  datatype Held = Held(state: S.SessionState, signal: Option<nat>)

  /** `frozen` remembers every session that ever entered the prefix cache, `taken` every session
      that was handed out from the input slot. */
  datatype Machine = Machine(
    sessions: map<nat, Held>,
    prepared: map<string, nat>,
    slot: Option<(string, nat)>,
    calls: map<nat, Call>,
    frozen: set<nat>,
    taken: set<nat>,
    nextId: nat
  )

  // ---------- What the uncached path computes ----------

  function ModelOf(w: World, r: Request): S.Model { w.models(r.modelKey) }

  function TokensOf(w: World, r: Request, text: string): seq<S.Token> {
    match ModelOf(w, r).tokenize(text) case Some(tokens) => tokens case None => []
  }

  /** The request got as far as the caches: its texts tokenize and the selector chose its context. */
  predicate Admitted(w: World, r: Request) {
    && ModelOf(w, r).tokenize(r.prefix).Some? && ModelOf(w, r).tokenize(r.suffix).Some?
    && r.modelContextLength <= ContextBudget.U32_MAX && r.maxTokens > 0
    && ContextBudget.SelectContextLength(
         ContextBudget.SaturatingAdd(|TokensOf(w, r, r.prefix)|, |TokensOf(w, r, r.suffix)|),
         r.maxTokens, r.modelContextLength) == Some(r.contextLength)
    && |EncodeText(r.prefix)| < Power256(8)
  }

  function SessionParams(r: Request): S.Params {
    S.Params(r.contextLength, r.config.logical, r.config.physical, r.config.generation, r.config.batch)
  }

  function NewState(w: World, r: Request): S.SessionState { S.Created(ModelOf(w, r), SessionParams(r)) }

  function PrefixState(w: World, r: Request): S.SessionState {
    if r.prefix == "" then NewState(w, r) else S.Advanced(NewState(w, r), TokensOf(w, r, r.prefix))
  }

  /** The session an uncached call generates from: a new one, fed the prefix, then the suffix. */
  function PromptState(w: World, r: Request): S.SessionState {
    S.Advanced(PrefixState(w, r), TokensOf(w, r, r.suffix))
  }

  function PromptKeyOf(w: World, r: Request): string {
    PromptKey(w.hashes, r.modelKey, r.contextLength, r.config, r.prefix)
  }

  function InputKeyOf(w: World, r: Request): string {
    InputKey(w.hashes, r.modelKey, r.contextLength, r.config, r.prefix, r.suffix)
  }

  // ---------- Cache operations ----------

  /** Inserts; a full cache first drops its first key in key order. */
  ghost function StorePrepared<T>(prepared: map<string, T>, key: string, value: T): (r: map<string, T>)
    ensures key in r && r[key] == value
    ensures |prepared| <= MAX_PREPARED_PROMPT_SESSIONS ==> |r| <= MAX_PREPARED_PROMPT_SESSIONS
    ensures forall k :: k in r && k != key ==> k in prepared && r[k] == prepared[k]
    ensures forall k :: k in prepared && k !in r ==>
      |prepared| >= MAX_PREPARED_PROMPT_SESSIONS && key !in prepared && k == LeastKey(prepared.Keys)
  {
    var kept :=
      if key !in prepared && |prepared| >= MAX_PREPARED_PROMPT_SESSIONS then
        var oldest := LeastKey(prepared.Keys);
        assert (prepared - {oldest}).Keys == prepared.Keys - {oldest};
        prepared - {oldest}
      else prepared;
    assert kept[key := value].Keys == kept.Keys + {key};
    kept[key := value]
  }

  /** The slot after the call and the session handed out, if the key is the stored one. */
  function TakeMatching<T>(slot: Option<(string, T)>, key: string): (r: (Option<(string, T)>, Option<T>))
    ensures r.1.Some? <==> slot.Some? && slot.value.0 == key
    ensures r.1.Some? ==> r.0 == None && r.1.value == slot.value.1
    ensures r.1.None? ==> r.0 == slot
  {
    if slot.Some? && slot.value.0 == key then (None, Some(slot.value.1)) else (slot, None)
  }

  /** What successive takes with the given keys get, when nothing is stored in between. */
  function TakeAll<T>(slot: Option<(string, T)>, keys: seq<string>): (found: seq<Option<T>>)
    ensures |found| == |keys|
    decreases |keys|
  {
    if keys == [] then []
    else
      var (rest, first) := TakeMatching(slot, keys[0]);
      [first] + TakeAll(rest, keys[1..])
  }

  /** However often and by whomever the slot is asked, its session goes to the first caller with its
      exact key and to nobody else. */
  lemma {:induction false} OnlyFirstTakerGetsIt<T>(slot: Option<(string, T)>, keys: seq<string>, i: nat)
    requires i < |keys|
    ensures TakeAll(slot, keys)[i] ==
      if slot.Some? && keys[i] == slot.value.0 && slot.value.0 !in keys[..i] then Some(slot.value.1) else None
    decreases |keys|
  {
    var (rest, first) := TakeMatching(slot, keys[0]);
    if i > 0 {
      OnlyFirstTakerGetsIt(rest, keys[1..], i - 1);
      assert keys[..i] == [keys[0]] + keys[1..][..i - 1];
    }
  }

  lemma LeastKeyGoes<T>(prepared: map<string, T>, key: string, value: T)
    requires |prepared| >= MAX_PREPARED_PROMPT_SESSIONS && key !in prepared
    ensures StorePrepared(prepared, key, value).Keys == prepared.Keys - {LeastKey(prepared.Keys)} + {key}
  {
    hide LeastKey;
  }

  /** The cache after `a`, `b` and `c` were stored in this order. */
  ghost function StoredInOrder<T>(a: string, b: string, c: string, value: T): (r: map<string, T>)
    ensures r.Keys == {a, b, c}
  {
    assert |{a, b}| <= 2;
    assert map[a := value].Keys == {a} && map[a := value, b := value].Keys == {a, b};
    map[a := value, b := value, c := value]
  }

  lemma StoringInOrder<T>(a: string, b: string, c: string, value: T)
    ensures StorePrepared(StorePrepared(StorePrepared(map[], a, value), b, value), c, value) ==
      StoredInOrder(a, b, c, value)
  {
    var one := map[a := value];
    var two := one[b := value];
    assert one.Keys == {a} && two.Keys == {a, b} && |two| == |two.Keys| <= 2;
    assert StorePrepared(map[], a, value) == one;
    assert StorePrepared(one, b, value) == two;
  }

  /** Of three entries, whatever the order in which they were stored, the next new key evicts the one whose key
      comes first; so the oldest goes if and only if its key comes first. */
  lemma EvictionIsByKey<T>(a: string, b: string, c: string, next: string, value: T)
    requires a != b && b != c && a != c && next !in {a, b, c}
    ensures
      var full := StorePrepared(StorePrepared(StorePrepared(map[], a, value), b, value), c, value);
      var after := StorePrepared(full, next, value);
      && after.Keys == {a, b, c} - {LeastKey({a, b, c})} + {next}
      && (a !in after <==> a == LeastKey({a, b, c}))
  {
    hide LeastKey, StorePrepared;
    StoringInOrder(a, b, c, value);
    var full := StoredInOrder(a, b, c, value);
    assert |full| == |full.Keys| == 3;
    LeastKeyGoes(full, next, value);
  }

  /** For one: of "b", "a" and "c", stored in this order, the younger "a" has to go. */
  lemma YoungerEntryIsEvicted()
    ensures
      var full := StorePrepared(StorePrepared(StorePrepared(map[], "b", 1), "a", 1), "c", 1);
      var after := StorePrepared(full, "d", 1);
      "b" in after && "a" !in after
  {
    hide LeastKey, StorePrepared;
    EvictionIsByKey("b", "a", "c", "d", 1);
    LeastOfThree();
  }

  lemma LeastOfThree()
    ensures LeastKey({"b", "a", "c"}) == "a"
  {
    hide LeastKey;
    assert IsFirst("a", {"b", "a", "c"});
    FirstIsUnique("a", LeastKey({"b", "a", "c"}), {"b", "a", "c"});
  }

  // ---------- Steps ----------

  /** A failed decode leaves the session in the given unusable state. */
  datatype Outcome = Success | DecodeFailed(spoiled: S.SessionState)

  datatype Step =
    | Spawn(call: nat, kind: Kind, request: Request)
    | Check(call: nat)
    | Lookup(call: nat)
    | Open(call: nat)
    | FeedPrefix(call: nat, outcome: Outcome)
    | CopyPrefix(call: nat)
    | WarmUp(call: nat, outcome: Outcome)
    | Store(call: nat)
    | Arm(call: nat)
    | FeedSuffix(call: nat, outcome: Outcome)
    | StoreInput(call: nat)
    | Begin(call: nat)
    | Generate(call: nat, outcome: Outcome)
    | Finish(call: nat)
    | Abandon(call: nat)

  ghost predicate Possible(before: S.SessionState, outcome: Outcome) {
    outcome.DecodeFailed? ==> S.Spoiled(before, outcome.spoiled)
  }

  function NextToken(s: S.SessionState): S.Token { s.model.next(s.tokens) }

  /** Nothing but an end of sequence or a conversion error keeps the next token from being decoded. */
  predicate CanContinue(s: S.SessionState) {
    !s.model.isStop(NextToken(s)) && s.model.piece(NextToken(s)).Some?
  }

  ghost predicate Enabled(w: World, m: Machine, step: Step) {
    if step.Spawn? then
      && step.call !in m.calls && Admitted(w, step.request)
      && (step.kind.PreparePrefix? ==> step.request.prefix != "" && step.request.suffix == "")
    else
      step.call in m.calls &&
      var call := m.calls[step.call];
      var p := call.progress;
      (Own(p) <= m.sessions.Keys) &&
      match step
      case Check(_) => p.Started?
      case Lookup(_) => p.SlotMissed?
      case Open(_) => p.Missed?
      case FeedPrefix(_, outcome) => p.Opened? && Possible(m.sessions[p.own].state, outcome)
      case CopyPrefix(_) => (p.Looked? && p.shared in m.sessions) || p.PrefixFed?
      case WarmUp(_, outcome) =>
        call.kind.PreparePrefix? && p.PrefixCopied? && Possible(m.sessions[p.own].state, outcome)
      case Store(_) => HasCopy(m, step.call)
      case Arm(_) => p.PrefixReady? || p.Taken?
      case FeedSuffix(_, outcome) => p.Armed? && Possible(m.sessions[p.own].state, outcome)
      case StoreInput(_) => call.kind.PrepareInput? && p.PromptReady?
      case Begin(_) => call.kind.Complete? && p.PromptReady? && m.sessions[p.own].state.tokens != []
      case Generate(_, outcome) =>
        && p.Generating? && |p.generated| < call.request.maxTokens
        && CanContinue(m.sessions[p.own].state) && Possible(m.sessions[p.own].state, outcome)
      case Finish(_) => p.Generating?
      case Abandon(_) => !p.Ended? && !p.Delivered?
  }

  function Own(p: Progress): set<nat> {
    match p
    case Opened(own) => {own}
    case PrefixFed(own) => {own}
    case PrefixCopied(own, clean) => {own, clean}
    case Warmed(own, clean) => {own, clean}
    case PrefixReady(own) => {own}
    case Armed(own) => {own}
    case Taken(own) => {own}
    case PromptReady(own) => {own}
    case Generating(own, _) => {own}
    case Broken(own) => {own}
    case _ => {}
  }

  function At(m: Machine, c: nat, p: Progress): Machine
    requires c in m.calls
  {
    m.(calls := m.calls[c := m.calls[c].(progress := p)])
  }

  function Put(m: Machine, id: nat, held: Held): Machine { m.(sessions := m.sessions[id := held]) }

  function Add(m: Machine, held: Held): Machine { Put(m, m.nextId, held).(nextId := m.nextId + 1) }

  function Deliver(m: Machine, id: nat, s: S.SessionState): Machine
    requires id in m.sessions
  {
    Put(m, id, m.sessions[id].(state := s))
  }

  /** Feeds tokens to a call's session: on failure the call can only be abandoned. */
  function Feed(m: Machine, c: nat, id: nat, tokens: seq<S.Token>, outcome: Outcome, p: Progress): Machine
    requires c in m.calls && id in m.sessions
  {
    match outcome
    case Success => At(Deliver(m, id, S.Advanced(m.sessions[id].state, tokens)), c, p)
    case DecodeFailed(spoiled) => At(Deliver(m, id, spoiled), c, Broken(id))
  }

  ghost function CheckStep(w: World, m: Machine, c: nat): Machine
    requires c in m.calls
  {
    var call := m.calls[c];
    var key := InputKeyOf(w, call.request);
    match call.kind
    case PreparePrefix =>
      At(m, c, if PromptKeyOf(w, call.request) in m.prepared then Ended else Missed)
    case PrepareInput =>
      At(m, c, if m.slot.Some? && m.slot.value.0 == key then Ended else SlotMissed)
    case Complete =>
      var (slot, found) := TakeMatching(m.slot, key);
      if found.Some? then At(m.(slot := slot, taken := m.taken + {found.value}), c, Taken(found.value))
      else At(m, c, SlotMissed)
  }

  predicate HasCopy(m: Machine, c: nat) {
    && c in m.calls
    && if m.calls[c].kind.PreparePrefix? then m.calls[c].progress.Warmed? else m.calls[c].progress.PrefixCopied?
  }

  ghost function StoreStep(w: World, m: Machine, c: nat): Machine
    requires HasCopy(m, c)
  {
    var call := m.calls[c];
    var clean := call.progress.clean;
    var stored := m.(prepared := StorePrepared(m.prepared, PromptKeyOf(w, call.request), clean),
                       frozen := m.frozen + {clean});
    At(stored, c, if call.kind.PreparePrefix? then Ended else PrefixReady(call.progress.own))
  }

  ghost function Apply(w: World, m: Machine, step: Step): Machine
    requires Enabled(w, m, step)
  {
    if step.Spawn? then m.(calls := m.calls[step.call := Call(step.kind, step.request, Started)])
    else
      var c := step.call;
      var call := m.calls[c];
      var r := call.request;
      var p := call.progress;
      match step
      case Check(_) => CheckStep(w, m, c)
      case Lookup(_) =>
        var key := PromptKeyOf(w, r);
        At(m, c, if r.prefix != "" && key in m.prepared then Looked(m.prepared[key]) else Missed)
      case Open(_) =>
        if r.prefix == "" then At(Add(m, Held(NewState(w, r), None)), c, PrefixReady(m.nextId))
        else At(Add(m, Held(NewState(w, r), Some(c))), c, Opened(m.nextId))
      case FeedPrefix(_, outcome) => Feed(m, c, p.own, TokensOf(w, r, r.prefix), outcome, PrefixFed(p.own))
      case CopyPrefix(_) =>
        if p.Looked? then
          At(Add(m, Held(m.sessions[p.shared].state, None)), c, PrefixReady(m.nextId))
        else
          At(Add(m, Held(m.sessions[p.own].state, None)), c, PrefixCopied(p.own, m.nextId))
      case WarmUp(_, outcome) =>
        var s := m.sessions[p.own].state;
        if CanContinue(s) then Feed(m, c, p.own, [NextToken(s)], outcome, Warmed(p.own, p.clean))
        else At(m, c, Warmed(p.own, p.clean))
      case Store(_) => StoreStep(w, m, c)
      case Arm(_) =>
        var armed := Put(m, p.own, m.sessions[p.own].(signal := Some(c)));
        At(armed, c, if p.Taken? then PromptReady(p.own) else Armed(p.own))
      case FeedSuffix(_, outcome) => Feed(m, c, p.own, TokensOf(w, r, r.suffix), outcome, PromptReady(p.own))
      case StoreInput(_) => At(m.(slot := Some((InputKeyOf(w, r), p.own))), c, Ended)
      case Begin(_) => At(m, c, Generating(p.own, []))
      case Generate(_, outcome) =>
        var token := NextToken(m.sessions[p.own].state);
        Feed(m, c, p.own, [token], outcome, Generating(p.own, p.generated + [token]))
      case Finish(_) => At(m, c, Delivered(p.generated))
      case Abandon(_) => At(m, c, Ended)
  }

  const INITIAL: Machine := Machine(map[], map[], None, map[], {}, {}, 0)

  /** One step, or none for this part of the system. */
  ghost predicate Next(w: World, m: Machine, m': Machine) {
    m' == m || exists step :: Enabled(w, m, step) && m' == Apply(w, m, step)
  }

  /** A finite run of any interleaving. */
  ghost predicate IsRun(w: World, run: seq<Machine>) {
    && run != [] && run[0] == INITIAL
    && forall i :: 0 <= i < |run| - 1 ==> Next(w, run[i], run[i + 1])
  }

  // ---------- Invariant ----------

  ghost predicate Holds(w: World, m: Machine, id: nat, s: S.SessionState) {
    id in m.sessions && m.sessions[id].state == s
  }

  ghost predicate Obeys(m: Machine, id: nat, c: nat) {
    id in m.sessions && m.sessions[id].signal == Some(c)
  }

  ghost predicate CallInv(w: World, m: Machine, c: nat, call: Call) {
    var r := call.request;
    Admitted(w, r) &&
    match call.progress
    case Looked(shared) => r.prefix != "" && shared in m.frozen && Holds(w, m, shared, PrefixState(w, r))
    case Opened(own) => r.prefix != "" && Holds(w, m, own, NewState(w, r))
    case PrefixFed(own) => r.prefix != "" && Holds(w, m, own, PrefixState(w, r))
    case PrefixCopied(own, clean) =>
      own != clean && r.prefix != "" && Holds(w, m, own, PrefixState(w, r)) && Holds(w, m, clean, PrefixState(w, r))
    case Warmed(own, clean) =>
      own != clean && r.prefix != "" && own in m.sessions && Holds(w, m, clean, PrefixState(w, r))
    case PrefixReady(own) => Holds(w, m, own, PrefixState(w, r))
    case Armed(own) => Holds(w, m, own, PrefixState(w, r)) && Obeys(m, own, c)
    case Taken(own) => call.kind.Complete? && Holds(w, m, own, PromptState(w, r))
    case PromptReady(own) => Holds(w, m, own, PromptState(w, r)) && Obeys(m, own, c)
    case Generating(own, generated) =>
      && Holds(w, m, own, S.Generated(PromptState(w, r), generated)) && Obeys(m, own, c)
      && GeneratesFor(w, r, generated)
    case Broken(own) => own in m.sessions
    case Delivered(generated) => GeneratesFor(w, r, generated)
    case _ => true
  }

  ghost predicate GeneratesFor(w: World, r: Request, generated: seq<S.Token>) {
    && PromptState(w, r).tokens != []
    && S.IsGreedy(ModelOf(w, r), PromptState(w, r).tokens, generated)
    && |generated| <= r.maxTokens
  }

  ghost predicate CallsInv(w: World, m: Machine) {
    && (forall c :: c in m.calls ==>
          && CallInv(w, m, c, m.calls[c])
          && Own(m.calls[c].progress) !! m.frozen
          && (!m.calls[c].kind.Complete? ==> Own(m.calls[c].progress) !! m.taken))
    && (forall c, d :: c in m.calls && d in m.calls && c != d ==>
          Own(m.calls[c].progress) !! Own(m.calls[d].progress))
  }

  ghost predicate PreparedInv(w: World, m: Machine) {
    && |m.prepared| <= MAX_PREPARED_PROMPT_SESSIONS
    && m.frozen <= m.sessions.Keys
    && (forall id :: id in m.frozen ==> S.Ready(m.sessions[id].state))
    && (forall k :: k in m.prepared ==> m.prepared[k] in m.frozen)
    && (forall r :: Admitted(w, r) && r.prefix != "" && PromptKeyOf(w, r) in m.prepared ==>
          Holds(w, m, m.prepared[PromptKeyOf(w, r)], PrefixState(w, r)))
  }

  ghost predicate SlotInv(w: World, m: Machine) {
    m.slot.Some? ==>
      var (key, id) := m.slot.value;
      && id in m.sessions && id !in m.frozen && id !in m.taken && S.Ready(m.sessions[id].state)
      && (forall c :: c in m.calls ==> id !in Own(m.calls[c].progress))
      && (forall r :: Admitted(w, r) && InputKeyOf(w, r) == key ==> Holds(w, m, id, PromptState(w, r)))
  }

  ghost predicate Inv(w: World, m: Machine) {
    && (forall id :: id in m.sessions ==> id < m.nextId)
    && m.taken <= m.sessions.Keys
    && CallsInv(w, m) && PreparedInv(w, m) && SlotInv(w, m)
  }

  lemma OwnedExist(w: World, m: Machine, c: nat)
    requires Inv(w, m) && c in m.calls
    ensures Own(m.calls[c].progress) <= m.sessions.Keys
  {
    hide Admitted, PrefixState, PromptState, NewState, PromptKeyOf, InputKeyOf, GeneratesFor, S.Ready;
    var p := m.calls[c].progress;
    assert CallInv(w, m, c, m.calls[c]);
  }

  /** `m'` differs from `m` only in where call `c` stands and in sessions that `c` alone has. */
  ghost predicate IsLocal(m: Machine, m': Machine, c: nat) {
    && c in m.calls && m'.calls.Keys == m.calls.Keys
    && (forall d :: d in m.calls && d != c ==> m'.calls[d] == m.calls[d])
    && m'.calls[c].kind == m.calls[c].kind && m'.calls[c].request == m.calls[c].request
    && m'.prepared == m.prepared && m'.slot == m.slot && m'.frozen == m.frozen && m'.taken == m.taken
    && m.nextId <= m'.nextId
    && m.sessions.Keys <= m'.sessions.Keys
    && (forall id :: id in m'.sessions ==> id < m'.nextId)
    && (forall id :: id in m.sessions && id !in Own(m.calls[c].progress) ==> m'.sessions[id] == m.sessions[id])
    && (forall id :: id in Own(m'.calls[c].progress) && id !in Own(m.calls[c].progress) ==> id == m.nextId)
  }

  lemma CallInvFrame(w: World, m: Machine, m': Machine, c: nat, call: Call)
    requires CallInv(w, m, c, call)
    requires m.frozen <= m'.frozen
    requires forall id :: id in m.sessions && (id in Own(call.progress) || id in m.frozen) ==>
      id in m'.sessions && m'.sessions[id] == m.sessions[id]
    ensures CallInv(w, m', c, call)
  {
    hide Admitted, PrefixState, PromptState, NewState, PromptKeyOf, InputKeyOf, GeneratesFor, S.Ready;
  }

  lemma LocalKeepsOthers(w: World, m: Machine, m': Machine, c: nat, d: nat)
    requires Inv(w, m) && IsLocal(m, m', c) && d in m.calls && d != c
    ensures CallInv(w, m', d, m'.calls[d])
    ensures Own(m'.calls[c].progress) !! Own(m'.calls[d].progress)
  {
    hide CallInv, PreparedInv, SlotInv;
    OwnedExist(w, m, d);
    assert Own(m.calls[c].progress) !! Own(m.calls[d].progress);
    assert m.nextId !in m.sessions;
    CallInvFrame(w, m, m', d, m.calls[d]) by {
      assert m.frozen <= m.sessions.Keys && Own(m.calls[c].progress) !! m.frozen by {
        FrozenExist(w, m);
      }
    }
  }

  lemma FrozenExist(w: World, m: Machine)
    requires Inv(w, m)
    ensures m.frozen <= m.sessions.Keys
  {
    hide CallsInv, SlotInv;
  }

  lemma LocalKeepsCalls(w: World, m: Machine, m': Machine, c: nat)
    requires Inv(w, m) && IsLocal(m, m', c) && CallInv(w, m', c, m'.calls[c])
    ensures CallsInv(w, m')
  {
    hide CallInv, PreparedInv, SlotInv, Own;
    forall d | d in m.calls && d != c
      ensures CallInv(w, m', d, m'.calls[d]) && Own(m'.calls[c].progress) !! Own(m'.calls[d].progress)
    {
      LocalKeepsOthers(w, m, m', c, d);
    }
    FrozenExist(w, m);
    assert m.nextId !in m.sessions;
  }

  lemma LocalKeepsPrepared(w: World, m: Machine, m': Machine, c: nat)
    requires Inv(w, m) && IsLocal(m, m', c)
    ensures PreparedInv(w, m')
  {
    hide Admitted, PrefixState, PromptState, NewState, PromptKeyOf, InputKeyOf, GeneratesFor, S.Ready;
    forall r | Admitted(w, r) && r.prefix != "" && PromptKeyOf(w, r) in m'.prepared
      ensures Holds(w, m', m'.prepared[PromptKeyOf(w, r)], PrefixState(w, r))
    {
      assert Holds(w, m, m.prepared[PromptKeyOf(w, r)], PrefixState(w, r));
    }
  }

  lemma LocalKeepsSlot(w: World, m: Machine, m': Machine, c: nat)
    requires Inv(w, m) && IsLocal(m, m', c)
    ensures SlotInv(w, m')
  {
    hide Admitted, PrefixState, PromptState, NewState, PromptKeyOf, InputKeyOf, GeneratesFor, S.Ready;
    if m.slot.Some? {
      var (key, id) := m.slot.value;
      forall r | Admitted(w, r) && InputKeyOf(w, r) == key ensures Holds(w, m', id, PromptState(w, r)) {
        assert Holds(w, m, id, PromptState(w, r));
      }
    }
  }

  lemma LocalKeepsInv(w: World, m: Machine, m': Machine, c: nat)
    requires Inv(w, m) && IsLocal(m, m', c) && CallInv(w, m', c, m'.calls[c])
    ensures Inv(w, m')
  {
    hide CallInv, CallsInv, PreparedInv, SlotInv;
    LocalKeepsCalls(w, m, m', c);
    LocalKeepsPrepared(w, m, m', c);
    LocalKeepsSlot(w, m, m', c);
  }

  lemma SameKeySamePrefix(w: World, r: Request, q: Request)
    requires CollisionFree(w.hashes) && PromptKeyOf(w, r) == PromptKeyOf(w, q)
    ensures (r.prefix != "" <==> q.prefix != "") && PrefixState(w, r) == PrefixState(w, q)
  {
    PromptKeyInjective(w.hashes, r.modelKey, r.contextLength, r.config, r.prefix,
      q.modelKey, q.contextLength, q.config, q.prefix);
  }

  lemma SameKeySamePrompt(w: World, r: Request, q: Request)
    requires CollisionFree(w.hashes) && Admitted(w, r) && Admitted(w, q) && InputKeyOf(w, r) == InputKeyOf(w, q)
    ensures PromptState(w, r) == PromptState(w, q)
  {
    InputKeyInjective(w.hashes, r.modelKey, r.contextLength, r.config, r.prefix, r.suffix,
      q.modelKey, q.contextLength, q.config, q.prefix, q.suffix);
  }

  /** What storing changes, without the cache itself. */
  lemma StoreChanges(w: World, m: Machine, c: nat)
    requires HasCopy(m, c)
    ensures var m' := StoreStep(w, m, c);
      && m'.sessions == m.sessions && m'.taken == m.taken && m'.slot == m.slot && m'.nextId == m.nextId
      && m'.frozen == m.frozen + {m.calls[c].progress.clean}
      && m'.calls.Keys == m.calls.Keys && (forall d :: d in m.calls && d != c ==> m'.calls[d] == m.calls[d])
      && m'.calls[c].kind == m.calls[c].kind && m'.calls[c].request == m.calls[c].request
      && Own(m'.calls[c].progress) == Own(m'.calls[c].progress) * Own(m.calls[c].progress)
  {
    hide PromptKeyOf, StorePrepared;
  }

  lemma StorerKeepsCall(w: World, m: Machine, c: nat)
    requires HasCopy(m, c) && CallInv(w, m, c, m.calls[c])
    ensures CallInv(w, StoreStep(w, m, c), c, StoreStep(w, m, c).calls[c])
    ensures m.calls[c].progress.clean in Own(m.calls[c].progress)
    ensures m.calls[c].progress.clean !in Own(StoreStep(w, m, c).calls[c].progress)
  {
    hide Admitted, PrefixState, PromptKeyOf, StorePrepared;
  }

  lemma StoreKeepsCalls(w: World, m: Machine, c: nat)
    requires CallsInv(w, m) && HasCopy(m, c)
    ensures CallsInv(w, StoreStep(w, m, c))
  {
    hide PromptKeyOf, CallInv, StorePrepared, StoreStep, Own;
    var m' := StoreStep(w, m, c);
    StoreChanges(w, m, c);
    assert CallInv(w, m, c, m.calls[c]);
    StorerKeepsCall(w, m, c);
    forall d | d in m.calls && d != c
      ensures CallInv(w, m', d, m'.calls[d]) && Own(m'.calls[d].progress) !! m'.frozen
      ensures Own(m'.calls[d].progress) !! Own(m'.calls[c].progress)
    {
      assert Own(m.calls[c].progress) !! Own(m.calls[d].progress);
      CallInvFrame(w, m, m', d, m.calls[d]);
    }
  }

  lemma StoreKeepsPrepared(w: World, m: Machine, c: nat)
    requires CollisionFree(w.hashes) && CallsInv(w, m) && PreparedInv(w, m) && HasCopy(m, c)
    ensures PreparedInv(w, StoreStep(w, m, c))
  {
    hide Admitted, PrefixState, PromptState, NewState, PromptKeyOf, InputKeyOf, GeneratesFor, S.Ready;
    var m' := StoreStep(w, m, c);
    var r := m.calls[c].request;
    assert CallInv(w, m, c, m.calls[c]);
    PromptStateIsReady(w, r);
    forall q | Admitted(w, q) && q.prefix != "" && PromptKeyOf(w, q) in m'.prepared
      ensures Holds(w, m', m'.prepared[PromptKeyOf(w, q)], PrefixState(w, q))
    {
      if PromptKeyOf(w, q) == PromptKeyOf(w, r) {
        SameKeySamePrefix(w, r, q);
      } else {
        assert Holds(w, m, m.prepared[PromptKeyOf(w, q)], PrefixState(w, q));
      }
    }
  }

  lemma StoreKeepsSlot(w: World, m: Machine, c: nat)
    requires CallsInv(w, m) && SlotInv(w, m) && HasCopy(m, c)
    ensures SlotInv(w, StoreStep(w, m, c))
  {
    hide CallInv, Admitted, PromptState, PromptKeyOf, InputKeyOf, StorePrepared, S.Ready;
    assert m.calls[c].progress.clean in Own(m.calls[c].progress);
    SlotFrame(w, m, StoreStep(w, m, c));
  }

  lemma StoreKeepsInv(w: World, m: Machine, c: nat)
    requires CollisionFree(w.hashes) && Inv(w, m) && HasCopy(m, c)
    ensures Inv(w, StoreStep(w, m, c))
  {
    hide CallsInv, PreparedInv, SlotInv, PromptKeyOf, StorePrepared;
    StoreKeepsCalls(w, m, c);
    StoreKeepsPrepared(w, m, c);
    StoreKeepsSlot(w, m, c);
  }

  lemma SlotFrame(w: World, m: Machine, m': Machine)
    requires SlotInv(w, m) && m'.slot == m.slot && m'.sessions == m.sessions
    requires m.slot.Some? ==>
      && m.slot.value.1 !in m'.frozen && m.slot.value.1 !in m'.taken
      && forall c :: c in m'.calls ==> m.slot.value.1 !in Own(m'.calls[c].progress)
    ensures SlotInv(w, m')
  {
    hide Admitted, PrefixState, PromptState, NewState, PromptKeyOf, InputKeyOf, GeneratesFor, S.Ready;
    if m.slot.Some? {
      var (key, id) := m.slot.value;
      forall r | Admitted(w, r) && InputKeyOf(w, r) == key ensures Holds(w, m', id, PromptState(w, r)) {
        assert Holds(w, m, id, PromptState(w, r));
      }
    }
  }

  lemma PreparedFrame(w: World, m: Machine, m': Machine)
    requires PreparedInv(w, m) && m'.prepared == m.prepared && m'.frozen == m.frozen && m'.sessions == m.sessions
    ensures PreparedInv(w, m')
  {
    hide Admitted, PrefixState, PromptState, NewState, PromptKeyOf, InputKeyOf, GeneratesFor, S.Ready;
    forall r | Admitted(w, r) && r.prefix != "" && PromptKeyOf(w, r) in m'.prepared
      ensures Holds(w, m', m'.prepared[PromptKeyOf(w, r)], PrefixState(w, r))
    {
      assert Holds(w, m, m.prepared[PromptKeyOf(w, r)], PrefixState(w, r));
    }
  }

  lemma EndedCallHolds(w: World, m: Machine, c: nat, call: Call)
    requires CallInv(w, m, c, call)
    ensures CallInv(w, m, c, call.(progress := Ended)) && Own(Ended) == {}
  {
    hide Admitted, PrefixState, PromptState, NewState, GeneratesFor;
  }

  lemma EndingKeepsCalls(w: World, m: Machine, m': Machine, c: nat)
    requires CallsInv(w, m) && c in m.calls && m'.calls == At(m, c, Ended).calls
    requires m'.sessions == m.sessions && m'.frozen == m.frozen && m'.taken == m.taken
    ensures CallsInv(w, m')
  {
    hide CallInv, Own;
    assert CallInv(w, m, c, m.calls[c]);
    EndedCallHolds(w, m, c, m.calls[c]);
    forall d | d in m.calls ensures CallInv(w, m', d, m'.calls[d]) {
      CallInvFrame(w, m, m', d, m'.calls[d]);
    }
  }

  lemma StoreInputKeepsCalls(w: World, m: Machine, c: nat)
    requires CallsInv(w, m) && Enabled(w, m, StoreInput(c))
    ensures CallsInv(w, Apply(w, m, StoreInput(c)))
  {
    hide CallsInv, InputKeyOf;
    EndingKeepsCalls(w, m, Apply(w, m, StoreInput(c)), c);
  }

  lemma StoreInputKeepsSlot(w: World, m: Machine, c: nat)
    requires CollisionFree(w.hashes) && CallsInv(w, m) && Enabled(w, m, StoreInput(c))
    ensures SlotInv(w, Apply(w, m, StoreInput(c)))
  {
    hide InputKeyOf, PromptState, PrefixState, Admitted, S.Ready;
    var m' := Apply(w, m, StoreInput(c));
    var call := m.calls[c];
    var r, own := call.request, call.progress.own;
    assert CallInv(w, m, c, call);
    assert own in Own(call.progress);
    PromptStateIsReady(w, r);
    forall d | d in m.calls ensures own !in Own(m'.calls[d].progress) {
      assert d != c ==> Own(call.progress) !! Own(m.calls[d].progress);
    }
    forall q | Admitted(w, q) && InputKeyOf(w, q) == InputKeyOf(w, r)
      ensures Holds(w, m', own, PromptState(w, q))
    {
      SameKeySamePrompt(w, r, q);
    }
  }

  lemma StoreInputKeepsInv(w: World, m: Machine, c: nat)
    requires CollisionFree(w.hashes) && Inv(w, m) && Enabled(w, m, StoreInput(c))
    ensures Inv(w, Apply(w, m, StoreInput(c)))
  {
    hide CallsInv, PreparedInv, SlotInv, InputKeyOf;
    StoreInputKeepsCalls(w, m, c);
    StoreInputKeepsSlot(w, m, c);
    PreparedFrame(w, m, Apply(w, m, StoreInput(c)));
  }

  lemma TakerHolds(w: World, m: Machine, c: nat)
    requires c in m.calls && m.calls[c].kind.Complete?
    requires m.slot.Some? && m.slot.value.0 == InputKeyOf(w, m.calls[c].request)
    requires Inv(w, m) && Enabled(w, m, Check(c))
    ensures var m' := CheckStep(w, m, c);
      c in m'.calls && CallInv(w, m', c, m'.calls[c]) && Own(m'.calls[c].progress) == {m.slot.value.1}
  {
    hide Admitted, PrefixState, PromptState, NewState, PromptKeyOf, InputKeyOf, GeneratesFor, PreparedInv;
    assert CallInv(w, m, c, m.calls[c]);
    assert Holds(w, m, m.slot.value.1, PromptState(w, m.calls[c].request));
  }

  lemma TakeKeepsCalls(w: World, m: Machine, c: nat)
    requires Inv(w, m) && Enabled(w, m, Check(c))
    requires m.calls[c].kind.Complete? && m.slot.Some? && m.slot.value.0 == InputKeyOf(w, m.calls[c].request)
    ensures CallsInv(w, CheckStep(w, m, c))
  {
    hide CallInv, InputKeyOf, PromptKeyOf, Admitted, PromptState, S.Ready, PreparedInv, Own;
    var m' := CheckStep(w, m, c);
    TakerHolds(w, m, c);
    forall d | d in m.calls && d != c ensures CallInv(w, m', d, m'.calls[d]) {
      CallInvFrame(w, m, m', d, m.calls[d]);
    }
  }

  lemma MissIsLocal(w: World, m: Machine, c: nat)
    requires Enabled(w, m, Check(c))
    requires forall id :: id in m.sessions ==> id < m.nextId
    requires !(m.calls[c].kind.Complete? && m.slot.Some? && m.slot.value.0 == InputKeyOf(w, m.calls[c].request))
    ensures IsLocal(m, CheckStep(w, m, c), c)
    ensures CallInv(w, m, c, m.calls[c]) ==> CallInv(w, CheckStep(w, m, c), c, CheckStep(w, m, c).calls[c])
  {
    hide Admitted, PrefixState, PromptState, NewState, PromptKeyOf, InputKeyOf, GeneratesFor, S.Ready;
  }

  lemma CheckKeepsInv(w: World, m: Machine, c: nat)
    requires Inv(w, m) && Enabled(w, m, Check(c))
    ensures Inv(w, Apply(w, m, Check(c)))
  {
    hide CallInv, Admitted, PromptState, PrefixState, PromptKeyOf, InputKeyOf, PreparedInv, IsLocal;
    if m.calls[c].kind.Complete? && m.slot.Some? && m.slot.value.0 == InputKeyOf(w, m.calls[c].request) {
      TakeKeepsCalls(w, m, c);
      PreparedFrame(w, m, CheckStep(w, m, c));
    } else {
      MissIsLocal(w, m, c);
      LocalKeepsInv(w, m, CheckStep(w, m, c), c);
    }
  }

  lemma LookupIsLocal(w: World, m: Machine, c: nat)
    requires Enabled(w, m, Lookup(c)) && forall id :: id in m.sessions ==> id < m.nextId
    ensures IsLocal(m, Apply(w, m, Lookup(c)), c)
  {
    hide Admitted, PrefixState, PromptState, NewState, PromptKeyOf, InputKeyOf;
  }

  lemma LookupKeepsCall(w: World, m: Machine, c: nat)
    requires Enabled(w, m, Lookup(c)) && CallInv(w, m, c, m.calls[c]) && PreparedInv(w, m)
    ensures CallInv(w, Apply(w, m, Lookup(c)), c, Apply(w, m, Lookup(c)).calls[c])
  {
    hide Admitted, PrefixState, PromptState, NewState, PromptKeyOf, InputKeyOf, GeneratesFor, S.Ready;
    var r := m.calls[c].request;
    if r.prefix != "" && PromptKeyOf(w, r) in m.prepared {
      assert Holds(w, m, m.prepared[PromptKeyOf(w, r)], PrefixState(w, r));
    }
  }

  lemma LookupKeepsInv(w: World, m: Machine, c: nat)
    requires Inv(w, m) && Enabled(w, m, Lookup(c))
    ensures Inv(w, Apply(w, m, Lookup(c)))
  {
    hide CallInv, Enabled, Apply, PreparedInv, SlotInv, IsLocal;
    LookupIsLocal(w, m, c);
    assert c in m.calls && CallInv(w, m, c, m.calls[c]) by {
      LookupHasCall(w, m, c);
    }
    LookupKeepsCall(w, m, c);
    LocalKeepsInv(w, m, Apply(w, m, Lookup(c)), c);
  }

  lemma LookupHasCall(w: World, m: Machine, c: nat)
    requires Enabled(w, m, Lookup(c))
    ensures c in m.calls
  {
  }

  predicate IsOwnStep(step: Step) {
    || step.Open? || step.FeedPrefix? || step.CopyPrefix? || step.WarmUp? || step.Arm? || step.FeedSuffix?
    || step.Begin? || step.Generate? || step.Finish? || step.Abandon?
  }

  lemma AddIsLocal(m: Machine, c: nat, held: Held, p: Progress)
    requires c in m.calls
    requires forall id :: id in m.sessions ==> id < m.nextId
    requires Own(p) <= Own(m.calls[c].progress) + {m.nextId}
    ensures IsLocal(m, At(Add(m, held), c, p), c)
  {
    hide Own;
    var m' := At(Add(m, held), c, p);
    assert m'.sessions.Keys == m.sessions.Keys + {m.nextId};
    assert m.nextId !in m.sessions;
  }

  lemma FeedIsLocal(m: Machine, c: nat, id: nat, tokens: seq<S.Token>, outcome: Outcome, p: Progress)
    requires c in m.calls && id in m.sessions && id in Own(m.calls[c].progress)
    requires forall i :: i in m.sessions ==> i < m.nextId
    requires Own(p) <= Own(m.calls[c].progress) && Own(Broken(id)) == {id}
    ensures IsLocal(m, Feed(m, c, id, tokens, outcome, p), c)
  {
    hide Own, S.Advanced;
    assert Feed(m, c, id, tokens, outcome, p).sessions.Keys == m.sessions.Keys;
  }

  lemma MoveIsLocal(m: Machine, c: nat, p: Progress)
    requires c in m.calls
    requires forall i :: i in m.sessions ==> i < m.nextId
    requires Own(p) <= Own(m.calls[c].progress)
    ensures IsLocal(m, At(m, c, p), c)
  {
    hide Own;
  }

  lemma ArmIsLocal(m: Machine, c: nat, id: nat, held: Held, p: Progress)
    requires c in m.calls && id in m.sessions && id in Own(m.calls[c].progress)
    requires forall i :: i in m.sessions ==> i < m.nextId
    requires Own(p) <= Own(m.calls[c].progress)
    ensures IsLocal(m, At(Put(m, id, held), c, p), c)
  {
    hide Own;
    assert At(Put(m, id, held), c, p).sessions.Keys == m.sessions.Keys;
  }

  lemma OwnStepIsLocal(w: World, m: Machine, step: Step)
    requires Enabled(w, m, step) && IsOwnStep(step)
    requires forall id :: id in m.sessions ==> id < m.nextId
    ensures IsLocal(m, Apply(w, m, step), step.call)
  {
    hide Admitted, PrefixState, PromptState, NewState, PromptKeyOf, InputKeyOf, CanContinue, NextToken, Possible;
    hide TokensOf;
    hide S.Advanced, CheckStep, IsLocal, At, Add, Put, Feed, StoreStep;
    var c := step.call;
    var call := m.calls[c];
    var p, r := call.progress, call.request;
    match step
    case Open(_) =>
      AddIsLocal(m, c, Held(NewState(w, r), None), PrefixReady(m.nextId));
      AddIsLocal(m, c, Held(NewState(w, r), Some(c)), Opened(m.nextId));
    case CopyPrefix(_) =>
      if p.Looked? {
        AddIsLocal(m, c, Held(m.sessions[p.shared].state, None), PrefixReady(m.nextId));
      } else {
        AddIsLocal(m, c, Held(m.sessions[p.own].state, None), PrefixCopied(p.own, m.nextId));
      }
    case FeedPrefix(_, outcome) => FeedIsLocal(m, c, p.own, TokensOf(w, r, r.prefix), outcome, PrefixFed(p.own));
    case FeedSuffix(_, outcome) => FeedIsLocal(m, c, p.own, TokensOf(w, r, r.suffix), outcome, PromptReady(p.own));
    case WarmUp(_, outcome) =>
      FeedIsLocal(m, c, p.own, [NextToken(m.sessions[p.own].state)], outcome, Warmed(p.own, p.clean));
      MoveIsLocal(m, c, Warmed(p.own, p.clean));
    case Generate(_, outcome) =>
      var token := NextToken(m.sessions[p.own].state);
      FeedIsLocal(m, c, p.own, [token], outcome, Generating(p.own, p.generated + [token]));
    case Arm(_) =>
      var held := m.sessions[p.own].(signal := Some(c));
      ArmIsLocal(m, c, p.own, held, if p.Taken? then PromptReady(p.own) else Armed(p.own));
    case Begin(_) => MoveIsLocal(m, c, Generating(p.own, []));
    case Finish(_) => MoveIsLocal(m, c, Delivered(p.generated));
    case Abandon(_) => MoveIsLocal(m, c, Ended);
  }

  /** Creating, copying and feeding the prefix. */
  lemma PrefixStepKeepsCall(w: World, m: Machine, step: Step)
    requires step.call in m.calls && Enabled(w, m, step) && CallInv(w, m, step.call, m.calls[step.call])
    requires m.nextId !in m.sessions
    requires step.Open? || step.FeedPrefix? || step.CopyPrefix? || step.WarmUp?
    ensures CallInv(w, Apply(w, m, step), step.call, Apply(w, m, step).calls[step.call])
  {
    hide Admitted, PromptState, PromptKeyOf, InputKeyOf, NewState, Possible, TokensOf, S.Advanced;
  }

  lemma PromptStepKeepsCall(w: World, m: Machine, step: Step)
    requires step.call in m.calls && Enabled(w, m, step) && CallInv(w, m, step.call, m.calls[step.call])
    requires step.Arm? || step.FeedSuffix? || step.Begin? || step.Finish? || step.Abandon?
    ensures CallInv(w, Apply(w, m, step), step.call, Apply(w, m, step).calls[step.call])
  {
    hide Admitted, PrefixState, PromptKeyOf, InputKeyOf, NewState, Possible, TokensOf, S.Advanced;
  }

  lemma PromptStateIsReady(w: World, r: Request)
    requires Admitted(w, r)
    ensures S.Ready(PrefixState(w, r)) && S.Ready(PromptState(w, r))
    ensures PromptState(w, r).model == ModelOf(w, r)
    ensures PromptState(w, r).tokens ==
      (if r.prefix == "" then [] else TokensOf(w, r, r.prefix)) + TokensOf(w, r, r.suffix)
  {
    var s := NewState(w, r);
    S.AdvanceKeepsReady(s, TokensOf(w, r, r.prefix));
    S.AdvanceRecords(s, TokensOf(w, r, r.prefix));
    S.AdvanceKeepsReady(PrefixState(w, r), TokensOf(w, r, r.suffix));
    S.AdvanceRecords(PrefixState(w, r), TokensOf(w, r, r.suffix));
    assert [] + TokensOf(w, r, r.prefix) == TokensOf(w, r, r.prefix);
  }

  lemma GenerateKeepsCall(w: World, m: Machine, step: Step)
    requires step.call in m.calls && Enabled(w, m, step) && CallInv(w, m, step.call, m.calls[step.call]) &&
      step.Generate?
    ensures CallInv(w, Apply(w, m, step), step.call, Apply(w, m, step).calls[step.call])
  {
    hide Admitted, PrefixState, PromptState, PromptKeyOf, InputKeyOf, NewState, Possible, TokensOf;
    hide S.Advanced, S.Generated, GeneratesFor, CanContinue, NextToken;
    var call := m.calls[step.call];
    OneMoreToken(w, call.request, call.progress.generated);
  }

  /** A token that may follow extends the run and its state by one. */
  lemma OneMoreToken(w: World, r: Request, generated: seq<S.Token>)
    requires Admitted(w, r) && GeneratesFor(w, r, generated) && |generated| < r.maxTokens
    requires CanContinue(S.Generated(PromptState(w, r), generated))
    ensures var s := S.Generated(PromptState(w, r), generated);
      var longer := generated + [NextToken(s)];
      GeneratesFor(w, r, longer) && S.Generated(PromptState(w, r), longer) == S.Advanced(s, [NextToken(s)])
  {
    hide Admitted, PrefixState, PromptState, NewState, TokensOf, S.Advanced, S.Ready, S.Generated;
    var s := S.Generated(PromptState(w, r), generated);
    PromptStateIsReady(w, r);
    S.GeneratedIsReady(PromptState(w, r), generated);
    S.GreedyStep(ModelOf(w, r), PromptState(w, r).tokens, generated, NextToken(s));
    S.GeneratedSnoc(PromptState(w, r), generated, NextToken(s));
  }

  lemma OwnStepKeepsInv(w: World, m: Machine, step: Step)
    requires Inv(w, m) && Enabled(w, m, step) && IsOwnStep(step)
    ensures Inv(w, Apply(w, m, step))
  {
    hide Enabled, Apply, CallInv, PreparedInv, SlotInv, IsLocal;
    OwnStepIsLocal(w, m, step);
    assert step.call in m.calls by {
      OwnStepHasCall(w, m, step);
    }
    if step.Generate? {
      GenerateKeepsCall(w, m, step);
    } else if step.Open? || step.FeedPrefix? || step.CopyPrefix? || step.WarmUp? {
      PrefixStepKeepsCall(w, m, step);
    } else {
      PromptStepKeepsCall(w, m, step);
    }
    LocalKeepsInv(w, m, Apply(w, m, step), step.call);
  }

  lemma OwnStepHasCall(w: World, m: Machine, step: Step)
    requires Enabled(w, m, step) && IsOwnStep(step)
    ensures step.call in m.calls
  {
  }

  lemma SpawnKeepsCalls(w: World, m: Machine, step: Step)
    requires Inv(w, m) && Enabled(w, m, step) && step.Spawn?
    ensures CallsInv(w, Apply(w, m, step))
  {
    hide Admitted, PrefixState, PromptState, NewState, PromptKeyOf, InputKeyOf, GeneratesFor, S.Ready, PreparedInv;
    hide SlotInv;
    var m' := Apply(w, m, step);
    forall d | d in m.calls ensures CallInv(w, m', d, m.calls[d]) {
      CallInvFrame(w, m, m', d, m.calls[d]);
    }
  }

  lemma SpawnKeepsInv(w: World, m: Machine, step: Step)
    requires Inv(w, m) && Enabled(w, m, step) && step.Spawn?
    ensures Inv(w, Apply(w, m, step))
  {
    hide Admitted, PromptKeyOf, InputKeyOf, CallInv, CallsInv, PreparedInv;
    SpawnKeepsCalls(w, m, step);
    var m' := Apply(w, m, step);
    PreparedFrame(w, m, m');
    SlotFrame(w, m, m');
  }

  lemma StepKeepsInv(w: World, m: Machine, step: Step)
    requires CollisionFree(w.hashes) && Inv(w, m) && Enabled(w, m, step)
    ensures Inv(w, Apply(w, m, step))
  {
    hide *;
    if step.Spawn? {
      SpawnKeepsInv(w, m, step);
    } else if step.Check? {
      CheckKeepsInv(w, m, step.call);
    } else if step.Lookup? {
      LookupKeepsInv(w, m, step.call);
    } else if step.Store? {
      StoreStepIsStore(w, m, step.call);
      StoreKeepsInv(w, m, step.call);
    } else if step.StoreInput? {
      StoreInputKeepsInv(w, m, step.call);
    } else {
      OwnStepKeepsInv(w, m, step) by {
        assert IsOwnStep(step) by {
          OwnStepsAreTheRest(step);
        }
      }
    }
  }

  lemma StoreStepIsStore(w: World, m: Machine, c: nat)
    requires Enabled(w, m, Store(c))
    ensures HasCopy(m, c) && Apply(w, m, Store(c)) == StoreStep(w, m, c)
  {
    hide StoreStep, HasCopy;
  }

  lemma OwnStepsAreTheRest(step: Step)
    ensures IsOwnStep(step) <==>
      !step.Spawn? && !step.Check? && !step.Lookup? && !step.Store? && !step.StoreInput?
  {
  }

  lemma {:induction false} RunKeepsInv(w: World, run: seq<Machine>, i: nat)
    requires CollisionFree(w.hashes) && IsRun(w, run) && i < |run|
    ensures Inv(w, run[i])
  {
    if i > 0 {
      RunKeepsInv(w, run, i - 1);
      assert Next(w, run[i - 1], run[i]);
      if run[i] != run[i - 1] {
        var step :| Enabled(w, run[i - 1], step) && run[i] == Apply(w, run[i - 1], step);
        StepKeepsInv(w, run[i - 1], step);
      }
    }
  }

  // ---------- What holds over every run ----------

  /** Sizes and threads as configured, the batch sizes as far as the context allows. */
  predicate HasParams(r: Request, p: S.Params) {
    && p.nCtx == r.contextLength && p.nThreads == r.config.generation && p.nThreadsBatch == r.config.batch
    && S.IsNearest(p.nBatch, r.config.logical, r.contextLength) && S.IsNearest(p.nUbatch, r.config.physical, p.nBatch)
  }

  lemma ParamsFollow(r: Request)
    ensures HasParams(r, S.Clamped(SessionParams(r)))
  {
    S.ClampedIsNearest(SessionParams(r));
  }

  /** Wherever a call generates, in whatever interleaving and whether its session came from a new
      context, the prefix cache or the input slot, the session is exactly the one the uncached path
      would have: prefix tokens, suffix tokens, then the tokens generated so far. */
  lemma GenerationRefinesUncached(w: World, run: seq<Machine>, i: nat, c: nat)
    requires CollisionFree(w.hashes) && IsRun(w, run) && i < |run|
    requires c in run[i].calls && run[i].calls[c].progress.Generating?
    ensures var r, p := run[i].calls[c].request, run[i].calls[c].progress;
      && p.own in run[i].sessions
      && var s := run[i].sessions[p.own];
      && s.state == S.Generated(PromptState(w, r), p.generated)
      && s.state.tokens ==
           (if r.prefix == "" then [] else TokensOf(w, r, r.prefix)) + TokensOf(w, r, r.suffix) + p.generated
      && s.state.model == w.models(r.modelKey) && HasParams(r, s.state.params) && s.signal == Some(c)
      && S.Ready(s.state) && PromptState(w, r).tokens != []
      && S.IsGreedy(ModelOf(w, r), PromptState(w, r).tokens, p.generated) && |p.generated| <= r.maxTokens
  {
    RunKeepsInv(w, run, i);
    var call := run[i].calls[c];
    assert CallInv(w, run[i], c, call);
    PromptStateIsReady(w, call.request);
    PromptStateParams(w, call.request);
    ParamsFollow(call.request);
    S.GeneratedIsReady(PromptState(w, call.request), call.progress.generated);
  }

  lemma PromptStateParams(w: World, r: Request)
    ensures PromptState(w, r).params == S.Clamped(SessionParams(r))
  {
    S.AdvanceRecords(NewState(w, r), TokensOf(w, r, r.prefix));
    S.AdvanceRecords(PrefixState(w, r), TokensOf(w, r, r.suffix));
  }

  /** Two calls for the same prompt, in any two runs, deliver tokens of which one is the start of
      the other: no cache history can change what is generated, only a stop can shorten it. */
  lemma DeliveredTokensAgree(w: World, run1: seq<Machine>, i: nat, c: nat, run2: seq<Machine>, j: nat, d: nat)
    requires CollisionFree(w.hashes) && IsRun(w, run1) && IsRun(w, run2) && i < |run1| && j < |run2|
    requires c in run1[i].calls && d in run2[j].calls
    requires run1[i].calls[c].progress.Delivered? && run2[j].calls[d].progress.Delivered?
    requires PromptState(w, run1[i].calls[c].request) == PromptState(w, run2[j].calls[d].request)
    ensures var a, b := run1[i].calls[c].progress.generated, run2[j].calls[d].progress.generated;
      a <= b || b <= a
  {
    RunKeepsInv(w, run1, i);
    RunKeepsInv(w, run2, j);
    var r, q := run1[i].calls[c].request, run2[j].calls[d].request;
    var a, b := run1[i].calls[c].progress.generated, run2[j].calls[d].progress.generated;
    assert CallInv(w, run1[i], c, run1[i].calls[c]) && CallInv(w, run2[j], d, run2[j].calls[d]);
    PromptStateIsReady(w, r);
    PromptStateIsReady(w, q);
    if |a| <= |b| {
      S.GreedyIsDeterministic(ModelOf(w, r), PromptState(w, r).tokens, a, b);
    } else {
      S.GreedyIsDeterministic(ModelOf(w, r), PromptState(w, r).tokens, b, a);
    }
  }

  /** Sessions nobody but a cache may change. */
  ghost predicate CachedKept(m: Machine, m': Machine) {
    && m.frozen <= m'.frozen && m.taken <= m'.taken
    && m.frozen <= m.sessions.Keys && m.frozen <= m'.sessions.Keys
    && (forall id :: id in m.frozen ==> m'.sessions[id] == m.sessions[id])
    && (m.slot.Some? && m.slot.value.1 in m.sessions ==>
          m.slot.value.1 in m'.sessions && (m'.slot == m.slot ==>
          m'.sessions[m.slot.value.1] == m.sessions[m.slot.value.1]))
  }

  lemma OwnStepKeepsCached(w: World, m: Machine, step: Step)
    requires Inv(w, m) && Enabled(w, m, step) && IsOwnStep(step)
    ensures CachedKept(m, Apply(w, m, step))
  {
    hide Enabled, Apply, CallInv;
    OwnStepHasCall(w, m, step);
    OwnStepIsLocal(w, m, step);
    hide Own;
  }

  lemma CacheStepKeepsCached(w: World, m: Machine, step: Step)
    requires Inv(w, m) && Enabled(w, m, step) && !IsOwnStep(step)
    ensures CachedKept(m, Apply(w, m, step))
  {
    hide CallInv, CallsInv, Admitted, PromptState, PrefixState, PromptKeyOf, InputKeyOf, StorePrepared, S.Ready;
    hide Feed, Add, Own;
  }

  lemma RunStepKeepsCached(w: World, run: seq<Machine>, i: nat)
    requires CollisionFree(w.hashes) && IsRun(w, run) && i + 1 < |run|
    ensures CachedKept(run[i], run[i + 1])
  {
    hide CachedKept, Inv, Enabled, Apply, IsOwnStep;
    RunKeepsInv(w, run, i);
    assert Next(w, run[i], run[i + 1]);
    if run[i + 1] == run[i] {
      NothingChanges(w, run[i]);
    } else {
      var step :| Enabled(w, run[i], step) && run[i + 1] == Apply(w, run[i], step);
      if IsOwnStep(step) {
        OwnStepKeepsCached(w, run[i], step);
      } else {
        CacheStepKeepsCached(w, run[i], step);
      }
    }
  }

  lemma NothingChanges(w: World, m: Machine)
    requires Inv(w, m)
    ensures CachedKept(m, m)
  {
    FrozenExist(w, m);
    hide Inv;
  }

  /** No step of any call (warm-up and generation included) changes a session that was ever in the
      prefix cache, not even one that was evicted since. */
  lemma {:induction false} CachedSessionsNeverChange(w: World, run: seq<Machine>, i: nat, j: nat, id: nat)
    requires CollisionFree(w.hashes) && IsRun(w, run) && i <= j < |run| && id in run[i].frozen
    ensures id in run[i].sessions && id in run[j].frozen && id in run[j].sessions
    ensures run[j].sessions[id] == run[i].sessions[id]
    decreases j - i
  {
    hide Next, IsRun;
    if i < j {
      CachedSessionsNeverChange(w, run, i, j - 1, id);
      RunStepKeepsCached(w, run, j - 1);
    } else {
      RunKeepsInv(w, run, i);
      FrozenExist(w, run[i]);
    }
  }

  lemma {:induction false} TakenGrows(w: World, run: seq<Machine>, i: nat, j: nat)
    requires CollisionFree(w.hashes) && IsRun(w, run) && i <= j < |run|
    ensures run[i].taken <= run[j].taken
    decreases j - i
  {
    hide Next, IsRun;
    if i < j {
      TakenGrows(w, run, i, j - 1);
      RunStepKeepsCached(w, run, j - 1);
    }
  }

  /** A session handed out from the input slot never comes back to it, so it is handed out at most
      once, and only to a call with the exact key under which it was stored. */
  lemma InputSessionsAreHandedOutOnce(w: World, run: seq<Machine>, i: nat, j: nat)
    requires CollisionFree(w.hashes) && IsRun(w, run) && i <= j < |run|
    ensures run[j].slot.Some? ==> run[j].slot.value.1 !in run[i].taken
    ensures forall c :: c in run[i].calls && run[i].calls[c].progress.Taken? ==>
      Holds(w, run[i], run[i].calls[c].progress.own, PromptState(w, run[i].calls[c].request))
  {
    RunKeepsInv(w, run, i);
    RunKeepsInv(w, run, j);
    TakenGrows(w, run, i, j);
    hide PromptState, Admitted;
    forall c | c in run[i].calls && run[i].calls[c].progress.Taken?
      ensures Holds(w, run[i], run[i].calls[c].progress.own, PromptState(w, run[i].calls[c].request))
    {
      assert CallInv(w, run[i], c, run[i].calls[c]);
    }
  }

  /** At most three prefixes are stored, and no stored session ever saw a failed decode. */
  lemma StoredSessionsAreSound(w: World, run: seq<Machine>, i: nat)
    requires CollisionFree(w.hashes) && IsRun(w, run) && i < |run|
    ensures |run[i].prepared| <= 3
    ensures forall k :: k in run[i].prepared ==>
      run[i].prepared[k] in run[i].sessions && S.Ready(run[i].sessions[run[i].prepared[k]].state)
    ensures run[i].slot.Some? ==>
      run[i].slot.value.1 in run[i].sessions && S.Ready(run[i].sessions[run[i].slot.value.1].state)
  {
    RunKeepsInv(w, run, i);
  }

  // ---------- Context safety ----------

  /** The tokens a step tries to decode. */
  function Fed(w: World, m: Machine, step: Step): seq<S.Token>
    requires step.call in m.calls && Own(m.calls[step.call].progress) <= m.sessions.Keys
  {
    var call := m.calls[step.call];
    match step
    case FeedPrefix(_, _) => TokensOf(w, call.request, call.request.prefix)
    case FeedSuffix(_, _) => TokensOf(w, call.request, call.request.suffix)
    case WarmUp(_, _) =>
      if call.progress.PrefixCopied? then [NextToken(m.sessions[call.progress.own].state)] else []
    case Generate(_, _) =>
      if call.progress.Generating? then [NextToken(m.sessions[call.progress.own].state)] else []
    case _ => []
  }

  lemma BudgetHolds(w: World, r: Request)
    requires Admitted(w, r)
    ensures |TokensOf(w, r, r.prefix)| + |TokensOf(w, r, r.suffix)| + r.maxTokens
      + ContextBudget.CONTEXT_SAFETY_MARGIN <= r.contextLength
  {
    var total := ContextBudget.SaturatingAdd(|TokensOf(w, r, r.prefix)|, |TokensOf(w, r, r.suffix)|);
    ContextBudget.SelectionIsLeast(total, r.maxTokens, r.modelContextLength);
  }

  /** Every decode attempted in any interleaving, successful or not, ends within the session's own
      context less the safety margin, and that context is the one that was chosen for the request. */
  lemma DecodesStayInContext(w: World, run: seq<Machine>, i: nat, step: Step)
    requires CollisionFree(w.hashes) && IsRun(w, run) && i < |run| && Enabled(w, run[i], step)
    requires step.FeedPrefix? || step.FeedSuffix? || step.WarmUp? || step.Generate?
    ensures var r := run[i].calls[step.call].request;
      var own := run[i].calls[step.call].progress.own;
      var s := run[i].sessions[own].state;
      && s.params.nCtx == r.contextLength
      && |s.tokens| + |Fed(w, run[i], step)| + 8 <= s.params.nCtx
  {
    RunKeepsInv(w, run, i);
    var call := run[i].calls[step.call];
    assert CallInv(w, run[i], step.call, call);
    hide IsRun, Inv;
    StepStaysInContext(w, run[i], step);
  }

  lemma StateLengths(w: World, r: Request)
    requires Admitted(w, r)
    ensures |NewState(w, r).tokens| == 0
    ensures |PrefixState(w, r).tokens| <= |TokensOf(w, r, r.prefix)|
    ensures |PromptState(w, r).tokens| <= |TokensOf(w, r, r.prefix)| + |TokensOf(w, r, r.suffix)|
    ensures S.Ready(PromptState(w, r))
  {
    PromptStateIsReady(w, r);
    S.AdvanceRecords(NewState(w, r), TokensOf(w, r, r.prefix));
  }

  lemma StateParams(w: World, r: Request)
    ensures NewState(w, r).params.nCtx == r.contextLength
    ensures PrefixState(w, r).params.nCtx == PromptState(w, r).params.nCtx == r.contextLength
  {
    S.AdvanceRecords(NewState(w, r), TokensOf(w, r, r.prefix));
    PromptStateParams(w, r);
  }

  /** What one decode may add to a session that holds `state`. */
  lemma StateStaysInContext(w: World, r: Request, generated: seq<S.Token>)
    requires Admitted(w, r) && |generated| < r.maxTokens
    ensures var limit := r.contextLength - ContextBudget.CONTEXT_SAFETY_MARGIN;
      && |NewState(w, r).tokens| + |TokensOf(w, r, r.prefix)| <= limit
      && |PrefixState(w, r).tokens| + |TokensOf(w, r, r.suffix)| <= limit
      && |PrefixState(w, r).tokens| + 1 <= limit
      && |S.Generated(PromptState(w, r), generated).tokens| + 1 <= limit
    ensures NewState(w, r).params.nCtx == PrefixState(w, r).params.nCtx == r.contextLength
    ensures S.Generated(PromptState(w, r), generated).params.nCtx == r.contextLength
  {
    StateParams(w, r);
    BudgetHolds(w, r);
    StateLengths(w, r);
    hide Admitted, NewState, PrefixState, PromptState;
    S.GeneratedIsReady(PromptState(w, r), generated);
  }

  lemma StepStaysInContext(w: World, m: Machine, step: Step)
    requires step.call in m.calls && Enabled(w, m, step) && CallInv(w, m, step.call, m.calls[step.call])
    requires step.FeedPrefix? || step.FeedSuffix? || step.WarmUp? || step.Generate?
    ensures var call := m.calls[step.call];
      && Own(call.progress) <= m.sessions.Keys
      && var s := m.sessions[call.progress.own].state;
      && s.params.nCtx == call.request.contextLength
      && |s.tokens| + |Fed(w, m, step)| + ContextBudget.CONTEXT_SAFETY_MARGIN <= s.params.nCtx
  {
    hide NewState, PrefixState, PromptState, S.Generated, S.Spoiled, S.IsGreedy, TokensOf, CanContinue;
    var call := m.calls[step.call];
    PositiveLimit(w, call.request);
    hide Admitted;
    StateStaysInContext(w, call.request, if step.Generate? then call.progress.generated else []);
  }

  lemma PositiveLimit(w: World, r: Request)
    requires Admitted(w, r)
    ensures r.maxTokens > 0
  {
  }

  // ---------- The uncached path is a run ----------

  lemma Extend(w: World, run: seq<Machine>, step: Step) returns (longer: seq<Machine>)
    requires IsRun(w, run) && Enabled(w, run[|run| - 1], step)
    ensures IsRun(w, longer) && longer[|longer| - 1] == Apply(w, run[|run| - 1], step)
  {
    hide Enabled, Apply;
    longer := run + [Apply(w, run[|run| - 1], step)];
    forall i | 0 <= i < |longer| - 1 ensures Next(w, longer[i], longer[i + 1]) {
      if i < |run| - 1 {
        assert Next(w, run[i], run[i + 1]);
      }
    }
  }

  /** A first call finds every cache empty and has to open a session. */
  lemma ColdStart(w: World, r: Request, c: nat) returns (run: seq<Machine>)
    requires Admitted(w, r)
    ensures IsRun(w, run)
    ensures run[|run| - 1] == INITIAL.(calls := map[c := Call(Complete, r, Missed)])
  {
    hide Admitted, InputKeyOf, PromptKeyOf;
    run := [INITIAL];
    run := Extend(w, run, Spawn(c, Complete, r));
    assert run[|run| - 1] == INITIAL.(calls := map[c := Call(Complete, r, Started)]);
    run := Extend(w, run, Check(c));
    assert run[|run| - 1] == INITIAL.(calls := map[c := Call(Complete, r, SlotMissed)]);
    run := Extend(w, run, Lookup(c));
  }

  /** Opening a session and feeding the prefix, when there is one. */
  lemma ColdPrefix(w: World, r: Request, c: nat) returns (run: seq<Machine>)
    requires Admitted(w, r)
    ensures IsRun(w, run)
    ensures var m := run[|run| - 1];
      && m.calls == map[c := Call(Complete, r, PrefixReady(0))]
      && 0 in m.sessions && m.sessions[0].state == PrefixState(w, r)
  {
    hide Admitted, InputKeyOf, PromptKeyOf, NewState, S.Advanced, TokensOf;
    run := ColdStart(w, r, c);
    run := Extend(w, run, Open(c));
    if r.prefix != "" {
      var m := run[|run| - 1];
      assert m.calls == map[c := Call(Complete, r, Opened(0))] && m.sessions == map[0 := Held(NewState(w, r), Some(c))];
      run := Extend(w, run, FeedPrefix(c, Success));
      m := run[|run| - 1];
      assert m.calls == map[c := Call(Complete, r, PrefixFed(0))];
      assert m.sessions == map[0 := Held(PrefixState(w, r), Some(c))] && m.nextId == 1;
      run := Extend(w, run, CopyPrefix(c));
      m := run[|run| - 1];
      assert m.calls == map[c := Call(Complete, r, PrefixCopied(0, 1))];
      run := ColdStore(w, r, c, run);
    } else {
      assert run[|run| - 1].calls == map[c := Call(Complete, r, PrefixReady(0))];
    }
  }

  lemma ColdStore(w: World, r: Request, c: nat, run: seq<Machine>) returns (longer: seq<Machine>)
    requires IsRun(w, run)
    requires run[|run| - 1].calls == map[c := Call(Complete, r, PrefixCopied(0, 1))]
    requires 0 in run[|run| - 1].sessions && 1 in run[|run| - 1].sessions
    ensures IsRun(w, longer)
    ensures longer[|longer| - 1].calls == map[c := Call(Complete, r, PrefixReady(0))]
    ensures longer[|longer| - 1].sessions == run[|run| - 1].sessions
  {
    hide StorePrepared, PromptKeyOf;
    longer := Extend(w, run, Store(c));
  }

  /** The uncached path itself is one of the runs: a first call with a non-empty prompt can reach
      generation, from the state every other interleaving is compared with. */
  lemma UncachedPathGenerates(w: World, r: Request, c: nat) returns (run: seq<Machine>)
    requires Admitted(w, r) && PromptState(w, r).tokens != []
    ensures IsRun(w, run)
    ensures var m := run[|run| - 1];
      && c in m.calls && m.calls[c] == Call(Complete, r, Generating(0, []))
      && 0 in m.sessions && m.sessions[0] == Held(PromptState(w, r), Some(c))
  {
    hide Admitted, PrefixState, S.Advanced, TokensOf;
    run := ColdPrefix(w, r, c);
    run := Extend(w, run, Arm(c));
    assert run[|run| - 1].sessions[0] == Held(PrefixState(w, r), Some(c));
    run := Extend(w, run, FeedSuffix(c, Success));
    assert run[|run| - 1].sessions[0] == Held(PromptState(w, r), Some(c));
    run := Extend(w, run, Begin(c));
  }
}
