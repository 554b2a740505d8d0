/** Embedded inference sessions: a token history, the context it was decoded into, deep copies and
    greedy generation (runtime/backend/embedded_llama.rs). */
module Session {
  import opened Numbers
  import opened Sequences
  import opened Text
  import opened Utf8

  type Token = int

  /** llama.cpp as deterministic functions: the tokenizer (None is a tokenizer error), the greedy
      choice after a token history, the raw bytes of a token (None is a conversion error) and the
      end-of-sequence or end-of-turn tokens. */
  datatype Model = Model(
    tokenize: string -> Option<seq<Token>>,
    next: seq<Token> -> Token,
    piece: Token -> Option<seq<Byte>>,
    isStop: Token -> bool
  )

  datatype Params = Params(nCtx: nat, nBatch: nat, nUbatch: nat, nThreads: nat, nThreadsBatch: nat)

  /** One slot of a decoded batch. */
  datatype Entry = Entry(token: Token, position: nat, logits: bool)

  /** What a session holds.  `decoded` is everything the context evaluated, `evaluated` the size of
      the batch whose logits it still has, and `intact` says that no decode has failed. */
  datatype SessionState = SessionState(
    model: Model,
    params: Params,
    decoded: seq<Entry>,
    evaluated: nat,
    intact: bool,
    tokens: seq<Token>,
    lastBatchSize: nat
  )

  function Clamp(n: nat, low: nat, high: nat): nat
    requires low <= high
  {
    if n < low then low else if high < n then high else n
  }

  /** The batch sizes a session is created with. */
  function Clamped(p: Params): Params {
    var batch := Clamp(p.nBatch, 1, Max(p.nCtx, 1));
    p.(nBatch := batch, nUbatch := Clamp(p.nUbatch, 1, batch))
  }

  function Created(model: Model, params: Params): SessionState {
    SessionState(model, Clamped(params), [], 0, true, [], 0)
  }

  /** The entries that evaluate `tokens` after a history of `base` tokens. */
  function Entries(tokens: seq<Token>, base: nat): seq<Entry> {
    seq(|tokens|, i requires 0 <= i < |tokens| => Entry(tokens[i], base + i, i + 1 == |tokens|))
  }

  function TokensOf(entries: seq<Entry>): seq<Token> {
    seq(|entries|, i requires 0 <= i < |entries| => entries[i].token)
  }

  function MaximumBatch(p: Params): (n: nat)
    ensures n > 0
  {
    Max(p.nBatch, 1)
  }

  /** The size of the last chunk when `count` tokens are cut into chunks of `maximum`. */
  function LastChunk(count: nat, maximum: nat): nat
    requires count > 0 && maximum > 0
  {
    if count <= maximum then count else LastChunk(count - maximum, maximum)
  }

  function Advanced(s: SessionState, tokens: seq<Token>): SessionState {
    if tokens == [] then s
    else
      var last := LastChunk(|tokens|, MaximumBatch(s.params));
      s.(decoded := s.decoded + Entries(tokens, |s.tokens|), evaluated := last,
         tokens := s.tokens + tokens, lastBatchSize := last)
  }

  /** A decode failed part-way: the recorded history is the old one, the context is not to be used. */
  ghost predicate Spoiled(before: SessionState, after: SessionState) {
    && !after.intact
    && after.model == before.model && after.params == before.params && after.tokens == before.tokens
  }

  /** The context holds exactly the recorded history, one entry per position, and the logits at
      `lastBatchSize - 1` of the last batch are those of the last token. */
  ghost predicate Ready(s: SessionState) {
    && s.intact
    && |s.decoded| == |s.tokens|
    && (forall i :: 0 <= i < |s.tokens| ==> s.decoded[i].token == s.tokens[i] && s.decoded[i].position == i)
    && s.lastBatchSize == s.evaluated <= |s.decoded|
    && (s.tokens == [] <==> s.lastBatchSize == 0)
    && (s.tokens != [] ==> s.decoded[|s.decoded| - s.evaluated + (s.lastBatchSize - 1)].logits)
  }

  lemma ClampedTwice(p: Params)
    ensures Clamped(Clamped(p)) == Clamped(p)
  {
  }

  /** `n` is `wanted`, or the end of `1..limit` that is nearest to it. */
  predicate IsNearest(n: nat, wanted: nat, limit: nat) {
    && 1 <= n && (n <= limit || n == 1)
    && (wanted < n ==> n == 1) && (wanted > n ==> n == limit || (limit == 0 && n == 1))
  }

  /** The batch is as large as asked for and the context allows, the physical one as the batch allows. */
  lemma ClampedIsNearest(p: Params)
    ensures var r := Clamped(p);
      && IsNearest(r.nBatch, p.nBatch, p.nCtx) && IsNearest(r.nUbatch, p.nUbatch, r.nBatch)
      && r.nCtx == p.nCtx && r.nThreads == p.nThreads && r.nThreadsBatch == p.nThreadsBatch
  {
  }

  /** All batches of an advance are full, only the last may be smaller. */
  lemma {:induction false} LastBatchFits(count: nat, maximum: nat)
    requires count > 0 && maximum > 0
    ensures var last := LastChunk(count, maximum); 0 < last <= maximum && exists full: nat ::
      count == full * maximum + last
  {
    if count <= maximum {
      assert count == 0 * maximum + count;
    } else {
      LastBatchFits(count - maximum, maximum);
      var full: nat :| count - maximum == full * maximum + LastChunk(count, maximum);
      assert count == (full + 1) * maximum + LastChunk(count, maximum);
    }
  }

  ghost predicate IsLastBatch(last: nat, count: nat, size: nat) {
    0 < last <= size && exists full: nat :: count == full * size + last
  }

  /** The size that is recorded is that of the last batch, when each holds as many tokens as the session allows. */
  lemma LastBatchIsRecorded(s: SessionState, tokens: seq<Token>)
    requires tokens != [] && s.params.nBatch >= 1
    ensures IsLastBatch(Advanced(s, tokens).lastBatchSize, |tokens|, s.params.nBatch)
  {
    LastBatchFits(|tokens|, s.params.nBatch);
    hide LastChunk, Entries;
  }

  /** An advance evaluates every position after the history once and in order and asks for logits
      on the last token only. */
  lemma AdvanceEvaluates(s: SessionState, tokens: seq<Token>)
    ensures var all := Advanced(s, tokens).decoded;
      && s.decoded <= all && |all| == |s.decoded| + |tokens|
      && forall i :: 0 <= i < |tokens| ==>
           all[|s.decoded| + i] == Entry(tokens[i], |s.tokens| + i, i == |tokens| - 1)
  {
  }

  /** After an advance the session is ready to sample at the last token. */
  lemma AdvanceKeepsReady(s: SessionState, tokens: seq<Token>)
    requires Ready(s)
    ensures Ready(Advanced(s, tokens))
  {
    AdvanceEvaluates(s, tokens);
    if tokens != [] {
      LastChunkFits(|tokens|, MaximumBatch(s.params));
      hide LastChunk, MaximumBatch, Entries;
      assert Ready(Advanced(s, tokens));
    }
  }

  lemma AdvanceRecords(s: SessionState, tokens: seq<Token>)
    ensures var a := Advanced(s, tokens);
      a.tokens == s.tokens + tokens && a.model == s.model && a.params == s.params && a.intact == s.intact
  {
  }

  lemma LastChunkFits(count: nat, maximum: nat)
    requires count > 0 && maximum > 0
    ensures 0 < LastChunk(count, maximum) <= count
    ensures LastChunk(count, maximum) <= maximum
  {
  }

  // ---------- Greedy generation ----------

  /** `generated` is what greedy sampling produces after `prompt`, token by token. */
  ghost predicate IsGreedy(model: Model, prompt: seq<Token>, generated: seq<Token>) {
    forall i :: 0 <= i < |generated| ==>
      && generated[i] == model.next(prompt + generated[..i])
      && !model.isStop(generated[i])
      && model.piece(generated[i]).Some?
  }

  /** Greedy runs from one prompt never disagree: the shorter is the start of the longer. */
  lemma {:induction false} GreedyIsDeterministic(model: Model, prompt: seq<Token>, a: seq<Token>, b: seq<Token>)
    requires IsGreedy(model, prompt, a) && IsGreedy(model, prompt, b) && |a| <= |b|
    ensures a <= b
  {
    if a != [] {
      var n := |a| - 1;
      assert IsGreedy(model, prompt, a[..n]) by {
        assert forall i :: 0 <= i < n ==> a[..n][..i] == a[..i];
      }
      GreedyIsDeterministic(model, prompt, a[..n], b);
      assert a[..n] == b[..n];
    }
  }

  lemma GreedyStep(model: Model, prompt: seq<Token>, generated: seq<Token>, token: Token)
    requires IsGreedy(model, prompt, generated)
    requires token == model.next(prompt + generated) && !model.isStop(token) && model.piece(token).Some?
    ensures IsGreedy(model, prompt, generated + [token])
  {
    var longer := generated + [token];
    forall i | 0 <= i < |longer|
      ensures longer[i] == model.next(prompt + longer[..i])
      ensures !model.isStop(longer[i]) && model.piece(longer[i]).Some?
    {
      assert longer[..i] == generated[..i];
      if i == |generated| {
        assert generated[..i] == generated;
      }
    }
  }

  /** A run that cannot or may not go on. */
  ghost predicate IsComplete(model: Model, prompt: seq<Token>, generated: seq<Token>, limit: nat) {
    && IsGreedy(model, prompt, generated) && |generated| <= limit
    && (|generated| == limit || model.isStop(model.next(prompt + generated)))
  }

  lemma GoesOn(model: Model, prompt: seq<Token>, a: seq<Token>, b: seq<Token>)
    requires IsGreedy(model, prompt, b) && a <= b && |a| < |b|
    ensures !model.isStop(model.next(prompt + a))
  {
    assert b[..|a|] == a && b[|a|] == model.next(prompt + b[..|a|]);
  }

  /** A prompt and a limit have at most one complete run. */
  lemma CompleteRunIsUnique(model: Model, prompt: seq<Token>, limit: nat, a: seq<Token>, b: seq<Token>)
    requires IsComplete(model, prompt, a, limit) && IsComplete(model, prompt, b, limit) && |a| <= |b|
    ensures a == b
  {
    GreedyIsDeterministic(model, prompt, a, b);
    if |a| < |b| {
      GoesOn(model, prompt, a, b);
    }
  }

  /** The state after decoding `generated` one token at a time. */
  function Generated(s: SessionState, generated: seq<Token>): SessionState {
    if generated == [] then s
    else Advanced(Generated(s, generated[..|generated| - 1]), [generated[|generated| - 1]])
  }

  lemma {:induction false} GeneratedIsReady(s: SessionState, generated: seq<Token>)
    requires Ready(s)
    ensures var g := Generated(s, generated);
      Ready(g) && g.tokens == s.tokens + generated && g.model == s.model && g.params == s.params
  {
    if generated == [] {
      assert s.tokens + generated == s.tokens;
    } else {
      var n := |generated| - 1;
      var before := Generated(s, generated[..n]);
      GeneratedIsReady(s, generated[..n]);
      AdvanceKeepsReady(before, [generated[n]]);
      AdvanceRecords(before, [generated[n]]);
      Associative(s.tokens, generated[..n], [generated[n]]);
      TakeDrop(generated, n);
      assert generated[n..] == [generated[n]];
    }
  }

  lemma GeneratedSnoc(s: SessionState, generated: seq<Token>, token: Token)
    ensures Generated(s, generated + [token]) == Advanced(Generated(s, generated), [token])
  {
    assert (generated + [token])[..|generated|] == generated;
  }

  // ---------- The objects ----------

  /** A deadline.  The clock is not modelled, so any answer is possible at any time; the answers of
      a real deadline, which stay true once true, are among them. */
  class AbortSignal {
    constructor () {}

    method IsAborted() returns (answer: bool) {
      answer := *;
    }
  }

  class LlamaSession {
    const model: Model
    const params: Params
    // The llama.cpp context.
    var decoded: seq<Entry>
    var evaluated: nat
    var intact: bool
    // What the application records about it.
    var tokens: seq<Token>
    var lastBatchSize: nat
    var signal: AbortSignal?

    ghost function State(): SessionState
      reads this
    {
      SessionState(model, params, decoded, evaluated, intact, tokens, lastBatchSize)
    }

    constructor (model: Model, params: Params)
      ensures State() == Created(model, params) && signal == null
    {
      this.model, this.params := model, Clamped(params);
      decoded, evaluated, intact := [], 0, true;
      tokens, lastBatchSize, signal := [], 0, null;
    }

    method SetAbortSignal(signal: AbortSignal)
      modifies this`signal
      ensures this.signal == signal
    {
      this.signal := signal;
    }

    /** `llama_decode`.  It may fail, for one because the abort callback asked for it, and then
        the context is in an unknown condition. */
    method Decode(batch: seq<Entry>) returns (ok: bool)
      modifies this`decoded, this`evaluated, this`intact
      ensures ok ==> decoded == old(decoded) + batch && evaluated == |batch| && intact == old(intact)
      ensures !ok ==> !intact
    {
      ok := *;
      if ok {
        decoded, evaluated := decoded + batch, |batch|;
      } else {
        decoded := *;
        evaluated := *;
        intact := false;
      }
    }

    /** The greedy choice from the logits at `index` of the last decoded batch.  Only an entry that
        asked for logits has any. */
    method Sample(index: nat) returns (token: Token)
      requires index < evaluated <= |decoded|
      requires decoded[|decoded| - evaluated + index].logits
      ensures token == model.next(TokensOf(decoded[..|decoded| - evaluated + index + 1]))
    {
      token := model.next(TokensOf(decoded[..|decoded| - evaluated + index + 1]));
    }

    /** The batch for the tokens `processed..end` of one advance. */
    static method BuildBatch(added: seq<Token>, historySize: nat, processed: nat, end: nat)
      returns (batch: seq<Entry>)
      requires processed <= end <= |added|
      ensures batch == Entries(added, historySize)[processed..end]
    {
      batch := [];
      for offset := 0 to end - processed
        invariant batch == Entries(added, historySize)[processed..processed + offset]
      {
        var absolute := historySize + processed + offset;
        var isLast := absolute + 1 == historySize + |added|;
        batch := batch + [Entry(added[processed + offset], absolute, isLast)];
      }
    }

    method AdvanceContextWithTokens(added: seq<Token>) returns (ok: bool)
      modifies this
      ensures ok ==> State() == Advanced(old(State()), added)
      ensures !ok ==> Spoiled(old(State()), State())
      ensures signal == old(signal)
    {
      if |added| == 0 {
        return true;
      }
      var maximumBatch := Max(params.nBatch, 1);
      var historySize := |tokens|;
      var processed := 0;
      ghost var all := Entries(added, historySize);
      while processed < |added|
        invariant 0 <= processed <= |added|
        invariant decoded == old(decoded) + all[..processed]
        invariant intact == old(intact) && tokens == old(tokens) && signal == old(signal)
        invariant 0 < processed < |added| ==>
          LastChunk(|added|, maximumBatch) == LastChunk(|added| - processed, maximumBatch)
        invariant processed == 0 ==> evaluated == old(evaluated) && lastBatchSize == old(lastBatchSize)
        invariant processed == |added| ==> evaluated == lastBatchSize == LastChunk(|added|, maximumBatch)
      {
        var end := if processed + maximumBatch < |added| then processed + maximumBatch else |added|;
        LastChunkFits(|added| - processed, maximumBatch);
        var batch := BuildBatch(added, historySize, processed, end);
        var decodedOk := Decode(batch);
        if !decodedOk {
          return false;
        }
        lastBatchSize := end - processed;
        TakeMore(all, processed, end);
        processed := end;
      }
      assert all[..|added|] == all;
      tokens := tokens + added;
      ok := true;
    }

    method AdvanceContext(text: string) returns (ok: bool)
      modifies this
      ensures signal == old(signal)
      ensures ok ==> model.tokenize(text).Some? && State() == Advanced(old(State()), model.tokenize(text).value)
      ensures !ok && model.tokenize(text).Some? ==> Spoiled(old(State()), State())
      ensures model.tokenize(text).None? ==> !ok && State() == old(State())
    {
      match model.tokenize(text)
      case None => ok := false;
      case Some(added) => ok := AdvanceContextWithTokens(added);
    }

    /** A second session with the same contents and nothing shared; it has no deadline.  Creating
        the context or restoring its state may fail. */
    method DeepCopy() returns (copy: Option<LlamaSession>)
      requires Clamped(params) == params
      ensures copy.Some? ==> fresh(copy.value) && copy.value.State() == State() && copy.value.signal == null
    {
      var possible: bool := *;
      if !possible {
        return None;
      }
      var destination := new LlamaSession(model, params);
      destination.decoded, destination.evaluated, destination.intact := decoded, evaluated, intact;
      destination.tokens, destination.lastBatchSize := tokens, lastBatchSize;
      copy := Some(destination);
    }

    method StartCompletingWith(maxPredictions: nat) returns (handle: Option<CompletionHandle>)
      ensures handle.None? <==> tokens == []
      ensures handle.Some? ==>
        && fresh(handle.value) && handle.value.session == this
        && handle.value.start == State() && handle.value.generated == [] && handle.value.limit == maxPredictions
        && !handle.value.finished && handle.value.yielded == []
      ensures handle.Some? && Ready(State()) ==> handle.value.Valid()
    {
      if tokens == [] {
        return None;
      }
      var h := new CompletionHandle(this, maxPredictions);
      handle := Some(h);
    }
  }

  function Pieces(model: Model, tokens: seq<Token>): seq<seq<Byte>> {
    seq(|tokens|, i requires 0 <= i < |tokens| =>
      match model.piece(tokens[i]) case Some(bytes) => bytes case None => [])
  }

  datatype Item = Text(text: string) | Failure

  /** A generation in progress.  The ghost fields record where it started and what it did. */
  class CompletionHandle {
    const session: LlamaSession
    var remaining: nat
    var pendingUtf8: seq<Byte>
    var finished: bool

    ghost const start: SessionState
    ghost const limit: nat
    ghost var generated: seq<Token>
    ghost var yielded: string
    ghost var failed: bool

    ghost function Received(): seq<Byte>
      reads this
    {
      Flatten(Pieces(start.model, generated))
    }

    /** What also holds for a handle whose session is unusable. */
    ghost predicate Counted()
      reads this
    {
      && session.model == start.model && Ready(start) && start.tokens != []
      && IsGreedy(start.model, start.tokens, generated)
      && |generated| + remaining == limit
    }

    ghost predicate Valid()
      reads this, session
    {
      && Counted()
      && (!finished ==> !failed && session.State() == Generated(start, generated))
      && (!failed && !finished ==> Drained(Received(), yielded, pendingUtf8))
      && (!failed && finished ==> yielded + Lossy(pendingUtf8) == Lossy(Received()))
      && (!failed && finished ==> remaining == 0 || start.model.isStop(start.model.next(start.tokens + generated)))
      && (failed ==> finished && pendingUtf8 == [])
    }

    constructor (session: LlamaSession, maxPredictions: nat)
      requires session.tokens != []
      ensures Ready(session.State()) ==> Valid()
      ensures this.session == session && start == session.State() && generated == [] && limit == maxPredictions
      ensures !finished && yielded == []
    {
      this.session, remaining, pendingUtf8, finished := session, maxPredictions, [], false;
      start, limit, generated, yielded, failed := session.State(), maxPredictions, [], [], false;
      new;
      assert forall more: seq<Byte> :: [] + more == more;
      assert forall more: seq<Byte> :: [] + Lossy(more) == Lossy(more);
    }

    method FinishPending() returns (item: Option<Item>)
      requires Valid() && finished
      modifies this`pendingUtf8, this`yielded
      ensures Valid() && pendingUtf8 == []
      ensures item == if old(pendingUtf8) == [] then None else Some(Text(Lossy(old(pendingUtf8))))
      ensures item.Some? ==> yielded == old(yielded) + item.value.text
      ensures item.None? ==> yielded == old(yielded)
    {
      if pendingUtf8 == [] {
        return None;
      }
      item := Some(Text(Lossy(pendingUtf8)));
      yielded := yielded + Lossy(pendingUtf8);
      pendingUtf8 := [];
    }

    method Fail() returns (item: Option<Item>)
      requires Counted()
      modifies this`pendingUtf8, this`finished, this`failed
      ensures Valid() && finished && failed && item == Some(Failure)
    {
      finished, failed, pendingUtf8 := true, true, [];
      item := Some(Failure);
    }

    /** One step of the iterator: the text that one more token completes, the final flush, or the
        end.  A handle that ended or failed never touches its session again. */
    method Next() returns (item: Option<Item>)
      requires Valid()
      modifies this, session
      ensures Valid()
      ensures old(finished) ==> finished && failed == old(failed) && session.State() == old(session.State())
      ensures generated == old(generated) || (!finished && exists token :: generated == old(generated) + [token])
      ensures item.None? ==> finished && yielded == old(yielded)
      ensures finished ==> pendingUtf8 == []
      ensures old(finished) && old(pendingUtf8) == [] ==> item.None?
      ensures !old(finished) && item.None? ==> !failed && Drained(Received(), yielded, [])
      ensures !old(finished) && finished && item.Some? && item.value.Text? ==> item.value.text != ""
      ensures item == Some(Failure) <==> failed && !old(finished)
      ensures item.Some? && item.value.Text? ==> yielded == old(yielded) + item.value.text
      ensures session.signal == old(session.signal)
      ensures !finished ==> |generated| == |old(generated)| + 1
    {
      if finished {
        item := FinishPending();
        return;
      }
      if remaining == 0 {
        item := Finish();
        return;
      }
      if session.lastBatchSize == 0 {
        item := Fail();
        return;
      }
      var token := Choose();
      if session.model.isStop(token) {
        item := Finish();
        return;
      }
      var bytes := session.model.piece(token);
      if bytes.None? {
        item := Fail();
        return;
      }
      GreedyStep(start.model, start.tokens, generated, token);
      var decodedOk := Record(token);
      if !decodedOk {
        item := Fail();
        return;
      }
      item := Emit(token, bytes.value);
    }

    /** Samples from the logits of the last token of the history. */
    method Choose() returns (token: Token)
      requires Valid() && !finished && session.lastBatchSize > 0
      ensures token == start.model.next(start.tokens + generated)
    {
      GeneratedIsReady(start, generated);
      token := session.Sample(session.lastBatchSize - 1);
      assert session.decoded[..|session.decoded|] == session.decoded;
      assert TokensOf(session.decoded) == start.tokens + generated;
    }

    method Finish() returns (item: Option<Item>)
      requires Valid() && !finished
      requires remaining == 0 || start.model.isStop(start.model.next(start.tokens + generated))
      modifies this`pendingUtf8, this`yielded, this`finished
      ensures Valid() && finished && !failed && pendingUtf8 == []
      ensures item == if old(pendingUtf8) == [] then None else Some(Text(Lossy(old(pendingUtf8))))
      ensures item.Some? ==> yielded == old(yielded) + item.value.text && item.value.text != ""
      ensures item.None? ==> yielded == old(yielded)
    {
      if pendingUtf8 != [] {
        LossyOfSome(pendingUtf8);
      }
      Settle();
      finished := true;
      item := FinishPending();
    }

    /** Decodes the chosen token at the next position and adds it to the history. */
    method Record(token: Token) returns (ok: bool)
      requires Valid() && !finished
      modifies session
      ensures ok ==> session.State() == Generated(start, generated + [token])
      ensures session.signal == old(session.signal)
    {
      hide Ready, IsGreedy, Drained, Lossy;
      var position := |session.tokens|;
      ok := session.Decode([Entry(token, position, true)]);
      if ok {
        session.tokens := session.tokens + [token];
        session.lastBatchSize := 1;
        GeneratedSnoc(start, generated, token);
        assert Entries([token], position) == [Entry(token, position, true)];
      }
    }

    /** Emits whatever text the bytes of a recorded token complete. */
    method Emit(token: Token, bytes: seq<Byte>) returns (item: Option<Item>)
      requires session.model == start.model && Ready(start) && start.tokens != []
      requires IsGreedy(start.model, start.tokens, generated + [token])
      requires remaining > 0 && |generated| + remaining == limit
      requires !finished && !failed && session.State() == Generated(start, generated + [token])
      requires Drained(Received(), yielded, pendingUtf8)
      requires start.model.piece(token) == Some(bytes)
      modifies this
      ensures Valid() && !finished && generated == old(generated) + [token]
      ensures item.Some? && item.value.Text? && yielded == old(yielded) + item.value.text
    {
      hide Ready, IsGreedy, Flatten, Pieces, Drained, Lossy;
      ReceivedSnoc(start.model, generated, token);
      var output, rest := TakeCompleteUtf8(pendingUtf8 + bytes);
      ProgressSnoc(Received(), yielded, pendingUtf8, bytes, output, rest);
      generated := generated + [token];
      remaining := remaining - 1;
      pendingUtf8 := rest;
      yielded := yielded + output;
      item := Some(Text(output));
    }

    lemma GreedySoFar()
      requires Valid()
      ensures start.tokens != [] && IsGreedy(start.model, start.tokens, generated) && |generated| <= limit
    {
    }

    /** A handle that ended without failing emitted exactly the text of the tokens it generated, and
        it ended because the limit was reached or the model chose to stop. */
    lemma EndedHandleEmittedEverything()
      requires Valid() && finished && !failed && pendingUtf8 == []
      ensures yielded == Lossy(Flatten(Pieces(start.model, generated)))
      ensures IsComplete(start.model, start.tokens, generated, limit)
      ensures IsGreedy(start.model, start.tokens, generated) && |generated| <= limit
    {
      assert yielded + [] == yielded;
    }

    /** What is pending decodes to the rest of the received bytes. */
    lemma Settle()
      requires Valid() && !finished
      ensures yielded + Lossy(pendingUtf8) == Lossy(Received())
    {
      assert Received() + [] == Received() && pendingUtf8 + [] == pendingUtf8;
    }
  }

  lemma ReceivedSnoc(model: Model, tokens: seq<Token>, token: Token)
    requires model.piece(token).Some?
    ensures Flatten(Pieces(model, tokens + [token])) == Flatten(Pieces(model, tokens)) + model.piece(token).value
  {
    var longer := Pieces(model, tokens + [token]);
    assert longer[..|longer| - 1] == Pieces(model, tokens);
  }

  lemma ProgressSnoc(received: seq<Byte>, yielded: string, kept: seq<Byte>, added: seq<Byte>,
                     output: string, rest: seq<Byte>)
    requires Drained(received, yielded, kept) && Drained(kept + added, output, rest)
    ensures Drained(received + added, yielded + output, rest)
  {
    forall more: seq<Byte>
      ensures Lossy(received + added + more) == yielded + output + Lossy(rest + more)
    {
      Associative(received, added, more);
      Associative(kept, added, more);
      Associative(yielded, output, Lossy(rest + more));
    }
  }
}
