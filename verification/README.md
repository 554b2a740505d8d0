# TrimPrompt: a verified model of its core

TrimPrompt shortens prompts with an embedded language model. This project models the parts of it
whose correctness is not visible in any single function, and proves what they promise. `dafny verify
dfyconfig.toml` checks everything.

## What is modelled

**Embedded inference and its caches.** `Session.dfy` has the session and the generation handle as
heap objects: a token history, the entries that were decoded, deep copies, greedy generation and the
byte buffer of incomplete characters. llama.cpp is a set of deterministic functions of the token
history; decoding may fail at any time and then leaves the context in an unknown condition.
`Utf8.dfy` has the incremental decoder, specified by section 4 of RFC 3629 and section 3.9 of the
Unicode Standard. `OutputParser.dfy` has the search for the first complete JSON object and the stop
markers, `ObjectGrammar.dfy` what that search finds, and `Answers.dfy` the reading of an answer
while it is generated. `ModelManager.dfy` has the manager with its registry of models, its prefix
cache and its one-shot input slot and the three calls that use it, as one thread runs them.
`PromptCaches.dfy` has the same calls cut at every lock and every inference, as a step system in
which any number of them interleave and any of them may time out or fail anywhere;
`ModelRegistry.dfy` puts the loading of models around it, so that requests name models and not keys.
`SoloCalls.dfy` and `CallRuns.dfy` tie the two together: whatever calls are made on a manager one
after another, a run of the step system leaves the same behind. `CacheKeys.dfy`, `TextOrder.dfy` and
`ContextBudget.dfy` have the keys, the key order and the context length.

**Rewriting around literals and repair.** `QuotedSpans.dfy`, `TokenRepair.dfy`, `SelfCorrection.dfy`
and `Restoration.dfy` have the scanners and rewriting loops, each against a specification that does
not mention its indices.

**Verify or return the original.** `Extractors.dfy`, `Verifier.dfy`, `Service.dfy` and
`TokenEstimator.dfy` have the extraction of protected values, the verdict, the path from request to
result and the token estimate; `Requirements.dfy` says on the characters of a text what has to be
extracted.

**Bounded protocols.** `HttpSyntax.dfy`, `HttpRequest.dfy` and `HttpRendering.dfy` have the request
reader (sections 3, 5 and 6.3 of RFC 9112) and a client's rendering as its partner;
`BoundedQueue.dfy` the worker queue as a step system; `FileSystem.dfy`, `UiSettings.dfy` and
`SettingsStore.dfy` the settings, their crash-atomic replacement and the copy in memory.

`Text.dfy`, `Sequences.dfy` and `Numbers.dfy` are shared vocabulary. Text is a sequence of Unicode
scalar values, so byte offsets become character offsets; where the code counts bytes (paths, header
blocks, digests, UTF-8) the model does too.

## Assumptions

- The tokenizer, the greedy choice, the bytes of a token and the end tokens are functions of their
  inputs. A copied context behaves like its original.
- A model file does not change while the program runs.
- The two hash functions behind the cache keys have no collisions. The tokenised prompt fits 64-bit
  lengths.
- A deadline may answer either way at any time. Answers that stay true once true are among these.
- Jobs of the worker pool do not panic, and no lock is poisoned.
- Encoding normalised settings as JSON and decoding them again gives them back.
- After a crash a directory shows one of its versions since it was last synchronised, and a file that
  was not synchronised may hold anything.

## What the proofs show about the code

- **Evicted entry.** The variable that names the evicted prefix session says "oldest", but the map is
  ordered by key, so the session with the first key goes (`EvictionIsByKey`). Of "b", "a" and "c", stored
  in this order, the next new key evicts "a" (`YoungerEntryIsEvicted`). This affects speed only.
- **Model keys.** A model key is identifier, colon, path, and an identifier with a colon can take
  another model's key (`ModelKeysCollide`). Then a request runs on the other model if that can run it
  (`ClashGoesWrong`), and is refused if it cannot (`SomeCatalogRefuses`). `InvisibleExactly` shows that
  nothing else makes the caches visible to a compression.
- **Output cap.** The floor of 32 tokens can exceed a model's own default (`OutputCapRange`).
- **Marker order.** The longest correction marker has no effect on any clause, because a shorter one that
  starts at the same place comes later in the list (`LongMarkerIsShadowed`); its last character stays.
- **Overlapping matches.** Scanning for raw matches replaces every isolated occurrence unless the
  misspelling begins again inside itself behind a character that is in no identifier (`ScanIsExact`).
  Identifiers and both misspellings with a space that the program passes are safe (`TableIsSafe`).
- **Reading in pieces.** Whether a header block that ends in the last three positions up to the size
  limit is refused depends on how the network cuts it, and so does whether bytes behind a request are
  noticed. `FragmentationIndependence` shows that these are the only two cases.
- **Preserved requirements.** When a draft is replaced by the original, the reported requirements are
  those that the replaced draft kept (`CompressInternal`).
- **Settings.** When the directory cannot be synchronised after the rename, the file is new and memory
  is old. A later save can then lose a key that only the file knows, and saving the old settings again
  reports success without writing. `KnowingKeysLasts` and `SyncLasts` show that no other save does this.
  Starting with the defaults because the file could not be read has both effects too
  (`LoadingKnowsKeys`).

## Model

| member | source | states |
|---|---|---|
| `Session.AdvanceEvaluates` | prompt-compressor-project/application/core/compression-core/src/runtime/backend/embedded_llama.rs:248-277 | An advance by any token list adds one decoded entry per token, at positions history, history+1, … in order, with the logits flag on the last one only, whatever the batch limit |
| `Session.AdvanceKeepsReady` | prompt-compressor-project/application/core/compression-core/src/runtime/backend/embedded_llama.rs:248-277 | After a successful advance the context holds exactly the recorded history and `last_batch_size - 1` points at the entry of the last token, which has logits |
| `Session.ClampedTwice` | prompt-compressor-project/application/core/compression-core/src/runtime/backend/embedded_llama.rs:164-178 | Clamping batch sizes is idempotent, so a deep copy, which is created from a session's own parameters, gets the same parameters |
| `Session.ClampedIsNearest` | prompt-compressor-project/application/core/compression-core/src/runtime/backend/embedded_llama.rs:164-178 | Each batch size becomes the size asked for or the nearest end of its range, from 1 to the context and from 1 to the logical batch; context and threads stay |
| `Session.LastBatchIsRecorded` | prompt-compressor-project/application/core/compression-core/src/runtime/backend/embedded_llama.rs:248-274 | The batch size recorded after an advance is that of the last batch when all others are full |
| `Session.LlamaSession.constructor` | prompt-compressor-project/application/core/compression-core/src/runtime/backend/embedded_llama.rs:164-203 | A new session has an empty history, clamped batch sizes and no deadline |
| `Session.LlamaSession.AdvanceContextWithTokens` | prompt-compressor-project/application/core/compression-core/src/runtime/backend/embedded_llama.rs:248-277 | The batch loop: success is the advance specified by the two lemmas above; failure leaves the recorded history unchanged and marks the context unusable; the deadline is untouched |
| `Session.LlamaSession.BuildBatch` | prompt-compressor-project/application/core/compression-core/src/runtime/backend/embedded_llama.rs:258-266 | One batch of the loop is exactly the slice of the whole advance that it stands for |
| `Session.LlamaSession.AdvanceContext` | prompt-compressor-project/application/core/compression-core/src/runtime/backend/embedded_llama.rs:237-246 | A tokenizer error leaves the session unchanged; otherwise the text's tokens are advanced |
| `Session.LlamaSession.Sample` | prompt-compressor-project/application/core/compression-core/src/runtime/backend/embedded_llama.rs:401-402 | Sampling is only meaningful at an entry with logits, and gives the greedy choice after the history up to that entry |
| `Session.LlamaSession.DeepCopy` | prompt-compressor-project/application/core/compression-core/src/runtime/backend/embedded_llama.rs:279-307 | A copy is a new object with equal state and no deadline; the original is not changed |
| `Session.LlamaSession.StartCompletingWith` | prompt-compressor-project/application/core/compression-core/src/runtime/backend/embedded_llama.rs:309-326 | Generation is refused exactly for an empty history; otherwise a handle starts from the present state with the given limit, and from a consistent session it is valid |
| `Session.CompletionHandle.FinishPending` | prompt-compressor-project/application/core/compression-core/src/runtime/backend/embedded_llama.rs:359-368 | The final flush yields the lossy decoding of the pending bytes, or nothing when there are none, and empties the buffer |
| `Session.CompletionHandle.Fail` | prompt-compressor-project/application/core/compression-core/src/runtime/backend/embedded_llama.rs:370-374 | A failure finishes the handle, drops pending bytes and yields one error |
| `Session.CompletionHandle.Next` | prompt-compressor-project/application/core/compression-core/src/runtime/backend/embedded_llama.rs:380-428 | Every step keeps: tokens generated so far are greedy and within the limit, the session is the start state advanced by them, and text yielded plus pending bytes is what was received; it flushes exactly when bytes are pending; a finished handle never touches its session, yields at most one flush and then ends |
| `Session.CompletionHandle.EndedHandleEmittedEverything` | prompt-compressor-project/application/core/compression-core/src/runtime/backend/embedded_llama.rs:359-428 | A handle that ended without failing yielded exactly the lossy decoding of all its tokens' bytes, and it ended at the limit or because the model chose to stop |
| `Session.GeneratedIsReady` | prompt-compressor-project/application/core/compression-core/src/runtime/backend/embedded_llama.rs:401-422 | Each generated token takes the next position, so positions always equal the history index and logits are always at hand |
| `Session.GreedyIsDeterministic` | prompt-compressor-project/application/core/compression-core/src/runtime/backend/embedded_llama.rs:389-423 | Two greedy runs from one prompt never disagree: the shorter is a prefix of the longer |
| `Session.CompleteRunIsUnique` | prompt-compressor-project/application/core/compression-core/src/runtime/backend/embedded_llama.rs:380-428 | A prompt and a limit determine the completed run |
| `Utf8.ScanMeansGrammar` | prompt-compressor-project/application/core/compression-core/src/runtime/backend/embedded_llama.rs:434-452 | What the byte scanner reports is the grammar of section 4 of RFC 3629: a character exactly when one starts here, waiting exactly for a proper prefix of one, and otherwise the maximal subpart of section 3.9 of the Unicode Standard |
| `Utf8.TakeCompleteUtf8` | prompt-compressor-project/application/core/compression-core/src/runtime/backend/embedded_llama.rs:431-456 | The drain loop emits text and keeps a tail such that, for every continuation, decoding the whole equals the emitted text followed by decoding the tail and the continuation; the tail is empty or unfinished |
| `Utf8.StreamDrains` | prompt-compressor-project/application/core/compression-core/src/runtime/backend/embedded_llama.rs:425-456 | The same for any sequence of pieces fed one after another |
| `Utf8.StreamingIsChunkIndependent` | prompt-compressor-project/application/core/compression-core/src/runtime/backend/embedded_llama.rs:359-456 | For every way of cutting a byte stream into pieces, the emitted strings followed by the flush are the lossy decoding of the whole stream, and at most three bytes wait |
| `Utf8.PendingIsShort` | prompt-compressor-project/application/core/compression-core/src/runtime/backend/embedded_llama.rs:359-368 | A pending tail has at most three bytes and is flushed as one replacement character |
| `Utf8.StreamedTextRoundTrips` | prompt-compressor-project/application/core/compression-core/src/runtime/backend/embedded_llama.rs:359-456 | Text that is encoded, cut anywhere and decoded piece by piece comes back unchanged |
| `Utf8.EncodeOfDecode` | prompt-compressor-project/application/core/compression-core/src/runtime/backend/embedded_llama.rs:434-445 | Decoding is injective: no overlong form is accepted |
| `PromptCaches.StorePrepared` | prompt-compressor-project/application/core/compression-core/src/runtime/backend.rs:429-446 | Storing never exceeds three entries; the only entry that can disappear is the first in key order, and only for a new key in a full cache |
| `PromptCaches.OnlyFirstTakerGetsIt` | prompt-compressor-project/application/core/compression-core/src/runtime/backend.rs:591-599 | Of any number of takers, only the first with the exact key gets the stored value, and nobody else gets anything |
| `PromptCaches.EvictionIsByKey` | prompt-compressor-project/application/core/compression-core/src/runtime/backend.rs:429-446 | Of any three entries, in whatever order they were stored, the next new key evicts the one with the first key; so the one stored first goes if and only if its key comes first |
| `PromptCaches.YoungerEntryIsEvicted` | prompt-compressor-project/application/core/compression-core/src/runtime/backend.rs:438-441 | So age does not matter: three keys stored in an order in which a younger one is evicted |
| `PromptCaches.RunKeepsInv` | prompt-compressor-project/application/core/compression-core/src/runtime/backend.rs:1105-1695 | Every step of every interleaving of prefix preparation, input preparation and compression, abandoned ones included, keeps the cache invariant |
| `PromptCaches.GenerationRefinesUncached` | prompt-compressor-project/application/core/compression-core/src/runtime/backend.rs:1502-1695 | Wherever a call generates, its session is the one the uncached path would have on the model registered under its key: prefix tokens, then suffix tokens, then the tokens generated so far, with that request's context length, threads and deadline, and no failed decode in its past |
| `PromptCaches.DeliveredTokensAgree` | prompt-compressor-project/application/core/compression-core/src/runtime/backend.rs:1574-1735 | Calls for the same prompt, in any two histories of the caches, deliver token sequences of which one is a prefix of the other |
| `PromptCaches.CachedSessionsNeverChange` | prompt-compressor-project/application/core/compression-core/src/runtime/backend.rs:409-426 | No advance, warm-up or generation by any call ever changes a session that has entered the prefix cache, even after its eviction |
| `PromptCaches.InputSessionsAreHandedOutOnce` | prompt-compressor-project/application/core/compression-core/src/runtime/backend.rs:473-494 | A session taken from the input slot never returns to it, and it was taken for a request whose prompt it holds |
| `PromptCaches.StoredSessionsAreSound` | prompt-compressor-project/application/core/compression-core/src/runtime/backend.rs:429-494 | At most three prefixes are stored, and no stored session ever saw a failed decode |
| `PromptCaches.DecodesStayInContext` | prompt-compressor-project/application/core/compression-core/src/runtime/backend.rs:2421-2505 | Every decode attempted in any interleaving ends at or below the context size of the session it runs in, which is the selected one, less the margin of 8 |
| `PromptCaches.UncachedPathGenerates` | prompt-compressor-project/application/core/compression-core/src/runtime/backend.rs:1592-1695 | The uncached path is itself a run: a first call with a non-empty prompt can reach generation from the reference state |
| `ModelRegistry.HostRunKeepsInv` | prompt-compressor-project/application/core/compression-core/src/runtime/backend.rs:378-398 | In every run every registered model was loaded under its key from a path of the catalog, entries never change, and every call works on the request that the registered model made of what was asked |
| `ModelRegistry.ProjectionIsRun` | prompt-compressor-project/application/core/compression-core/src/runtime/backend.rs:378-398 | A run in which models are loaded on the way is, for its caches, a run with the models that the registry ends up with, so every result about the caches holds in it |
| `ModelRegistry.RunsOnRegisteredModel` | prompt-compressor-project/application/core/compression-core/src/runtime/backend.rs:1502-1695 | Whatever was loaded when, a call generates greedily from the uncached session on the model that is registered under the key of its request |
| `ModelRegistry.GenerationIsOwnExactly` | prompt-compressor-project/application/core/compression-core/src/runtime/backend.rs:1502-1695 | In every run every call for a request that generates does so as without caches, on the model it names, if and only if no different model of the catalog shares the key and could run the request |
| `ModelRegistry.InvisibleExactly` | prompt-compressor-project/application/core/compression-core/src/runtime/backend.rs:378-398 | The caches are invisible to the compressions of a request, those that are refused included, if and only if every model of the catalog with its key refuses it or serves it from the same session |
| `CallRuns.RegistryDecides` | prompt-compressor-project/application/core/compression-core/src/runtime/backend.rs:1519-1548 | Once a model is registered under its key, some continuation of the run gets a compression of the request as far as generating if and only if that model serves it |
| `ModelRegistry.ClashGoesWrong` | prompt-compressor-project/application/core/compression-core/src/runtime/backend.rs:378-398 | For any two different models with one key, and a request for the second that the first can run, there is a run in which that request generates on the first |
| `ModelRegistry.SomeCatalogClashes` | prompt-compressor-project/application/core/compression-core/src/runtime/backend.rs:2340-2342 | There are such catalogs: two entries with a colon in one identifier |
| `ModelRegistry.SomeCatalogRefuses` | prompt-compressor-project/application/core/compression-core/src/runtime/backend.rs:2340-2342 | And there are catalogs in which nothing runs on the wrong model but a request that its own model would serve is refused: a concrete one |
| `ModelRegistry.InvisibleWithoutColons` | prompt-compressor-project/application/core/compression-core/src/runtime/backend.rs:2340-2342 | No caches are visible to any compression of a catalog whose identifiers have no colon, neither in what it generates nor in whether it is refused |
| `ModelRegistry.SameAnswerInEveryRun` | prompt-compressor-project/application/core/compression-core/src/runtime/backend.rs:1574-1735 | Two calls that were asked the same, in any two runs, generate token sequences of which one is a prefix of the other |
| `SoloCalls.EndsExactly` | prompt-compressor-project/application/core/compression-core/src/runtime/backend.rs:1105-1695 | From any state of the step system, the caches that a call alone can leave when it ends are exactly those before it and those that `Effect` allows |
| `SoloCalls.EffectIsReachable` | prompt-compressor-project/application/core/compression-core/src/runtime/backend.rs:1105-1695 | Each of these effects is reached by steps of the call alone, and a compression can deliver any greedy tokens within its limit on the way |
| `SoloCalls.DeliversOnlyWhenDone` | prompt-compressor-project/application/core/compression-core/src/runtime/backend.rs:1502-1695 | A call alone that delivers is a compression and leaves the caches as one that is done |
| `OutputParser.FirstCompleteJsonObjectEnd` | prompt-compressor-project/application/core/compression-core/src/runtime/backend/output_parser.rs:293-325 | The loop finds the first place where an unquoted brace closes the object that begins with the first brace, or tells that there is none |
| `ObjectGrammar.FoundExactly` | prompt-compressor-project/application/core/compression-core/src/runtime/backend/output_parser.rs:293-325 | An end is found exactly where text ends that begins with the first brace and balances outside of string literals, whatever precedes and follows it |
| `OutputParser.TrimAfterStopMarker` | prompt-compressor-project/application/core/compression-core/src/runtime/backend.rs:2331-2338 | What is kept ends in front of the first stop marker of any kind, or is the whole text |
| `OutputParser.ObjectStays` | prompt-compressor-project/application/core/compression-core/src/runtime/backend.rs:1725-1734 | An object that was found stays the first one, whatever text is added, although a stop marker may only be completed later |
| `Answers.AnswerIsUnique` | prompt-compressor-project/application/core/compression-core/src/runtime/backend.rs:1683-1749 | Model, prompt and limit determine the answer of a generation: it is cut at the first text with a complete object, or it is the whole run |
| `Answers.AnswerIsOfWholeRun` | prompt-compressor-project/application/core/compression-core/src/runtime/backend.rs:1709-1742 | If the run can be completed, that answer is the one read from its whole text: stopping at the first object changes nothing, wherever the borders of the tokens are |
| `Answers.ObjectIsAnswered` | prompt-compressor-project/application/core/compression-core/src/runtime/backend.rs:1722-1742 | For every complete run whose text is prose without a brace or stop marker, then text that balances outside of string literals, then anything, the only answer is the trimmed prose with the object |
| `Answers.PlainTextIsAnswered` | prompt-compressor-project/application/core/compression-core/src/runtime/backend.rs:1722-1742 | For every complete run whose text holds no object, the only answer is the trimmed text in front of its first stop marker |
| `Answers.Generate` | prompt-compressor-project/application/core/compression-core/src/runtime/backend.rs:1683-1743 | The loop over the yielded texts returns that answer |
| `ModelManager.EmbeddedModelManager.LoadOrGet` | prompt-compressor-project/application/core/compression-core/src/runtime/backend.rs:378-398 | A model is read from its path only if its key is free; for a taken key whatever was loaded under it is returned; the caches stay valid and unchanged |
| `ModelManager.EmbeddedModelManager.GetPreparedSession` | prompt-compressor-project/application/core/compression-core/src/runtime/backend.rs:409-426 | A hit yields a fresh copy in exactly the state after the prefix; the stored session is not handed out |
| `ModelManager.EmbeddedModelManager.StorePreparedSession` | prompt-compressor-project/application/core/compression-core/src/runtime/backend.rs:429-446 | The new cache is the old one with the entry stored as `StorePrepared` says, in objects and in what they hold; the manager invariant holds |
| `ModelManager.EmbeddedModelManager.TakePreparedInputSession` | prompt-compressor-project/application/core/compression-core/src/runtime/backend.rs:473-481 | The slot is emptied on a match and the session handed out holds the whole prompt of the request; otherwise nothing changes |
| `ModelManager.EmbeddedModelManager.StorePreparedInputSession` | prompt-compressor-project/application/core/compression-core/src/runtime/backend.rs:484-494 | The slot holds exactly the given key and session |
| `ModelManager.Insert` | prompt-compressor-project/application/core/compression-core/src/runtime/backend.rs:429-446 | The insertion with its eviction computes `StorePrepared` |
| `ModelManager.FirstKey` | prompt-compressor-project/application/core/compression-core/src/runtime/backend.rs:438-441 | The evicted key is the first in key order |
| `ModelManager.PreparePromptPrefix` | prompt-compressor-project/application/core/compression-core/src/runtime/backend.rs:1105-1264 | Without a prefix the answer is no; success leaves the prefix stored and what was stored before untouched; a failed or timed-out call, or a hit, leaves the cache as it was; the input slot is never touched |
| `ModelManager.PrepareInput` | prompt-compressor-project/application/core/compression-core/src/runtime/backend.rs:1267-1423 | Success leaves a session with the whole prompt in the slot under the input key; otherwise the slot is unchanged; the prefix cache changes at most by the prefix of the request |
| `ModelManager.PrefixSession` | prompt-compressor-project/application/core/compression-core/src/runtime/backend.rs:1347-1393 | From a hit, a miss or a request without a prefix, the session obtained is private and in the state after the prefix; the prefix is then stored; a failure leaves the cache unchanged |
| `ModelManager.PromptSession` | prompt-compressor-project/application/core/compression-core/src/runtime/backend.rs:1574-1675 | From the slot, the cache or a new context, the session obtained is in the uncached prompt state, carries this call's deadline and is no longer reachable from the manager |
| `ModelManager.RequestCompletion` | prompt-compressor-project/application/core/compression-core/src/runtime/backend.rs:1502-1749 | Whatever the caches hold, the answer is the one answer of generating without caches on the model registered under the key, which is the model of the request unless a different one shares its key; the caches are left as `Effect` says |
| `ModelManager.AskTwice` | prompt-compressor-project/application/core/compression-core/src/runtime/backend.rs:1502-1749 | Asking the same again, after the first call emptied or filled the caches, gives the same string |
| `CallRuns.CallContinuesRun` | prompt-compressor-project/application/core/compression-core/src/runtime/backend.rs:1105-1749 | Every call on the manager is a stretch of a run of the whole system, from the models and caches before it to those after it, and the tokens delivered there are those the answer is read from |
| `CallRuns.CallsAreARun` | prompt-compressor-project/application/core/compression-core/src/runtime/backend.rs:1105-1749 | For any finite sequence of calls on a new manager there is a run of the whole system that ends with the models and caches after the last call and has delivered every answer |
| `CallRuns.Serve` | prompt-compressor-project/application/core/compression-core/src/runtime/backend.rs:1105-1749 | Creating a manager and calling its methods in any order leaves such a sequence |
| `CacheKeys.KeysRead` | prompt-compressor-project/application/core/compression-core/src/runtime/backend.rs:2340-2407 | Both keys as they read: identifier, path, context length, threads, batch sizes, and the hash of the prefix or the word input and the digest, with colons between them |
| `CacheKeys.PromptKeyInjective` | prompt-compressor-project/application/core/compression-core/src/runtime/backend.rs:2356-2376 | Equal prefix keys mean the same model key, context length, threads, batch sizes and prefix (no hash collisions assumed) |
| `CacheKeys.InputKeyInjective` | prompt-compressor-project/application/core/compression-core/src/runtime/backend.rs:2378-2405 | Equal input keys mean the same model key, context length, threads, batch sizes, prefix and suffix |
| `CacheKeys.InputKeysOfRequests` | prompt-compressor-project/application/core/compression-core/src/runtime/backend.rs:2378-2405 | Two requests share an input key if and only if all of these agree and their models are the same or have overlapping names |
| `CacheKeys.InputDigestTextInjective` | prompt-compressor-project/application/core/compression-core/src/runtime/backend.rs:2386-2389 | The hashed length keeps the border between prefix and suffix |
| `CacheKeys.ModelKeysCollide` | prompt-compressor-project/application/core/compression-core/src/runtime/backend.rs:2340-2342 | Two models share a key exactly when they are the same or one identifier is the other, a colon and the beginning of the other's path |
| `CacheKeys.ModelKeyIsAmbiguous` | prompt-compressor-project/application/core/compression-core/src/runtime/backend.rs:2340-2342 | Identifiers with a colon do collide: a concrete pair |
| `ContextBudget.OutputCapRange` | prompt-compressor-project/application/core/compression-core/src/runtime/backend.rs:2421-2443 | The output cap is always within 32..192 and exceeds the model's own default exactly when that default is below 32 |
| `ContextBudget.OutputCapByLevel` | prompt-compressor-project/application/core/compression-core/src/runtime/backend.rs:2421-2443 | With a generous model, long inputs get the cap of their level and short ones 64 tokens, or 32 at level 0 |
| `ContextBudget.OutputCapExactly` | prompt-compressor-project/application/core/compression-core/src/runtime/backend.rs:2421-2443 | A number of tokens beyond 32 is within the cap exactly when the model and the level allow it and, beyond 64, the input is long enough at three quarters, three fifths or one half of a token for each character |
| `ContextBudget.SelectionIsLeast` | prompt-compressor-project/application/core/compression-core/src/runtime/backend.rs:2475-2505 | A request is refused exactly when prompt, reserve and eight more exceed the model; otherwise it gets the least of 1024, 2048, 4096 and the length of the model that holds them |
| `QuotedSpans.MapUnquotedSpans` | prompt-compressor-project/application/core/compression-core/src/runtime/backend.rs:4463-4508 | The scanner computes the specification: split into plain spans and literals, rewrite only the plain ones, join |
| `QuotedSpans.MappedExactly` | prompt-compressor-project/application/core/compression-core/src/runtime/backend.rs:4463-4508 | For the five pairs of quotes written out: a text without opening quotes is rewritten; of any other the first quotation, escapes between ASCII quotes included, is copied, what precedes it is rewritten and what follows treated alike; a quote that is never closed is copied to the end; and every text is of one of these kinds |
| `QuotedSpans.IdentityRewrite` | prompt-compressor-project/application/core/compression-core/src/runtime/backend.rs:4463-4508 | The identity rewrite returns the input |
| `QuotedSpans.LiteralsSurvive` | prompt-compressor-project/application/core/compression-core/src/runtime/backend.rs:4463-4508 | If the rewrite adds no opening quote, the output has exactly the same literals in the same places, escapes and unterminated tails included |
| `QuotedSpans.TwoPassesAreOne` | prompt-compressor-project/application/core/compression-core/src/runtime/backend.rs:4438-4508 | Two passes with f and g equal one pass with g after f, under the same condition |
| `QuotedSpans.LiteralsSurviveExactly` | prompt-compressor-project/application/core/compression-core/src/runtime/backend.rs:4463-4508 | That law holds for all texts if and only if the rewrite never adds an opening quote to a span without one |
| `QuotedSpans.TwoPassesAreOneExactly` | prompt-compressor-project/application/core/compression-core/src/runtime/backend.rs:4438-4508 | And so does the law of two passes |
| `QuotedSpans.CollapsePlainSpaces` | prompt-compressor-project/application/core/compression-core/src/runtime/backend.rs:4048-4066 | The loop computes the collapsed text of the next two rows |
| `QuotedSpans.CollapsedIsGapsAsSpaces` | prompt-compressor-project/application/core/compression-core/src/runtime/backend.rs:4048-4066 | Every maximal run of spaces and tabs becomes one space and everything else stays |
| `QuotedSpans.CollapsedIsCompact` | prompt-compressor-project/application/core/compression-core/src/runtime/backend.rs:4048-4066 | No tab and no two adjacent spaces are left, and the other characters are the same in the same order |
| `QuotedSpans.CollapseInlineSpaces` | prompt-compressor-project/application/core/compression-core/src/runtime/backend.rs:4044-4046 | The collapse is applied to the plain spans only |
| `QuotedSpans.CollapseIsIdempotent` | prompt-compressor-project/application/core/compression-core/src/runtime/backend.rs:4044-4066 | Collapsing a second time changes nothing, and no literal is touched |
| `TokenRepair.ReplaceExactAsciiToken` | prompt-compressor-project/application/core/compression-core/src/runtime/backend.rs:3609-3638 | For an identifier the result is the text with exactly its whole tokens replaced; for any misspelling that cannot hide itself every isolated occurrence is replaced; in general it is the left-to-right scan of raw matches, and for the empty misspelling every place is one |
| `TokenRepair.ScanReplacesTokens` | prompt-compressor-project/application/core/compression-core/src/runtime/backend.rs:3609-3638 | The scan over non-overlapping raw matches equals splitting into maximal identifiers, mapping the misspelling and joining |
| `TokenRepair.ScanIsExact` | prompt-compressor-project/application/core/compression-core/src/runtime/backend.rs:3609-3638 | The scan replaces all isolated occurrences in every text if and only if the misspelling does not begin again inside itself behind a character that no identifier has |
| `TokenRepair.ScanIsIsolatedReplaced` | prompt-compressor-project/application/core/compression-core/src/runtime/backend.rs:3609-3638 | For such a misspelling the scan equals the replacement of all isolated occurrences |
| `TokenRepair.TableIsSafe` | prompt-compressor-project/application/core/compression-core/src/runtime/backend.rs:3520-3529 | Both misspellings with a space that the table passes are of this kind |
| `TokenRepair.AsciiIdentifiersAreOneEditApart` | prompt-compressor-project/application/core/compression-core/src/runtime/backend.rs:3572-3607 | The greedy scan answers true exactly for one substitution, one insertion or one deletion, ignoring ASCII case |
| `TokenRepair.OneEditIsSymmetric` | prompt-compressor-project/application/core/compression-core/src/runtime/backend.rs:3572-3607 | Being one edit apart is symmetric |
| `SelfCorrection.CorrectionDeletes` | prompt-compressor-project/application/core/compression-core/src/runtime/backend.rs:4326-4344 | One correction only deletes, and more than the marker |
| `SelfCorrection.CorrectedByDeletes` | prompt-compressor-project/application/core/compression-core/src/runtime/backend.rs:4324-4345 | The corrections by one marker end for every text, leave a subsequence of it, and stop only where the first marker left has no token before or behind it |
| `SelfCorrection.CorrectedByAllDeletes` | prompt-compressor-project/application/core/compression-core/src/runtime/backend.rs:4312-4347 | All markers in turn leave a subsequence, and a text without markers as it is |
| `SelfCorrection.RemoveCorrections` | prompt-compressor-project/application/core/compression-core/src/runtime/backend.rs:4324-4345 | The inner loop computes exactly those corrections |
| `SelfCorrection.NewTokenSurvives` | prompt-compressor-project/application/core/compression-core/src/runtime/backend.rs:4312-4347 | A text that holds one correction, with any of the eight markers, particle, blanks and discourse words, becomes its trimmed head, the new token and the tail: the withdrawn token goes |
| `SelfCorrection.CorrectedByExactly` | prompt-compressor-project/application/core/compression-core/src/runtime/backend.rs:4324-4344 | For any text and marker: between two tokens at the first marker the new one takes the place of the withdrawn one and the search goes on, and otherwise the text stays |
| `SelfCorrection.NormalizeExplicitAsciiSelfCorrections` | prompt-compressor-project/application/core/compression-core/src/runtime/backend.rs:4312-4347 | The outer loop applies the markers in the order of the list |
| `SelfCorrection.ConfirmedByDeletes` | prompt-compressor-project/application/core/compression-core/src/runtime/backend.rs:4359-4383 | Cutting repeated confirmations ends for every text, leaves a subsequence, and stops only where the first marker left confirms nothing |
| `SelfCorrection.ConfirmedByExactly` | prompt-compressor-project/application/core/compression-core/src/runtime/backend.rs:4359-4383 | The marker goes with its segment, and nothing else does, exactly when that segment is a token mentioned before and one of the four confirmations; then the search goes on, and otherwise the text stays |
| `SelfCorrection.ConfirmationsInTurn` | prompt-compressor-project/application/core/compression-core/src/runtime/backend.rs:4349-4385 | First for one marker, then for the other |
| `SelfCorrection.ConfirmedByAllDeletes` | prompt-compressor-project/application/core/compression-core/src/runtime/backend.rs:4349-4385 | Both markers in turn leave a subsequence, and a text without markers as it is |
| `SelfCorrection.RemoveRepeatedAsciiConfirmations` | prompt-compressor-project/application/core/compression-core/src/runtime/backend.rs:4349-4385 | The loops compute exactly those cuts |
| `SelfCorrection.WithoutTailDropsSeparator` | prompt-compressor-project/application/core/compression-core/src/runtime/backend.rs:5246-5296 | Each round of the redundant-tail loop leaves fewer `;` and a text that keeps every required term and negative constraint |
| `SelfCorrection.OverlappingTailGoes` | prompt-compressor-project/application/core/compression-core/src/runtime/backend.rs:5246-5268 | A part behind the last `;` that overlaps a constraint clause, white space aside, goes as a whole when the head alone is acceptable |
| `SelfCorrection.StartingClauseGoes` | prompt-compressor-project/application/core/compression-core/src/runtime/backend.rs:5270-5291 | Otherwise the first clause that starts the part goes with the separators behind it, and what remains follows the head as a sentence, when that is acceptable |
| `SelfCorrection.OtherTailStays` | prompt-compressor-project/application/core/compression-core/src/runtime/backend.rs:5246-5296 | And without such a clause the text stays |
| `SelfCorrection.CompactTakesBlanksOut` | prompt-compressor-project/application/core/compression-core/src/runtime/backend.rs:5252-5265 | Compacting takes out every white-space character and no other |
| `SelfCorrection.WithoutTailsIsAcceptable` | prompt-compressor-project/application/core/compression-core/src/runtime/backend.rs:5242-5299 | The rounds end for every text, and what they leave is the text given or an acceptable one |
| `SelfCorrection.RemoveRedundantConstraintTail` | prompt-compressor-project/application/core/compression-core/src/runtime/backend.rs:5242-5299 | The loop computes exactly those rounds |
| `Restoration.AppendLength` | prompt-compressor-project/application/core/compression-core/src/runtime/backend.rs:3858-3872 | Appending a phrase adds at most two characters to both lengths |
| `Restoration.StrippedIsCore` | prompt-compressor-project/application/core/compression-core/src/runtime/backend.rs:3859-3864 | Before two texts are joined, each loses the blanks around it and the ending marks behind it, and no more |
| `Restoration.AppendAllJoins` | prompt-compressor-project/application/core/compression-core/src/runtime/backend.rs:3858-3872 | Any number of phrases appended one after another form one list behind the output, in order, with one full stop; blank ones add nothing, and a blank one at the end takes the stop away, provided that no text is blank or that stripping each text twice is stripping it once |
| `Restoration.BlankPhraseTakesSpace` | prompt-compressor-project/application/core/compression-core/src/runtime/backend.rs:3858-3872 | Otherwise a blank phrase can take white space out of the list: a concrete one |
| `Restoration.AppendAllKeepsLetters` | prompt-compressor-project/application/core/compression-core/src/runtime/backend.rs:3858-3872 | For all texts, appending keeps every character that is no white space or list punctuation, in order, and adds none |
| `Restoration.BudgetIsKept` | prompt-compressor-project/application/core/compression-core/src/runtime/backend.rs:4593-4631 | Trimming keeps a contiguous piece of the text within the budget, empty only for blank text |
| `Restoration.CutExactly` | prompt-compressor-project/application/core/compression-core/src/runtime/backend.rs:4593-4631 | Text beyond the budget is cut at the last of five characters that leaves at least half of the budget, or else at the budget, and loses the border characters around it; text within it is only trimmed |
| `Restoration.TrimToCharBudget` | prompt-compressor-project/application/core/compression-core/src/runtime/backend.rs:4593-4631 | The soft-cut loop finds the last soft cut that keeps half the budget, else the hard cut |
| `Restoration.TrimmedCandidateFits` | prompt-compressor-project/application/core/compression-core/src/runtime/backend.rs:3817-3828 | Trimming to the input length less the phrase length and 3 and appending always gives a candidate below the input length |
| `Restoration.RestoredIsAcceptable` | prompt-compressor-project/application/core/compression-core/src/runtime/backend.rs:3784-3856 | Whatever is restored is strictly shorter than the trimmed input and holds every required term |
| `Restoration.FittingPhrasesAreRestored` | prompt-compressor-project/application/core/compression-core/src/runtime/backend.rs:3784-3856 | If each of the first phrases fits when appended to those before it and the search ends there, exactly these are restored, in order |
| `Restoration.TrimmedForPhrase` | prompt-compressor-project/application/core/compression-core/src/runtime/backend.rs:3818-3836 | A phrase that would make the text too long is appended to the text trimmed to the input length less the phrase and three characters |
| `Restoration.NoRoomForPhrase` | prompt-compressor-project/application/core/compression-core/src/runtime/backend.rs:3819-3829 | A phrase for which this leaves nothing is passed over |
| `Restoration.NothingRestoredMeansNothingApplicable` | prompt-compressor-project/application/core/compression-core/src/runtime/backend.rs:3784-3856 | Nothing is restored exactly when no phrase can be applied to the draft |
| `Restoration.RestoreMissingRequiredConstraints` | prompt-compressor-project/application/core/compression-core/src/runtime/backend.rs:3784-3856 | The draft becomes the outcome of applying the phrases in turn, and stays as normalised when none applies; without the constraint it is untouched |
| `TokenEstimator.Estimate` | prompt-compressor-project/application/core/compression-core/src/compression/token_estimator.rs:5-93 | The streaming loop with its three counters computes the sum over maximal runs of their ceilings plus one per symbol |
| `TokenEstimator.TotalBounds` | prompt-compressor-project/application/core/compression-core/src/compression/token_estimator.rs:5-93 | The estimate never exceeds the number of characters that are not white space |
| `TokenEstimator.ZeroMeansBlank` | prompt-compressor-project/application/core/compression-core/src/compression/token_estimator.rs:6-9 | The estimate is zero exactly on blank text |
| `TokenEstimator.TotalOfConcat` | prompt-compressor-project/application/core/compression-core/src/compression/token_estimator.rs:5-93 | estimate(a) + estimate(b) - 1 <= estimate(ab) <= estimate(a) + estimate(b) for all a and b |
| `TokenEstimator.TotalOfTrimmed` | prompt-compressor-project/application/core/compression-core/src/compression/token_estimator.rs:6-9 | White space around the text does not count |
| `TokenEstimator.CostMerges` | prompt-compressor-project/application/core/compression-core/src/compression/token_estimator.rs:25-40 | Merging two runs of one kind saves at most one token and never costs one |
| `TokenEstimator.RunWeights` | prompt-compressor-project/application/core/compression-core/src/compression/token_estimator.rs:25-40 | A run costs two tokens for three Japanese characters, one for four letters or one for three digits, rounded up |
| `TokenEstimator.OtherWeights` | prompt-compressor-project/application/core/compression-core/src/compression/token_estimator.rs:44-66 | Any other character is one token, white space none |
| `TokenEstimator.RunsAddUp` | prompt-compressor-project/application/core/compression-core/src/compression/token_estimator.rs:44-80 | Where two texts do not meet within a run, their estimates add up |
| `Extractors.ExtractAllNumbers` | prompt-compressor-project/application/core/compression-core/src/compression/verifier.rs:673-687 | Exactly the maximal digit runs of the text are collected |
| `Extractors.ExtractFromClause` | prompt-compressor-project/application/core/compression-core/src/compression/verifier.rs:523-556 | From one clause exactly the digit runs that no rule drops are added |
| `Extractors.ExtractNumbers` | prompt-compressor-project/application/core/compression-core/src/compression/verifier.rs:512-559 | Exactly the undropped digit runs of the corrected tails of the clauses that are not ignored |
| `Extractors.RequiredNumbersOccur` | prompt-compressor-project/application/core/compression-core/src/compression/verifier.rs:512-559 | Every required number is one of the text's own maximal digit runs |
| `Extractors.CorrectedTailStart` | prompt-compressor-project/application/core/compression-core/src/compression/verifier.rs:689-695 | The corrected tail never starts inside a digit run |
| `Extractors.CorrectedTailIsLast` | prompt-compressor-project/application/core/compression-core/src/compression/verifier.rs:689-695 | The corrected tail holds no marker, and it is the whole clause or directly behind one |
| `Extractors.LongMarkerIsShadowed` | prompt-compressor-project/application/core/compression-core/src/compression/verifier.rs:689-695 | For every clause, removing the longest marker from the list changes nothing: wherever it occurs a shorter one begins, and that comes later in the list |
| `Extractors.LongMarkerLeavesItsEnd` | prompt-compressor-project/application/core/compression-core/src/compression/verifier.rs:689-695 | So the end of the longest marker stays in front of the tail: a concrete clause |
| `Extractors.LocalNumberContext` | prompt-compressor-project/application/core/compression-core/src/compression/verifier.rs:638-658 | The window around a number holds the given counts of characters on both sides, or as many as there are, and the whole left side for a count of zero |
| `Extractors.QuotedValues` | prompt-compressor-project/application/core/compression-core/src/compression/verifier.rs:495-510 | The scan returns all non-blank quotations in order |
| `Extractors.ExtractErrorLiterals` | prompt-compressor-project/application/core/compression-core/src/compression/verifier.rs:451-483 | Exactly the error codes and quotations of the clauses that mention an error |
| `Extractors.ErrorLiteralsOccur` | prompt-compressor-project/application/core/compression-core/src/compression/verifier.rs:451-510 | Every error literal is a substring of the text |
| `Extractors.PieceAt` | prompt-compressor-project/application/core/compression-core/src/compression/verifier.rs:453-493 | Every clause and token lies between two separators |
| `Extractors.SplitOnFences` | prompt-compressor-project/application/core/compression-core/src/compression/verifier.rs:352-361 | Splitting at fences loses nothing and leaves no fence in a piece |
| `Extractors.CodeBlocksAreFenced` | prompt-compressor-project/application/core/compression-core/src/compression/verifier.rs:352-361 | Every code block is non-blank, fence-free and behind an odd number of fences |
| `Requirements.BlocksInOrder` | prompt-compressor-project/application/core/compression-core/src/compression/verifier.rs:352-361 | The list of code blocks is exact: every text between an odd fence and the next one or the end that is not blank is listed, trimmed, in its order, and nothing else is |
| `Requirements.BlocksExactly` | prompt-compressor-project/application/core/compression-core/src/compression/verifier.rs:352-361 | So a text is listed exactly when it is fenced in that sense |
| `Requirements.UnixLinesExactly` | prompt-compressor-project/application/core/compression-core/src/compression/verifier.rs:353-354 | Of each carriage return and line feed the line feed stays, and everything else stays |
| `Requirements.ClausesExactly` | prompt-compressor-project/application/core/compression-core/src/compression/verifier.rs:264-264 | The clauses are all the texts between clause ends |
| `Requirements.QuotedExactly` | prompt-compressor-project/application/core/compression-core/src/compression/verifier.rs:495-510 | The quotations are found from left to right, each from an opening quote to the next closing one |
| `Requirements.MentionedExactly` | prompt-compressor-project/application/core/compression-core/src/compression/verifier.rs:451-483 | The error literals are exactly the codes of four characters or more without a small letter, and the quotations, of the clauses that mention an error |
| `Requirements.NeededExactly` | prompt-compressor-project/application/core/compression-core/src/compression/verifier.rs:512-559 | The required numbers are exactly the digit runs behind the last correction of a clause that counts, except those that are noise in windows of 10 and 12, 24 and 24, and 12 and 18 characters |
| `Requirements.TailMarkersAre` | prompt-compressor-project/application/core/compression-core/src/compression/verifier.rs:689-695 | The five markers of a correction |
| `Verifier.CheckValues` | prompt-compressor-project/application/core/compression-core/src/compression/verifier.rs:175-222 | A check does not apply without values or when disabled, passes exactly when all values are found, and otherwise lists exactly the missing ones |
| `Verifier.RunChecks` | prompt-compressor-project/application/core/compression-core/src/compression/verifier.rs:54-91 | Each of the five statuses tells truthfully whether its check applies, whether the draft passes, and which values are lost |
| `Verifier.AcceptsExactly` | prompt-compressor-project/application/core/compression-core/src/compression/verifier.rs:33-91 | A draft is accepted exactly when it is not blank and keeps, as far as wanted, every fenced block, file name, error literal, needed number and negation of the cleaned input |
| `Verifier.Verify` | prompt-compressor-project/application/core/compression-core/src/compression/verifier.rs:35-129 | The original is to be sent exactly when the draft is not faithful: blank, or without a fenced block, file name, error literal, needed number or negation that is wanted; a requirement is reported as preserved exactly when its check applies and passes; flags and reason name exactly the failed checks with the values they miss |
| `Verifier.NormalizedInputKeepsValues` | prompt-compressor-project/application/core/compression-core/src/compression/verifier.rs:54-87 | The cleaned input as a draft passes all four value checks, for every text and marker table |
| `Verifier.NormalizedInputIsAccepted` | prompt-compressor-project/application/core/compression-core/src/compression/verifier.rs:35-129 | It is accepted exactly when it is not blank and its negations count as kept |
| `Verifier.NumbersSurviveAppending` | prompt-compressor-project/application/core/compression-core/src/compression/verifier.rs:79-86 | Text appended to a draft keeps its required numbers unless it continues the last digit run |
| `Service.CompressInternal` | prompt-compressor-project/application/core/compression-core/src/compression/service.rs:54-178 | Only blank input or an unknown profile is an error; an unflagged result carries the very text the verifier accepted; a flagged one is the input up to white space; the flag is raised exactly for a runtime failure or a rejected draft; profile, model, runtime, removal notes, flags, reason and the text of a runtime failure are exact; counts describe the returned text; preserved requirements describe the judged draft |
| `HttpSyntax.ParseHeaders` | prompt-compressor-project/application/ui/web/src/lib.rs:2415-2439 | The loop computes the field map or the first error |
| `HttpSyntax.AcceptedHeaders` | prompt-compressor-project/application/ui/web/src/lib.rs:2415-2439 | Accepted headers are exactly the fields of the lines, one per line, under distinct lower-case names |
| `HttpSyntax.HeadersAcceptedExactly` | prompt-compressor-project/application/ui/web/src/lib.rs:2415-2439 | A header block is refused exactly when a line is no field or two names are equal ignoring case |
| `HttpSyntax.AcceptedHead` | prompt-compressor-project/application/ui/web/src/lib.rs:2327-2379 | An accepted header block has an upper-case method, a path without query, no transfer encoding, and a declared length within the limit of its path, given whenever the method needs one |
| `HttpRequest.ReadHead` | prompt-compressor-project/application/ui/web/src/lib.rs:2308-2326 | The header loop computes the machine's run up to the blank line, with the size limit checked only while there is none |
| `HttpRequest.ReadBody` | prompt-compressor-project/application/ui/web/src/lib.rs:2381-2401 | The body loop computes the rest of the machine's run |
| `HttpRequest.ReadRequest` | prompt-compressor-project/application/ui/web/src/lib.rs:2304-2409 | The reader computes the machine's result for the pieces that the stream delivers |
| `HttpRequest.RunIsStateAfter` | prompt-compressor-project/application/ui/web/src/lib.rs:2304-2409 | Outside two exceptional families the state depends on the bytes alone, not on the pieces |
| `HttpRequest.FragmentationIndependence` | prompt-compressor-project/application/ui/web/src/lib.rs:2304-2409 | A byte stream gives the same result in all pieces if and only if its blank line does not start in the last three positions up to MAX_HEADER_BYTES and nothing follows the declared end of the request |
| `HttpRequest.WindowDepends` | prompt-compressor-project/application/ui/web/src/lib.rs:2316-2326 | Inside that window one delivery of the bytes is answered with 431 and another is not |
| `HttpRequest.StatusTellsTooLarge` | prompt-compressor-project/application/ui/web/src/lib.rs:2316-2326 | Status 431 is the answer exactly for a header block over the limit |
| `HttpRequest.EarlyEndIsRefused` | prompt-compressor-project/application/ui/web/src/lib.rs:2441-2447 | A stream that ends before the request is complete is answered with status 408 when it timed out and with 400 otherwise |
| `HttpRequest.ExcessDepends` | prompt-compressor-project/application/ui/web/src/lib.rs:2382-2399 | Bytes behind the request are refused or never seen, depending on the pieces |
| `HttpRequest.AcceptedRequestIsSound` | prompt-compressor-project/application/ui/web/src/lib.rs:2304-2439 | Any accepted request, from any bytes in any pieces, has a body of exactly the declared length within the route limit, lower-case header names and no transfer encoding |
| `HttpRendering.RenderedIsReceived` | prompt-compressor-project/application/ui/web/src/lib.rs:2304-2439 | Every well-formed request, rendered to bytes and cut in any way, is received with its method, path, fields and body |
| `HttpRendering.BodyLimits` | prompt-compressor-project/application/ui/web/src/lib.rs:1297-1311 | However a request is cut: for /api/clipboard, /api/compress and /api/prepare-input a body of up to 262144 bytes is received, for every other path one of up to 16384; a shorter body than declared is missed, a longer one declared is answered with status 413, and a length beyond 64 bits with 400 |
| `HttpRendering.WithoutLength` | prompt-compressor-project/application/ui/web/src/lib.rs:2371-2376 | Without a declared length POST, PUT and PATCH are answered with status 411, and any other request has no body |
| `HttpRendering.HeaderLimit` | prompt-compressor-project/application/ui/web/src/lib.rs:2308-2325 | However it is cut, a header block of more than 16384 bytes is answered with status 431 |
| `HttpRendering.RequestLineExactly` | prompt-compressor-project/application/ui/web/src/lib.rs:2328-2355 | A request line is accepted exactly when it is an upper-case method, a target that starts with / and has at most 2048 bytes, and HTTP/1.1, with blanks between them |
| `HttpRendering.FieldExactly` | prompt-compressor-project/application/ui/web/src/lib.rs:2415-2439 | A field is accepted exactly when it is a name of letters, digits and hyphens, a colon and a value, and is kept under the lower-case name without the blanks around the value |
| `HttpRendering.LinesOfJoined` | prompt-compressor-project/application/ui/web/src/lib.rs:2329-2332 | Lines joined by carriage return and line feed are found again |
| `HttpRendering.BlankLineIsFirst` | prompt-compressor-project/application/ui/web/src/lib.rs:2411-2413 | The first blank line of a rendered request is the one that ends its header |
| `Text.CharacterTables` | prompt-compressor-project/application/ui/web/src/lib.rs:2342-2345 | White space, digits, letters and lower case are those of the tables, character by character |
| `BoundedQueue.BoundedExecutor.Submit` | prompt-compressor-project/application/ui/desktop/src/main.rs:1622-1627 | A job is accepted exactly when there is room, or, without a buffer, when a worker waits; otherwise it is given back |
| `BoundedQueue.BoundedExecutor.Turn` | prompt-compressor-project/application/ui/desktop/src/main.rs:1601-1612 | A worker's turn is the one step enabled for it, or it must wait |
| `BoundedQueue.BoundedExecutor.constructor` | prompt-compressor-project/application/ui/desktop/src/main.rs:1588-1620 | All workers start idle on an empty open queue |
| `BoundedQueue.RunKeepsInv` | prompt-compressor-project/application/ui/desktop/src/main.rs:1582-1628 | Every step of every interleaving keeps the invariant |
| `BoundedQueue.EveryJobIsInOnePlace` | prompt-compressor-project/application/ui/web/src/lib.rs:1118-1147 | In every reachable state each submitted job is exactly once given back, waiting, running or done; waiting ones are within the capacity, running ones within the workers, and jobs start in the order of acceptance |
| `BoundedQueue.NeverDisconnected` | prompt-compressor-project/application/ui/web/src/lib.rs:1086-1095 | While the sender lives no worker leaves, and a job is refused if and only if there is no room |
| `BoundedQueue.RejectedNeverRuns` | prompt-compressor-project/application/ui/desktop/src/main.rs:1622-1627 | A job that was given back is never started in any continuation |
| `BoundedQueue.EveryShutdownDrains` | prompt-compressor-project/application/ui/web/src/lib.rs:1109-1115 | Once the sender is dropped every schedule ends after the same number of turns; workers have left exactly then, and every accepted job has been run; before that some worker can always go on |
| `BoundedQueue.StepLowersRank` | prompt-compressor-project/application/ui/desktop/src/main.rs:1601-1612 | After the drop every turn of every worker lowers the remaining work by one |
| `UiSettings.NormalizedIsNormal` | prompt-compressor-project/application/ui/web/src/lib.rs:580-595 | Normalising yields a normal form, changes exactly the settings that are not normal, is idempotent and keeps unknown keys |
| `UiSettings.EveryFieldNormalized` | prompt-compressor-project/application/ui/web/src/lib.rs:580-595 | Field by field for any settings: texts lose the blanks around them or go when blank, choices stay exactly when allowed, a level goes to the nearest of 1 to 3, a thread count of zero goes, and everything else stays |
| `UiSettings.TextIsNormal` | prompt-compressor-project/application/ui/web/src/lib.rs:757-761 | Optional text becomes trimmed and non-empty or absent; trimmed text stays |
| `UiSettings.Merged` | prompt-compressor-project/application/ui/web/src/lib.rs:654-656 | All known settings are the incoming ones; unknown keys of the stored settings are added, and incoming values win |
| `SettingsStore.CreateTemp` | prompt-compressor-project/application/ui/web/src/lib.rs:676-702 | The temporary file has a new name and a new file, and the loop over taken names ends |
| `SettingsStore.TempNamesDiffer` | prompt-compressor-project/application/ui/web/src/lib.rs:686-689 | Different counters give different temporary names |
| `SettingsStore.WriteTemp` | prompt-compressor-project/application/ui/web/src/lib.rs:705-718 | Writing and synchronising touch only the temporary file, and success means its complete contents are durable |
| `SettingsStore.AtomicWriteFile` | prompt-compressor-project/application/ui/web/src/lib.rs:676-747 | At every point of every call a crash leaves under the settings name what it could leave before or the complete new body; after success only the new body; before the replacement nothing visible changes |
| `SettingsStore.CrashLeavesSomeSave` | prompt-compressor-project/application/ui/web/src/lib.rs:648-747 | Over any sequence of saves a crash in the last one leaves what it could leave at the start or one of the complete bodies written since |
| `SettingsStore.RenamedLeavesOldOrNew` | prompt-compressor-project/application/ui/web/src/lib.rs:740-747 | The rename adds the complete new body to what a crash can leave, and nothing else |
| `SettingsStore.SyncedLeavesNew` | prompt-compressor-project/application/ui/web/src/lib.rs:742-746 | After the directory is synchronised only the new body can be left |
| `SettingsStore.PersistedUiSettings.Load` | prompt-compressor-project/application/ui/web/src/lib.rs:605-624 | Memory is the normalised file, or the defaults when the file is missing, unreadable or malformed |
| `SettingsStore.PersistedUiSettings.Save` | prompt-compressor-project/application/ui/web/src/lib.rs:648-673 | Memory and file change as one of three outcomes says and the answer tells which; equal settings are not written; crash safety holds throughout |
| `SettingsStore.KeysAreSafe` | prompt-compressor-project/application/ui/web/src/lib.rs:654-671 | No save can lose an unknown key from the file if and only if memory knows all of the file's keys |
| `SettingsStore.KnowingKeysLasts` | prompt-compressor-project/application/ui/web/src/lib.rs:648-673 | A save keeps that if and only if it does not fail behind the replacement with a new key |
| `SettingsStore.SyncLasts` | prompt-compressor-project/application/ui/web/src/lib.rs:648-673 | Memory stays what a restart would load if and only if no changed save fails behind the replacement |
| `SettingsStore.SavesKeepKeys` | prompt-compressor-project/application/ui/web/src/lib.rs:648-673 | Over any sequence of saves without such a failure no unknown key is lost and memory is what a restart would load |
| `SettingsStore.LoadingKnowsKeys` | prompt-compressor-project/application/ui/web/src/lib.rs:605-624 | Loading knows all keys of a file that decodes; defaults over an unread file forget them if there are any, are out of step unless the file normalises to them, and saving them then succeeds without writing |
| `SettingsStore.SyncFailureLosesKey` | prompt-compressor-project/application/ui/web/src/lib.rs:670-671 | A concrete sequence in which a key that a restart would see is lost |
| `SettingsStore.SuccessWithoutWriting` | prompt-compressor-project/application/ui/web/src/lib.rs:658-660 | After such a failure the old settings are saved with success although the file keeps the new ones |

## Left out

- llama.cpp: decoding, sampling, tokenizing and state bytes are functions, and a failed decode leaves
  anything behind; raw pointers and extended lifetimes are not part of this model.
- Clocks, hash functions, request identifiers, latency and floating-point ratios: the integer counts
  behind the ratios are kept.
- The batch size that llama.cpp reports back for a new context is taken to be the clamped one that was
  asked for.
- The loading of a model is a success or a failure with what its path contains; downloads, model files and CPU
  engine checks are not part of this model.
- The Japanese marker tables, the required-term tests, the canned domain candidates and the
  negative-constraint tests are parameters.
- The file names of a text and the normalisation chain before verification are parameters; the checks
  that use them are modelled.
- The nesting depth of the object search is unbounded; in the code it is a 32-bit number.
- Rewrites passed to the span mapper are functions; the one caller that records whether a marker was
  seen is not part of this model.
- The finalisation and polishing rules for model output, output parsing and prompt structure: long
  lists of small rewrites.
- The wording of the verifier's fallback reasons and risk messages: the failed checks with their missing
  values are kept, the shortened examples are not.
- ContextBudget.EffectiveMaxOutputTokens: compression levels above 3 do not exist in a request, so the
  branch for them is not modelled.
- BoundedQueue.RunKeepsInv: worker scheduling is any interleaving; fairness is not assumed, so nothing
  is said about how long a job waits while the sender lives.
- SettingsStore.AtomicWriteFile: the replacement call of Windows, which is atomic and written through by
  its flags, is not part of this model.
- Routes, responses and the checks of host and origin are not part of this model.
- The JSON values behind unknown settings keys are opaque, and the codec is a parameter.
- The browser interface, the desktop window, the tray, the launcher, the command line and the
  configuration loaders: input and output around the core.
