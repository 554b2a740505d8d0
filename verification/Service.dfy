/** One compression request from input to result (compression/service.rs). */
module Service {
  import opened Text
  import opened Verifier
  import CacheKeys
  import TokenEstimator

  datatype Result<+T> = Ok(value: T) | Err(error: Error)

  datatype Error =
    | UnknownProfile(id: string) | InvalidCompressionLevel(level: nat) | EmptyInput
    | Io(detail: string) | ConfigYaml(detail: string) | InvalidConfig(detail: string)
    | UnknownModel(id: string) | UnknownRuntime(id: string)
    | RuntimeTimeout(milliseconds: nat) | Cancelled(detail: string) | Runtime(detail: string)

  /** `removed` notes what was left out. */
  datatype Draft = Draft(text: string, removed: seq<string>)

  datatype Observation = Observation(rawDraft: Option<Draft>, finalDraft: Draft)

  datatype Profile = Profile(id: string, modelRef: string, runtimeRef: string)

  datatype Request = Request(input: string, level: nat, profile: string, constraints: Constraints)

  /** What the runtime answers to the two ways of asking it. */
  datatype Backend = Backend(
    compress: (Request, Profile) -> Result<Draft>,
    compressObserved: (Request, Profile) -> Result<Observation>)

  datatype Metrics = Metrics(inputTokens: nat, outputTokens: nat, inputCharacters: nat, outputCharacters: nat)

  datatype Compression = Compression(
    profile: string, modelId: string, runtime: string,
    text: string,
    preserved: seq<Check>,
    removed: seq<string>,
    riskFlags: seq<RiskFlag>,
    sendOriginal: bool,
    reason: Option<FallbackReason>,
    metrics: Metrics)

  datatype Observed = Observed(result: Compression, observation: Option<Observation>, fallbackApplied: bool)

  function Asked(backend: Backend, request: Request, profile: Profile, observe: bool): Result<Draft> {
    if observe then
      match backend.compressObserved(request, profile)
      case Ok(observation) => Ok(observation.finalDraft)
      case Err(error) => Err(error)
    else
      backend.compress(request, profile)
  }

  /** The draft that the verifier judges: the trimmed input at level 0, what the runtime returned, or
      the trimmed input again when the runtime failed. */
  function Judged(backend: Backend, request: Request, profile: Profile, observe: bool): string {
    if request.level == 0 then Trim(request.input)
    else
      match Asked(backend, request, profile, observe)
      case Ok(draft) => draft.text
      case Err(_) => Trim(request.input)
  }

  predicate RuntimeFails(backend: Backend, request: Request, profile: Profile, observe: bool) {
    request.level != 0 && Asked(backend, request, profile, observe).Err?
  }

  function ErrorText(error: Error): string {
    match error
    case UnknownProfile(id) => "unknown profile: " + id
    case InvalidCompressionLevel(level) => "invalid compression level: " + CacheKeys.Decimal(level)
    case EmptyInput => "empty input is not allowed"
    case Io(detail) => "i/o error: " + detail
    case ConfigYaml(detail) => "failed to parse yaml config: " + detail
    case InvalidConfig(detail) => "invalid config: " + detail
    case UnknownModel(id) => "unknown model: " + id
    case UnknownRuntime(id) => "unknown runtime: " + id
    case RuntimeTimeout(milliseconds) => "runtime timed out after " + CacheKeys.Decimal(milliseconds) + " ms"
    case Cancelled(detail) => "operation cancelled: " + detail
    case Runtime(detail) => "runtime error: " + detail
  }

  /** What is noted as removed: by the runtime when its draft is returned, or why the original is. */
  function Notes(backend: Backend, request: Request, profile: Profile, observe: bool, replaced: bool): seq<string> {
    if replaced then ["圧縮結果の要件保持を確認できなかったため原文を返しました。"]
    else if request.level == 0 then ["Original level selected; no compression applied."]
    else
      match Asked(backend, request, profile, observe)
      case Ok(draft) => draft.removed
      case Err(_) => ["圧縮ランタイムが失敗したため原文を返しました。"]
  }

  /** Verify or return the original. */
  method CompressInternal(registry: map<string, Profile>, rules: Rules, backend: Backend, request: Request,
                          observe: bool)
    returns (outcome: Result<Observed>)
    // Only a blank input or an unknown profile is an error; the runtime's errors never escape.
    ensures outcome == Err(EmptyInput) <==> Blank(request.input)
    ensures outcome == Err(UnknownProfile(request.profile)) <==> !Blank(request.input) && request.profile !in registry
    ensures outcome.Ok? <==> !Blank(request.input) && request.profile in registry
    // The result names the profile it was made with.
    ensures outcome.Ok? ==>
      && outcome.value.result.profile == registry[request.profile].id
      && outcome.value.result.modelId == registry[request.profile].modelRef
      && outcome.value.result.runtime == registry[request.profile].runtimeRef
    // The note on what was removed, and the reason when the runtime failed.
    ensures outcome.Ok? ==> (
      var fails := RuntimeFails(backend, request, registry[request.profile], observe);
      var replaced := outcome.value.fallbackApplied && !fails;
      outcome.value.result.removed == Notes(backend, request, registry[request.profile], observe, replaced))
    ensures outcome.Ok? && RuntimeFails(backend, request, registry[request.profile], observe) ==> (
      var error := ErrorText(Asked(backend, request, registry[request.profile], observe).error);
      outcome.value.result.reason == Some(RuntimeFailed("原文返し理由: 圧縮ランタイムが失敗しました（profile: '" +
        registry[request.profile].id + "', error: " + error + "）。再推論せず原文を返しました。")))
    ensures outcome.Ok? && RuntimeFails(backend, request, registry[request.profile], observe) ==> (
      var isFaithful := IsFaithful(rules, request.constraints, request.input, Trim(request.input));
      outcome.value.result.riskFlags == (if isFaithful then [] else [VerificationFailed]) + [RuntimeFallback])
    ensures outcome.Ok? && !RuntimeFails(backend, request, registry[request.profile], observe) ==>
      IsVerdictOn(rules, request.constraints, request.input,
        Judged(backend, request, registry[request.profile], observe),
        outcome.value.result.riskFlags, outcome.value.result.reason)
    // A result that is not flagged carries the very text that the verifier accepted.
    ensures outcome.Ok? && !outcome.value.result.sendOriginal ==>
      && outcome.value.result.text == Judged(backend, request, registry[request.profile], observe)
      && !RuntimeFails(backend, request, registry[request.profile], observe)
      && Accepts(rules, request.constraints, request.input, outcome.value.result.text)
      && IsFaithful(rules, request.constraints, request.input, outcome.value.result.text)
    // A flagged one is the input up to surrounding white space.
    ensures outcome.Ok? && outcome.value.result.sendOriginal ==> Trim(outcome.value.result.text) == Trim(request.input)
    // The flag is raised exactly when the runtime failed or the verifier rejected the draft.
    ensures outcome.Ok? ==> (outcome.value.result.sendOriginal <==>
      || RuntimeFails(backend, request, registry[request.profile], observe)
      || !Accepts(rules, request.constraints, request.input,
        Judged(backend, request, registry[request.profile], observe)))
    ensures outcome.Ok? ==> (outcome.value.result.reason.Some? <==> outcome.value.result.sendOriginal)
    ensures outcome.Ok? ==> (RuntimeFallback in outcome.value.result.riskFlags <==>
      RuntimeFails(backend, request, registry[request.profile], observe))
    // The service replaced the draft exactly when the runtime failed or a rejected draft differs from the input.
    ensures outcome.Ok? ==> (outcome.value.fallbackApplied <==>
      || RuntimeFails(backend, request, registry[request.profile], observe)
      || (outcome.value.result.sendOriginal
          && Trim(Judged(backend, request, registry[request.profile], observe)) != Trim(request.input)))
    // The requirements reported as preserved are those the judged draft keeps, even when it is replaced.
    ensures outcome.Ok? ==> forall c :: c in outcome.value.result.preserved <==>
      && !Blank(Judged(backend, request, registry[request.profile], observe))
      && Applies(rules, request.constraints, request.input, c)
      && Keeps(rules, request.input, Judged(backend, request, registry[request.profile], observe), c)
    // The counts describe the input and the text that is returned.
    ensures outcome.Ok? ==> outcome.value.result.metrics == Metrics(
      TokenEstimator.Total(request.input), TokenEstimator.Total(outcome.value.result.text),
      |request.input|, |outcome.value.result.text|)
    ensures outcome.Ok? ==> (outcome.value.observation.Some? <==>
      observe && request.level != 0 && !RuntimeFails(backend, request, registry[request.profile], observe))
    ensures outcome.Ok? && outcome.value.observation.Some? ==>
      backend.compressObserved(request, registry[request.profile]) == Ok(outcome.value.observation.value)
  {
    hide Accepts, IsFaithful, IsVerdictOn, Applies, Keeps, Protects, TokenEstimator.Total, Trim, ErrorText;
    InputIsBlank(request.input);
    TrimIdempotent(request.input);
    InputIsBlank(Trim(request.input));
    if Trim(request.input) == [] {
      return Err(EmptyInput);
    }
    if request.profile !in registry {
      return Err(UnknownProfile(request.profile));
    }
    var profile := registry[request.profile];

    var runtimeFailure: Option<FallbackReason> := None;
    var observation: Option<Observation> := None;
    var fallbackApplied := false;
    var draft: Draft;
    if request.level == 0 {
      draft := Draft(Trim(request.input), ["Original level selected; no compression applied."]);
    } else {
      var answer: Result<(Draft, Option<Observation>)>;
      if observe {
        match backend.compressObserved(request, profile) {
          case Ok(seen) => answer := Ok((seen.finalDraft, Some(seen)));
          case Err(error) => answer := Err(error);
        }
      } else {
        match backend.compress(request, profile) {
          case Ok(made) => answer := Ok((made, None));
          case Err(error) => answer := Err(error);
        }
      }
      match answer {
        case Ok(pair) =>
          draft, observation := pair.0, pair.1;
        case Err(error) =>
          fallbackApplied := true;
          runtimeFailure := Some(RuntimeFailed(
            "原文返し理由: 圧縮ランタイムが失敗しました（profile: '" + profile.id + "', error: " +
              ErrorText(error) + "）。再推論せず原文を返しました。"));
          draft := Draft(Trim(request.input), ["圧縮ランタイムが失敗したため原文を返しました。"]);
      }
    }

    var verdict := Verify(rules, request.constraints, request.input, draft.text);
    VerdictShape(rules, request.constraints, request.input, draft.text, verdict.riskFlags, verdict.reason);
    if runtimeFailure.Some? {
      verdict := verdict.(sendOriginal := true, reason := runtimeFailure,
                          riskFlags := verdict.riskFlags + [RuntimeFallback]);
    }
    if verdict.sendOriginal && Trim(draft.text) != Trim(request.input) {
      draft := Draft(Trim(request.input), ["圧縮結果の要件保持を確認できなかったため原文を返しました。"]);
      fallbackApplied := true;
    }

    var before := TokenEstimator.Estimate(request.input);
    var after := TokenEstimator.Estimate(draft.text);
    var result := Compression(
      profile.id, profile.modelRef, profile.runtimeRef, draft.text, verdict.preserved, draft.removed,
      verdict.riskFlags, verdict.sendOriginal, verdict.reason,
      Metrics(before, after, |request.input|, |draft.text|));
    outcome := Ok(Observed(result, observation, fallbackApplied));
  }

  lemma InputIsBlank(input: string)
    ensures Trim(input) == [] <==> Blank(input)
  {
    TrimIsBlank(IsWhitespace, input);
  }
}
