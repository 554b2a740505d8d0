/** How many tokens a request may produce and how long a context it gets (runtime/backend.rs). */
module ContextBudget {
  import opened Numbers
  import opened Text

  const USIZE_MAX: nat := 0xFFFF_FFFF_FFFF_FFFF
  const U32_MAX: nat := 0xFFFF_FFFF
  const CONTEXT_SAFETY_MARGIN: nat := 8
  const CONTEXT_LENGTH_TIERS: seq<nat> := [1024, 2048, 4096]

  /** Addition that stops at the largest 64-bit value. */
  function SaturatingAdd(a: nat, b: nat): nat { Min(a + b, USIZE_MAX) }

  /** The output cap for a compression level, from the length of the trimmed input. */
  function EffectiveMaxOutputTokens(level: nat, input: string, defaultMaxOutput: nat): (r: nat)
    requires level <= 3
  {
    var levelCap := match level case 0 => 16 case 1 => 112 case 2 => 192 case _ => 96;
    var characters := |Trim(input)| % (U32_MAX + 1);
    var scaled := match level
      case 0 => 16
      case 1 => Min(characters * 3, U32_MAX) / 4 + 32
      case 2 => Min(characters * 3, U32_MAX) / 5 + 32
      case _ => characters / 2 + 24;
    Max(Min(Min(defaultMaxOutput, levelCap), Max(scaled, 64)), 32)
  }

  /** The cap never leaves 32..192, and it exceeds the model's own default only when that default is
      below the floor of 32. */
  lemma OutputCapRange(level: nat, input: string, defaultMaxOutput: nat)
    requires level <= 3
    ensures 32 <= EffectiveMaxOutputTokens(level, input, defaultMaxOutput) <= 192
    ensures EffectiveMaxOutputTokens(level, input, defaultMaxOutput) > defaultMaxOutput <==> defaultMaxOutput < 32
    ensures level == 0 ==> EffectiveMaxOutputTokens(level, input, defaultMaxOutput) == 32
  {
  }

  /** For long inputs and a generous model the level alone decides; for short inputs there is always
      room for 64 tokens, or 32 when nothing is to be compressed. */
  lemma OutputCapByLevel(level: nat, input: string, defaultMaxOutput: nat)
    requires level <= 3 && defaultMaxOutput >= 192
    ensures 267 <= |Trim(input)| <= U32_MAX / 3 ==>
      EffectiveMaxOutputTokens(level, input, defaultMaxOutput) == [32, 112, 192, 96][level]
    ensures |Trim(input)| <= 42 ==>
      EffectiveMaxOutputTokens(level, input, defaultMaxOutput) == if level == 0 then 32 else 64
  {
    var n := |Trim(input)|;
    if n <= U32_MAX / 3 {
      assert n % (U32_MAX + 1) == n;
    }
  }

  /** Exactly how many tokens fit: beyond 64 the input has to be long enough for its level, with three
      quarters, three fifths or one half of a token for each character. */
  lemma OutputCapExactly(level: nat, input: string, defaultMaxOutput: nat, n: nat)
    requires level <= 3 && |Trim(input)| <= 0xFFFF_FFFF && n > 32
    ensures n <= EffectiveMaxOutputTokens(level, input, defaultMaxOutput) <==>
      var length := |Trim(input)|;
      n <= defaultMaxOutput && match level
        case 0 => false
        case 1 => n <= 112 && (n <= 64 || 4 * (n - 32) <= 3 * length)
        case 2 => n <= 192 && (n <= 64 || 5 * (n - 32) <= 3 * length)
        case _ => n <= 96 && (n <= 64 || 2 * (n - 24) <= length)
  {
    var length := |Trim(input)|;
    assert length % (U32_MAX + 1) == length;
    assert U32_MAX / 4 + 32 >= 192 && U32_MAX / 5 + 32 >= 192;
  }

  function RequiredTokens(promptTokens: nat, maxOutputTokens: nat): nat {
    SaturatingAdd(SaturatingAdd(promptTokens, maxOutputTokens), CONTEXT_SAFETY_MARGIN)
  }

  predicate Fits(tier: nat, required: nat, modelContextLength: nat) {
    required <= tier <= modelContextLength
  }

  function FirstFittingTier(tiers: seq<nat>, required: nat, modelContextLength: nat): (r: Option<nat>)
    ensures r.Some? ==> r.value in tiers && Fits(r.value, required, modelContextLength)
    ensures r.None? ==> forall i :: 0 <= i < |tiers| ==> !Fits(tiers[i], required, modelContextLength)
    ensures r.Some? && (forall i, j :: 0 <= i < j < |tiers| ==> tiers[i] < tiers[j]) ==>
      forall i :: 0 <= i < |tiers| && Fits(tiers[i], required, modelContextLength) ==> r.value <= tiers[i]
  {
    if tiers == [] then None
    else if Fits(tiers[0], required, modelContextLength) then Some(tiers[0])
    else FirstFittingTier(tiers[1..], required, modelContextLength)
  }

  /** None when the prompt and the reserve do not fit the model. */
  function SelectContextLength(promptTokens: nat, maxOutputTokens: nat, modelContextLength: nat): Option<nat> {
    var required := RequiredTokens(promptTokens, maxOutputTokens);
    if required > modelContextLength then None
    else match FirstFittingTier(CONTEXT_LENGTH_TIERS, required, modelContextLength)
      case Some(tier) => Some(tier)
      case None => Some(modelContextLength)
  }

  /** A context length that could be chosen: a tier within the model, or the model's own. */
  predicate IsCandidate(n: nat, modelContextLength: nat) {
    n == modelContextLength || (n in {1024, 2048, 4096} && n <= modelContextLength)
  }

  /** A request is refused exactly when it does not fit; otherwise it gets the shortest candidate
      that holds prompt, output reserve and margin. */
  lemma SelectionIsLeast(promptTokens: nat, maxOutputTokens: nat, modelContextLength: nat)
    requires modelContextLength <= U32_MAX
    ensures var r := SelectContextLength(promptTokens, maxOutputTokens, modelContextLength);
      var need := promptTokens + maxOutputTokens + 8;
      && (r.None? <==> need > modelContextLength)
      && (r.Some? ==> need <= r.value <= modelContextLength && IsCandidate(r.value, modelContextLength))
      && (r.Some? ==> forall n: nat :: IsCandidate(n, modelContextLength) && need <= n ==> r.value <= n)
  {
    var need := promptTokens + maxOutputTokens + 8;
    var required := RequiredTokens(promptTokens, maxOutputTokens);
    assert required == Min(need, USIZE_MAX);
    var tiers := CONTEXT_LENGTH_TIERS;
    assert tiers[0] == 1024 && tiers[1] == 2048 && tiers[2] == 4096;
    assert forall n: nat :: IsCandidate(n, modelContextLength) && n >= need ==>
      n == modelContextLength || Fits(n, required, modelContextLength);
  }
}
