/** The settings of the user interface and their normal form (ui/web/src/lib.rs). */
module UiSettings {
  import opened Text

  const SCHEMA_VERSION: nat := 1

  /** A JSON value, about which nothing is known. */
  type Value(==, !new)

  /** `extra` holds the keys that this version does not know. */
  datatype Fields = Fields(
    schemaVersion: nat,
    profile: Option<string>, mode: Option<string>, task: Option<string>,
    level: Option<nat>,
    theme: Option<string>, cpuEngine: Option<string>, threadMode: Option<string>,
    generationThreads: Option<nat>, batchThreads: Option<nat>,
    extra: map<string, Value>)

  const U8_MAX: nat := 0xFF
  const U32_MAX: nat := 0xFFFF_FFFF

  /** The keys of the fields, which never get into `extra`. */
  const FIELD_NAMES: set<string> := {
    "schema_version", "profile", "mode", "task", "level", "theme", "cpu_engine", "thread_mode",
    "generation_threads", "batch_threads"}

  predicate IsWithin(n: Option<nat>, limit: nat) { n.Some? ==> n.value <= limit }

  /** What the fields of the source's type can hold. */
  predicate IsSettings(s: Fields) {
    && s.schemaVersion <= U32_MAX && IsWithin(s.level, U8_MAX)
    && IsWithin(s.generationThreads, U32_MAX) && IsWithin(s.batchThreads, U32_MAX)
    && s.extra.Keys !! FIELD_NAMES
  }

  const DEFAULT_FIELDS: Fields :=
    Fields(SCHEMA_VERSION, None, None, None, None, None, None, None, None, None, map[])

  type Settings = s: Fields | IsSettings(s) witness DEFAULT_FIELDS

  const DEFAULT: Settings := DEFAULT_FIELDS

  function NormalizedText(text: Option<string>): Option<string> {
    match text
    case None => None
    case Some(s) => if Trim(s) == [] then None else Some(Trim(s))
  }

  function OneOf(text: Option<string>, allowed: set<string>): Option<string> {
    if text.Some? && text.value in allowed then text else None
  }

  function Clamped(level: nat): nat { if level < 1 then 1 else if level > 3 then 3 else level }

  function Positive(threads: Option<nat>): Option<nat> { if threads == Some(0) then None else threads }

  const THEMES: set<string> := {"light", "dark"}
  const ENGINES: set<string> := {"auto", "compatible", "avx2", "avx512"}
  const THREAD_MODES: set<string> := {"auto", "manual"}

  function Normalized(s: Settings): Settings {
    Fields(
      SCHEMA_VERSION,
      NormalizedText(s.profile), NormalizedText(s.mode), NormalizedText(s.task),
      if s.level.Some? then Some(Clamped(s.level.value)) else None,
      OneOf(NormalizedText(s.theme), THEMES),
      OneOf(NormalizedText(s.cpuEngine), ENGINES),
      OneOf(NormalizedText(s.threadMode), THREAD_MODES),
      Positive(s.generationThreads), Positive(s.batchThreads),
      s.extra)
  }

  /** A text that is given is trimmed and not empty. */
  predicate IsNormalText(text: Option<string>) {
    text.Some? ==> text.value != [] && !IsWhitespace(text.value[0]) && !IsWhitespace(text.value[|text.value| - 1])
  }

  predicate IsNormal(s: Settings) {
    && s.schemaVersion == 1
    && IsNormalText(s.profile) && IsNormalText(s.mode) && IsNormalText(s.task)
    && (s.level.Some? ==> 1 <= s.level.value <= 3)
    && (s.theme.Some? ==> s.theme.value in THEMES)
    && (s.cpuEngine.Some? ==> s.cpuEngine.value in ENGINES)
    && (s.threadMode.Some? ==> s.threadMode.value in THREAD_MODES)
    && (s.generationThreads.Some? ==> s.generationThreads.value > 0)
    && (s.batchThreads.Some? ==> s.batchThreads.value > 0)
  }

  lemma TextIsNormal(text: Option<string>)
    ensures IsNormalText(NormalizedText(text))
    ensures IsNormalText(text) ==> NormalizedText(text) == text
  {
    if text.Some? {
      TrimBySplits(IsWhitespace, text.value);
      if IsNormalText(text) {
        TrimKeeps(IsWhitespace, text.value);
      }
    }
  }

  lemma ChoiceIsNormal(text: Option<string>, allowed: set<string>)
    requires forall a :: a in allowed ==> IsNormalText(Some(a))
    ensures text.Some? && text.value in allowed ==> OneOf(NormalizedText(text), allowed) == text
  {
    TextIsNormal(text);
  }

  /** Normalising yields a normal form and changes nothing else: exactly the normal settings stay as
      they are, so a second pass changes nothing, and unknown keys are kept. */
  lemma NormalizedIsNormal(s: Settings)
    ensures IsNormal(Normalized(s)) && Normalized(s).extra == s.extra
    ensures Normalized(s) == s <==> IsNormal(s)
    ensures Normalized(Normalized(s)) == Normalized(s)
  {
    FixedIsNormal(s);
    FixedIsNormal(Normalized(s));
    TextsAreNormal(s);
  }

  lemma TextsAreNormal(s: Settings)
    ensures IsNormal(Normalized(s))
  {
    TextIsNormal(s.profile);
    TextIsNormal(s.mode);
    TextIsNormal(s.task);
    hide NormalizedText, IsNormalText;
  }

  lemma FixedIsNormal(s: Settings)
    ensures Normalized(s) == s <==> IsNormal(s)
  {
    if IsNormal(s) {
      TextIsNormal(s.profile);
      TextIsNormal(s.mode);
      TextIsNormal(s.task);
      hide NormalizedText, IsNormalText;
      ThemesAreNormal(s.theme, s.cpuEngine, s.threadMode);
    } else {
      TextsAreNormal(s);
    }
  }

  lemma ThemesAreNormal(theme: Option<string>, engine: Option<string>, mode: Option<string>)
    ensures theme.Some? && theme.value in THEMES ==> OneOf(NormalizedText(theme), THEMES) == theme
    ensures engine.Some? && engine.value in ENGINES ==> OneOf(NormalizedText(engine), ENGINES) == engine
    ensures mode.Some? && mode.value in THREAD_MODES ==> OneOf(NormalizedText(mode), THREAD_MODES) == mode
    ensures theme.None? ==> OneOf(NormalizedText(theme), THEMES) == theme
    ensures engine.None? ==> OneOf(NormalizedText(engine), ENGINES) == engine
    ensures mode.None? ==> OneOf(NormalizedText(mode), THREAD_MODES) == mode
  {
    ChoiceIsNormal(theme, THEMES);
    ChoiceIsNormal(engine, ENGINES);
    ChoiceIsNormal(mode, THREAD_MODES);
  }

  /** A blank text becomes none, any other one loses the blanks around it. */
  ghost predicate CleansTo(before: Option<string>, after: Option<string>) {
    match before
    case None => after.None?
    case Some(s) =>
      if Blank(s) then after.None?
      else after.Some? && IsNormalText(after) && IsInside(after.value, s)
  }

  ghost predicate IsInside(part: string, s: string) {
    exists i: nat, j: nat :: IsCut(part, s, i, j)
  }

  /** `part` is `s` without the blanks in front of `i` and from `j` on. */
  ghost predicate IsCut(part: string, s: string, i: nat, j: nat) {
    i <= j <= |s| && Blank(s[..i]) && Blank(s[j..]) && part == s[i..j]
  }

  lemma TextIsCleaned(text: Option<string>)
    ensures CleansTo(text, NormalizedText(text))
  {
    TextIsNormal(text);
    if text.Some? {
      TrimIsBlank(IsWhitespace, text.value);
      TrimBySplits(IsWhitespace, text.value);
      assert IsCut(Trim(text.value), text.value, TrimStartIndex(IsWhitespace, text.value),
        TrimEndIndex(IsWhitespace, text.value));
    }
  }

  lemma BlankBefore(s: string, k: nat, i: nat)
    requires i < k <= |s| && Blank(s[..k])
    ensures IsWhitespace(s[i])
  {
    assert s[..k][i] == s[i];
  }

  lemma BlankBehind(s: string, k: nat, i: nat)
    requires k < i <= |s| && Blank(s[k..])
    ensures IsWhitespace(s[i - 1])
  {
    assert s[k..][i - 1 - k] == s[i - 1];
  }

  lemma CutsAgree(s: string, a: string, i: nat, j: nat, b: string, k: nat, n: nat)
    requires IsCut(a, s, i, j) && IsCut(b, s, k, n) && IsNormalText(Some(a)) && IsNormalText(Some(b))
    ensures i == k && j == n
  {
    assert a[0] == s[i] && a[|a| - 1] == s[j - 1];
    assert b[0] == s[k] && b[|b| - 1] == s[n - 1];
    hide IsWhitespace, Blank;
    if i < k {
      BlankBefore(s, k, i);
    } else if k < i {
      BlankBefore(s, i, k);
    }
    if j < n {
      BlankBehind(s, j, n);
    } else if n < j {
      BlankBehind(s, n, j);
    }
  }

  lemma InsideIsUnique(s: string, a: string, b: string)
    requires IsInside(a, s) && IsInside(b, s) && IsNormalText(Some(a)) && IsNormalText(Some(b))
    ensures a == b
  {
    var i: nat, j: nat :| IsCut(a, s, i, j);
    var k: nat, n: nat :| IsCut(b, s, k, n);
    CutsAgree(s, a, i, j, b, k, n);
    CutIsSlice(a, s, i, j);
    CutIsSlice(b, s, k, n);
    hide IsCut, IsNormalText;
  }

  lemma CutIsSlice(part: string, s: string, i: nat, j: nat)
    requires IsCut(part, s, i, j)
    ensures i <= j <= |s| && part == s[i..j]
  {
  }

  lemma CleanedIsUnique(before: Option<string>, a: Option<string>, b: Option<string>)
    requires CleansTo(before, a) && CleansTo(before, b)
    ensures a == b
  {
    hide IsInside, Blank;
    if before.Some? && !Blank(before.value) {
      InsideIsUnique(before.value, a.value, b.value);
    }
  }

  /** A choice is kept, without the blanks around it, exactly when it is one of those allowed. */
  ghost predicate Chooses(before: Option<string>, after: Option<string>, allowed: set<string>) {
    && (after.Some? ==> after.value in allowed)
    && forall a :: a in allowed ==> (after == Some(a) <==> CleansTo(before, Some(a)))
  }

  lemma ChoiceIsKept(before: Option<string>, allowed: set<string>)
    ensures Chooses(before, OneOf(NormalizedText(before), allowed), allowed)
  {
    TextIsCleaned(before);
    hide CleansTo, NormalizedText;
    forall a | CleansTo(before, Some(a)) ensures NormalizedText(before) == Some(a) {
      CleanedIsUnique(before, Some(a), NormalizedText(before));
    }
  }

  /** Field by field, for settings of any kind. */
  lemma EveryFieldNormalized(s: Settings)
    ensures var r := Normalized(s);
      && r.schemaVersion == 1
      && CleansTo(s.profile, r.profile) && CleansTo(s.mode, r.mode) && CleansTo(s.task, r.task)
      && r.level == (match s.level
        case None => None
        case Some(level) => if level == 0 then Some(1) else if level >= 4 then Some(3) else Some(level))
      && Chooses(s.theme, r.theme, {"light", "dark"})
      && Chooses(s.cpuEngine, r.cpuEngine, {"auto", "compatible", "avx2", "avx512"})
      && Chooses(s.threadMode, r.threadMode, {"auto", "manual"})
      && r.generationThreads == (if s.generationThreads == Some(0) then None else s.generationThreads)
      && r.batchThreads == (if s.batchThreads == Some(0) then None else s.batchThreads)
      && r.extra == s.extra
  {
    TextIsCleaned(s.profile);
    TextIsCleaned(s.mode);
    TextIsCleaned(s.task);
    ChoiceIsKept(s.theme, THEMES);
    ChoiceIsKept(s.cpuEngine, ENGINES);
    ChoiceIsKept(s.threadMode, THREAD_MODES);
    hide CleansTo, Chooses, NormalizedText, OneOf;
  }

  /** Keys of the stored settings that the incoming ones lack are added to them. */
  function Merged(incoming: Settings, stored: Settings): (r: Settings)
    ensures r.(extra := incoming.extra) == incoming
    ensures r.extra.Keys == incoming.extra.Keys + stored.extra.Keys
    ensures forall key :: key in incoming.extra ==> r.extra[key] == incoming.extra[key]
    ensures forall key :: key in stored.extra && key !in incoming.extra ==> r.extra[key] == stored.extra[key]
  {
    incoming.(extra := stored.extra + incoming.extra)
  }
}
