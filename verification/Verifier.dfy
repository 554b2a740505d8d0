/** The verdict on a compressed draft (compression/verifier.rs). */
module Verifier {
  import opened Text
  import opened Extractors
  import opened Requirements

  datatype Constraints = Constraints(
    codeBlocks: bool, fileNames: bool, errorMessages: bool, numbers: bool, negations: bool)

  datatype Check = CodeBlocks | FileNames | ErrorMessages | Numbers | Negations

  /** What the verifier looks up: the clean-up of the input before it is searched, the file names of a
      text, and the marker tables. */
  datatype Rules = Rules(
    normalized: string -> string,
    fileNames: string -> seq<string>,
    mentionsError: string -> bool,
    numbers: NumberRules,
    hasConstraint: string -> bool,
    keepsNegations: (string, string) -> bool,
    constraintExamples: (string, string) -> seq<string>)

  datatype CheckStatus = NotApplicable | Preserved | Missing(values: seq<string>)

  function Lacking(input: seq<string>, found: string -> bool): (r: seq<string>)
    ensures forall v :: v in r <==> v in input && !found(v)
  {
    if input == [] then []
    else
      assert forall v :: v in input <==> v == input[0] || v in input[1..];
      (if found(input[0]) then [] else [input[0]]) + Lacking(input[1..], found)
  }

  function CheckValues(enabled: bool, input: seq<string>, found: string -> bool): (r: CheckStatus)
    ensures r.NotApplicable? <==> !enabled || input == []
    ensures r.Preserved? <==> enabled && input != [] && forall v :: v in input ==> found(v)
    ensures r.Missing? ==> forall v :: v in r.values <==> v in input && !found(v)
  {
    if !enabled || input == [] then NotApplicable
    else
      var missing := Lacking(input, found);
      if missing == [] then
        assert forall v :: v !in missing;
        Preserved
      else
        assert missing[0] in missing;
        Missing(missing)
  }

  function CheckExactValues(enabled: bool, input: seq<string>, output: seq<string>): CheckStatus {
    CheckValues(enabled, input, v => v in output)
  }

  predicate EqualIgnoringCase(a: string, b: string) { LowerAsciiText(a) == LowerAsciiText(b) }

  function CheckCaseInsensitiveValues(enabled: bool, input: seq<string>, output: seq<string>): CheckStatus {
    CheckValues(enabled, input, v => exists i :: 0 <= i < |output| && EqualIgnoringCase(output[i], v))
  }

  function CheckValuesInText(enabled: bool, input: seq<string>, output: string): CheckStatus {
    CheckValues(enabled, input, v => Contains(output, v))
  }

  function CheckNegations(rules: Rules, enabled: bool, input: string, output: string): CheckStatus {
    if !enabled || !rules.hasConstraint(input) then NotApplicable
    else if rules.keepsNegations(input, output) then Preserved
    else Missing(rules.constraintExamples(rules.normalized(input), output))
  }

  // ---------- What the checks mean ----------

  predicate Enabled(wanted: Constraints, check: Check) {
    match check
    case CodeBlocks => wanted.codeBlocks
    case FileNames => wanted.fileNames
    case ErrorMessages => wanted.errorMessages
    case Numbers => wanted.numbers
    case Negations => wanted.negations
  }

  /** The input has something that the check protects. */
  ghost predicate Protects(rules: Rules, input: string, check: Check) {
    match check
    case CodeBlocks => FencedCodeBlocks(rules.normalized(input)) != []
    case FileNames => rules.fileNames(rules.normalized(input)) != []
    case ErrorMessages => exists v :: IsErrorLiteral(rules.mentionsError, rules.normalized(input), v)
    case Numbers => exists v :: IsRequiredNumber(rules.numbers, rules.normalized(input), v)
    case Negations => rules.hasConstraint(input)
  }

  /** The same character, or the small and the capital form of one ASCII letter. */
  predicate IsSameLetter(c: char, d: char) {
    || c == d
    || ('a' <= c <= 'z' && c as int == d as int + 32) || ('A' <= c <= 'Z' && c as int + 32 == d as int)
  }

  predicate IsSameName(a: string, b: string) { |a| == |b| && forall i :: 0 <= i < |a| ==> IsSameLetter(a[i], b[i]) }

  ghost predicate HasFileName(rules: Rules, draft: string, name: string) {
    exists other :: other in rules.fileNames(draft) && IsSameName(other, name)
  }

  lemma SameNameIsEqual(a: string, b: string)
    ensures IsSameName(a, b) <==> EqualIgnoringCase(a, b)
  {
    if EqualIgnoringCase(a, b) {
      forall i | 0 <= i < |a| ensures IsSameLetter(a[i], b[i]) {
        assert LowerAsciiText(a)[i] == LowerAsciiText(b)[i];
      }
    }
  }

  /** Everything that the check protects in the input is found in the draft. */
  ghost predicate Keeps(rules: Rules, input: string, draft: string, check: Check) {
    match check
    case CodeBlocks => forall v :: v in FencedCodeBlocks(rules.normalized(input)) ==> v in FencedCodeBlocks(draft)
    case FileNames => forall v :: v in rules.fileNames(rules.normalized(input)) ==> HasFileName(rules, draft, v)
    case ErrorMessages =>
      forall v :: IsErrorLiteral(rules.mentionsError, rules.normalized(input), v) ==> IsSubstring(v, draft)
    case Numbers => forall v :: IsRequiredNumber(rules.numbers, rules.normalized(input), v) ==> HasNumber(draft, v)
    case Negations => rules.keepsNegations(input, draft)
  }

  ghost predicate Applies(rules: Rules, wanted: Constraints, input: string, check: Check) {
    Enabled(wanted, check) && Protects(rules, input, check)
  }

  ghost predicate Accepts(rules: Rules, wanted: Constraints, input: string, draft: string) {
    && !Blank(draft)
    && forall check :: Applies(rules, wanted, input, check) ==> Keeps(rules, input, draft, check)
  }

  /** What the check protects and the draft does not have; for negations, the examples that are shown. */
  ghost predicate IsLost(rules: Rules, input: string, draft: string, check: Check, value: string) {
    var text := rules.normalized(input);
    match check
    case CodeBlocks => IsFencedBlock(text, value) && !IsFencedBlock(draft, value)
    case FileNames => value in rules.fileNames(text) && !HasFileName(rules, draft, value)
    case ErrorMessages => IsMentioned(rules.mentionsError, text, value) && !IsSubstring(value, draft)
    case Numbers => IsNeeded(rules.numbers, text, value) && !HasNumber(draft, value)
    case Negations => value in rules.constraintExamples(text, draft)
  }

  /** A status tells truthfully whether its check applies, whether the draft passes, and what is lost. */
  ghost predicate Tells(status: CheckStatus, rules: Rules, wanted: Constraints, input: string, draft: string,
                        check: Check) {
    && (status.NotApplicable? <==> !Applies(rules, wanted, input, check))
    && (status.Preserved? <==> Applies(rules, wanted, input, check) && Keeps(rules, input, draft, check))
    && (status.Missing? ==> forall v :: v in status.values <==> IsLost(rules, input, draft, check, v))
  }

  /** What a draft has to keep, in terms of its characters. */
  ghost predicate IsFaithful(rules: Rules, wanted: Constraints, input: string, draft: string) {
    var text := rules.normalized(input);
    && !Blank(draft)
    && (wanted.codeBlocks ==> forall v :: IsFencedBlock(text, v) ==> IsFencedBlock(draft, v))
    && (wanted.fileNames ==> forall v :: v in rules.fileNames(text) ==> HasFileName(rules, draft, v))
    && (wanted.errorMessages ==> forall v :: IsMentioned(rules.mentionsError, text, v) ==> IsSubstring(v, draft))
    && (wanted.numbers ==> forall v :: IsNeeded(rules.numbers, text, v) ==> HasNumber(draft, v))
    && (wanted.negations && rules.hasConstraint(input) ==> rules.keepsNegations(input, draft))
  }

  lemma KeepsExactly(rules: Rules, input: string, draft: string, check: Check)
    requires check != Negations
    ensures Keeps(rules, input, draft, check) <==> forall v :: !IsLost(rules, input, draft, check, v)
  {
    hide IsErrorLiteral, IsMentioned, IsRequiredNumber, IsNeeded, HasNumber, IsFencedBlock, FencedCodeBlocks;
    hide HasFileName, IsSubstring;
    var text := rules.normalized(input);
    match check
    case CodeBlocks =>
      forall v ensures IsLost(rules, input, draft, check, v) <==>
        v in FencedCodeBlocks(text) && v !in FencedCodeBlocks(draft) {
        BlocksExactly(text, v);
        BlocksExactly(draft, v);
      }
    case FileNames =>
      forall v ensures IsLost(rules, input, draft, check, v) <==>
        v in rules.fileNames(text) && !HasFileName(rules, draft, v) {
      }
    case ErrorMessages =>
      forall v ensures IsLost(rules, input, draft, check, v) <==>
        IsErrorLiteral(rules.mentionsError, text, v) && !IsSubstring(v, draft) {
        MentionedExactly(rules.mentionsError, text, v);
      }
    case Numbers =>
      forall v ensures IsLost(rules, input, draft, check, v) <==>
        IsRequiredNumber(rules.numbers, text, v) && !HasNumber(draft, v) {
        NeededExactly(rules.numbers, text, v);
      }
  }

  lemma UnprotectedIsKept(rules: Rules, input: string, draft: string, check: Check)
    requires check != Negations && !Protects(rules, input, check)
    ensures Keeps(rules, input, draft, check)
  {
    hide IsErrorLiteral, IsRequiredNumber, FencedCodeBlocks;
  }

  /** The draft passes a check: it loses no value, or it keeps the negations there are. */
  ghost predicate Passes(rules: Rules, input: string, draft: string, check: Check) {
    if check == Negations then rules.hasConstraint(input) ==> rules.keepsNegations(input, draft)
    else forall v :: !IsLost(rules, input, draft, check, v)
  }

  lemma PassesExactly(rules: Rules, wanted: Constraints, input: string, draft: string, check: Check)
    ensures (Applies(rules, wanted, input, check) ==> Keeps(rules, input, draft, check)) <==>
      (Enabled(wanted, check) ==> Passes(rules, input, draft, check))
  {
    if check != Negations {
      hide Protects, Keeps, IsLost;
      KeepsExactly(rules, input, draft, check);
      if !Protects(rules, input, check) {
        UnprotectedIsKept(rules, input, draft, check);
      }
    } else {
      hide IsLost;
    }
  }

  /** The verifier accepts exactly the faithful drafts. */
  lemma AcceptsExactly(rules: Rules, wanted: Constraints, input: string, draft: string)
    ensures Accepts(rules, wanted, input, draft) <==> IsFaithful(rules, wanted, input, draft)
  {
    hide Applies, Keeps, Passes, Blank, IsFaithful, Enabled;
    forall check: Check
      ensures (Applies(rules, wanted, input, check) ==> Keeps(rules, input, draft, check)) <==>
        (Enabled(wanted, check) ==> Passes(rules, input, draft, check))
    {
      PassesExactly(rules, wanted, input, draft, check);
    }
    FaithfulMeans(rules, wanted, input, draft);
  }

  lemma BlocksPass(rules: Rules, input: string, draft: string)
    ensures Passes(rules, input, draft, CodeBlocks) <==>
      forall v :: IsFencedBlock(rules.normalized(input), v) ==> IsFencedBlock(draft, v)
  {
    hide IsFencedBlock;
    assert forall v :: IsLost(rules, input, draft, CodeBlocks, v) <==>
      IsFencedBlock(rules.normalized(input), v) && !IsFencedBlock(draft, v);
  }

  lemma NamesPass(rules: Rules, input: string, draft: string)
    ensures Passes(rules, input, draft, FileNames) <==>
      forall v :: v in rules.fileNames(rules.normalized(input)) ==> HasFileName(rules, draft, v)
  {
    hide HasFileName;
    assert forall v :: IsLost(rules, input, draft, FileNames, v) <==>
      v in rules.fileNames(rules.normalized(input)) && !HasFileName(rules, draft, v);
  }

  lemma ErrorsPass(rules: Rules, input: string, draft: string)
    ensures Passes(rules, input, draft, ErrorMessages) <==>
      forall v :: IsMentioned(rules.mentionsError, rules.normalized(input), v) ==> IsSubstring(v, draft)
  {
    hide IsMentioned, IsSubstring;
    assert forall v :: IsLost(rules, input, draft, ErrorMessages, v) <==>
      IsMentioned(rules.mentionsError, rules.normalized(input), v) && !IsSubstring(v, draft);
  }

  lemma NumbersPass(rules: Rules, input: string, draft: string)
    ensures Passes(rules, input, draft, Numbers) <==>
      forall v :: IsNeeded(rules.numbers, rules.normalized(input), v) ==> HasNumber(draft, v)
  {
    hide IsNeeded, HasNumber;
    assert forall v :: IsLost(rules, input, draft, Numbers, v) <==>
      IsNeeded(rules.numbers, rules.normalized(input), v) && !HasNumber(draft, v);
  }

  lemma NegationsPass(rules: Rules, input: string, draft: string)
    ensures Passes(rules, input, draft, Negations) <==>
      (rules.hasConstraint(input) ==> rules.keepsNegations(input, draft))
  {
  }

  lemma FaithfulPasses(rules: Rules, wanted: Constraints, input: string, draft: string)
    ensures IsFaithful(rules, wanted, input, draft) <==>
      && !Blank(draft)
      && (wanted.codeBlocks ==> Passes(rules, input, draft, CodeBlocks))
      && (wanted.fileNames ==> Passes(rules, input, draft, FileNames))
      && (wanted.errorMessages ==> Passes(rules, input, draft, ErrorMessages))
      && (wanted.numbers ==> Passes(rules, input, draft, Numbers))
      && (wanted.negations ==> Passes(rules, input, draft, Negations))
  {
    hide Passes, IsFencedBlock, IsMentioned, IsNeeded, HasNumber, IsSubstring, HasFileName, Blank;
    BlocksPass(rules, input, draft);
    NamesPass(rules, input, draft);
    ErrorsPass(rules, input, draft);
    NumbersPass(rules, input, draft);
    NegationsPass(rules, input, draft);
  }

  lemma EachCheck(rules: Rules, wanted: Constraints, input: string, draft: string)
    ensures (forall check :: Enabled(wanted, check) ==> Passes(rules, input, draft, check)) <==>
      && (wanted.codeBlocks ==> Passes(rules, input, draft, CodeBlocks))
      && (wanted.fileNames ==> Passes(rules, input, draft, FileNames))
      && (wanted.errorMessages ==> Passes(rules, input, draft, ErrorMessages))
      && (wanted.numbers ==> Passes(rules, input, draft, Numbers))
      && (wanted.negations ==> Passes(rules, input, draft, Negations))
  {
    hide Passes;
    assert Enabled(wanted, CodeBlocks) == wanted.codeBlocks && Enabled(wanted, FileNames) == wanted.fileNames;
    assert Enabled(wanted, ErrorMessages) == wanted.errorMessages && Enabled(wanted, Numbers) == wanted.numbers;
    assert Enabled(wanted, Negations) == wanted.negations;
    if && (wanted.codeBlocks ==> Passes(rules, input, draft, CodeBlocks))
      && (wanted.fileNames ==> Passes(rules, input, draft, FileNames))
      && (wanted.errorMessages ==> Passes(rules, input, draft, ErrorMessages))
      && (wanted.numbers ==> Passes(rules, input, draft, Numbers))
      && (wanted.negations ==> Passes(rules, input, draft, Negations))
    {
      forall check: Check | Enabled(wanted, check) ensures Passes(rules, input, draft, check) {
        match check
        case CodeBlocks =>
        case FileNames =>
        case ErrorMessages =>
        case Numbers =>
        case Negations =>
      }
    }
  }

  lemma FaithfulMeans(rules: Rules, wanted: Constraints, input: string, draft: string)
    ensures IsFaithful(rules, wanted, input, draft) <==>
      !Blank(draft) && forall check :: Enabled(wanted, check) ==> Passes(rules, input, draft, check)
  {
    hide *;
    FaithfulPasses(rules, wanted, input, draft);
    EachCheck(rules, wanted, input, draft);
  }

  // ---------- The verdict ----------

  datatype RiskFlag = EmptyOutput | VerificationFailed | RuntimeFallback

  datatype FallbackReason =
    | OutputWasEmpty
    | ChecksFailed(missing: seq<(Check, seq<string>)>)
    | RuntimeFailed(error: string)

  datatype Verdict = Verdict(
    preserved: seq<Check>,
    riskFlags: seq<RiskFlag>,
    sendOriginal: bool,
    reason: Option<FallbackReason>)

  function PreservedChecks(checks: seq<(Check, CheckStatus)>): (r: seq<Check>)
    ensures forall c :: c in r <==> (c, Preserved) in checks
  {
    if checks == [] then []
    else
      assert forall c :: c in checks <==> c == checks[0] || c in checks[1..];
      (if checks[0].1.Preserved? then [checks[0].0] else []) + PreservedChecks(checks[1..])
  }

  function MissingChecks(checks: seq<(Check, CheckStatus)>): (r: seq<(Check, seq<string>)>)
    ensures forall c: Check, values: seq<string> :: (c, values) in r <==> (c, Missing(values)) in checks
  {
    if checks == [] then []
    else
      assert forall c :: c in checks <==> c == checks[0] || c in checks[1..];
      (if checks[0].1.Missing? then [(checks[0].0, checks[0].1.values)] else []) + MissingChecks(checks[1..])
  }

  /** The five checks on a draft, in their fixed order. */
  method RunChecks(rules: Rules, wanted: Constraints, input: string, draft: string)
    returns (code: CheckStatus, names: CheckStatus, errors: CheckStatus, numbers: CheckStatus, negations: CheckStatus)
    ensures Tells(code, rules, wanted, input, draft, CodeBlocks)
    ensures Tells(names, rules, wanted, input, draft, FileNames)
    ensures Tells(errors, rules, wanted, input, draft, ErrorMessages)
    ensures Tells(numbers, rules, wanted, input, draft, Numbers)
    ensures Tells(negations, rules, wanted, input, draft, Negations)
  {
    code := CheckBlocks(rules, wanted, input, draft);
    names := CheckNames(rules, wanted, input, draft);
    errors := CheckErrors(rules, wanted, input, draft);
    numbers := CheckNumbers(rules, wanted, input, draft);
    negations := CheckNegations(rules, wanted.negations, input, draft);
  }

  method CheckBlocks(rules: Rules, wanted: Constraints, input: string, draft: string) returns (status: CheckStatus)
    ensures Tells(status, rules, wanted, input, draft, CodeBlocks)
  {
    hide FencedCodeBlocks, IsFencedBlock;
    var text := rules.normalized(input);
    status := CheckExactValues(wanted.codeBlocks, FencedCodeBlocks(text), FencedCodeBlocks(draft));
    forall v
      ensures v in FencedCodeBlocks(text) <==> IsFencedBlock(text, v)
      ensures v in FencedCodeBlocks(draft) <==> IsFencedBlock(draft, v)
    {
      BlocksExactly(text, v);
      BlocksExactly(draft, v);
    }
  }

  method CheckNames(rules: Rules, wanted: Constraints, input: string, draft: string) returns (status: CheckStatus)
    ensures Tells(status, rules, wanted, input, draft, FileNames)
  {
    hide EqualIgnoringCase, IsSameName;
    var text := rules.normalized(input);
    status := CheckCaseInsensitiveValues(wanted.fileNames, rules.fileNames(text), rules.fileNames(draft));
    forall a: string, b: string ensures IsSameName(a, b) <==> EqualIgnoringCase(a, b) {
      SameNameIsEqual(a, b);
    }
  }

  method CheckErrors(rules: Rules, wanted: Constraints, input: string, draft: string) returns (status: CheckStatus)
    ensures Tells(status, rules, wanted, input, draft, ErrorMessages)
  {
    hide IsErrorLiteral, IsMentioned;
    var literals := ExtractErrorLiterals(rules.mentionsError, rules.normalized(input));
    status := CheckValuesInText(wanted.errorMessages, literals, draft);
    assert literals != [] ==> literals[0] in literals;
    forall v
      ensures Contains(draft, v) <==> IsSubstring(v, draft)
      ensures IsErrorLiteral(rules.mentionsError, rules.normalized(input), v) <==>
        IsMentioned(rules.mentionsError, rules.normalized(input), v)
    {
      ContainsIsSubstring(draft, v);
      MentionedExactly(rules.mentionsError, rules.normalized(input), v);
    }
  }

  method CheckNumbers(rules: Rules, wanted: Constraints, input: string, draft: string) returns (status: CheckStatus)
    ensures Tells(status, rules, wanted, input, draft, Numbers)
  {
    hide IsRequiredNumber, IsNeeded, HasNumber;
    var required := ExtractNumbers(rules.numbers, rules.normalized(input));
    var actual := ExtractAllNumbers(draft);
    status := CheckExactValues(wanted.numbers, required, actual);
    assert required != [] ==> required[0] in required;
    forall v ensures IsRequiredNumber(rules.numbers, rules.normalized(input), v) <==>
      IsNeeded(rules.numbers, rules.normalized(input), v) {
      NeededExactly(rules.numbers, rules.normalized(input), v);
    }
  }

  function StatusOf(code: CheckStatus, names: CheckStatus, errors: CheckStatus, numbers: CheckStatus,
                    negations: CheckStatus, check: Check): CheckStatus {
    match check
    case CodeBlocks => code
    case FileNames => names
    case ErrorMessages => errors
    case Numbers => numbers
    case Negations => negations
  }

  function Listed(code: CheckStatus, names: CheckStatus, errors: CheckStatus, numbers: CheckStatus,
                  negations: CheckStatus):
    seq<(Check, CheckStatus)>
  {
    [(CodeBlocks, code), (FileNames, names), (ErrorMessages, errors), (Numbers, numbers), (Negations, negations)]
  }

  lemma ListedIs(code: CheckStatus, names: CheckStatus, errors: CheckStatus, numbers: CheckStatus,
                 negations: CheckStatus)
    ensures forall c: Check, s :: (c, s) in Listed(code, names, errors, numbers, negations) <==>
      s == StatusOf(code, names, errors, numbers, negations, c)
  {
    var checks := Listed(code, names, errors, numbers, negations);
    assert checks[0].0 == CodeBlocks && checks[1].0 == FileNames && checks[2].0 == ErrorMessages
        && checks[3].0 == Numbers && checks[4].0 == Negations;
    forall c: Check ensures (c, StatusOf(code, names, errors, numbers, negations, c)) in checks {
      match c
      case CodeBlocks => assert checks[0] in checks;
      case FileNames => assert checks[1] in checks;
      case ErrorMessages => assert checks[2] in checks;
      case Numbers => assert checks[3] in checks;
      case Negations => assert checks[4] in checks;
    }
  }

  /** Flags and reason of the verdict on a draft. */
  ghost predicate IsVerdictOn(rules: Rules, wanted: Constraints, input: string, draft: string, flags: seq<RiskFlag>,
                              reason: Option<FallbackReason>)
  {
    if Blank(draft) then flags == [EmptyOutput] && reason == Some(OutputWasEmpty)
    else if IsFaithful(rules, wanted, input, draft) then flags == [] && reason.None?
    else
      && flags == [VerificationFailed] && reason.Some? && reason.value.ChecksFailed?
      && ListsLosses(rules, wanted, input, draft, reason.value.missing)
  }

  /** The failed checks are listed, each with all that it misses. */
  ghost predicate ListsLosses(rules: Rules, wanted: Constraints, input: string, draft: string,
                              missing: seq<(Check, seq<string>)>)
  {
    && (forall c :: (exists values :: (c, values) in missing) <==>
      Applies(rules, wanted, input, c) && !Keeps(rules, input, draft, c))
    && forall c: Check, values: seq<string> :: (c, values) in missing ==>
      forall v :: v in values <==> IsLost(rules, input, draft, c, v)
  }

  /** The verdict is to send the original exactly when the draft is blank or a check that applies
      fails; requirements are reported as preserved exactly when their check applies and passes. */
  method Verify(rules: Rules, wanted: Constraints, input: string, draft: string) returns (verdict: Verdict)
    ensures !verdict.sendOriginal <==> Accepts(rules, wanted, input, draft)
    ensures !verdict.sendOriginal <==> IsFaithful(rules, wanted, input, draft)
    ensures forall c :: c in verdict.preserved <==>
      !Blank(draft) && Applies(rules, wanted, input, c) && Keeps(rules, input, draft, c)
    ensures IsVerdictOn(rules, wanted, input, draft, verdict.riskFlags, verdict.reason)
  {
    hide *;
    AcceptsExactly(rules, wanted, input, draft);
    BlankDraft(rules, wanted, input, draft);
    if Trim(draft) == [] {
      return Verdict([], [EmptyOutput], true, Some(OutputWasEmpty));
    }
    var code, names, errors, numbers, negations := RunChecks(rules, wanted, input, draft);
    Judgement(rules, wanted, input, draft, code, names, errors, numbers, negations);
    var checks := Listed(code, names, errors, numbers, negations);
    var missing := MissingChecks(checks);
    var sendOriginal := missing != [];
    verdict := Verdict(
      PreservedChecks(checks),
      if sendOriginal then [VerificationFailed] else [],
      sendOriginal,
      if sendOriginal then Some(ChecksFailed(missing)) else None);
    VerdictIs(rules, wanted, input, draft, missing);
  }

  lemma BlankDraft(rules: Rules, wanted: Constraints, input: string, draft: string)
    ensures Trim(draft) == [] <==> Blank(draft)
    ensures Blank(draft) ==> !Accepts(rules, wanted, input, draft)
    ensures Blank(draft) ==> IsVerdictOn(rules, wanted, input, draft, [EmptyOutput], Some(OutputWasEmpty))
  {
    hide Trim, Applies, Keeps, Blank;
    TrimIsBlank(IsWhitespace, draft);
    TrimDefinition(draft);
  }

  lemma TrimDefinition(s: string)
    ensures Trim(s) == TrimBy(IsWhitespace, s) && (Blank(s) <==> All(IsWhitespace, s))
  {
  }

  lemma VerdictIs(rules: Rules, wanted: Constraints, input: string, draft: string, missing: seq<(Check, seq<string>)>)
    requires !Blank(draft) && (missing == [] <==> IsFaithful(rules, wanted, input, draft))
    requires ListsLosses(rules, wanted, input, draft, missing)
    ensures IsVerdictOn(rules, wanted, input, draft, if missing != [] then [VerificationFailed] else [],
      if missing != [] then Some(ChecksFailed(missing)) else None)
  {
    hide Blank, IsFaithful, ListsLosses;
  }

  lemma VerdictShape(rules: Rules, wanted: Constraints, input: string, draft: string, flags: seq<RiskFlag>,
                     reason: Option<FallbackReason>)
    requires IsVerdictOn(rules, wanted, input, draft, flags, reason)
    ensures RuntimeFallback !in flags && (reason.None? <==> IsFaithful(rules, wanted, input, draft))
    ensures !Blank(draft) ==> flags == if IsFaithful(rules, wanted, input, draft) then [] else [VerificationFailed]
  {
    hide Keeps, Applies, ListsLosses, IsFencedBlock, IsMentioned, IsNeeded, HasNumber, IsSubstring, HasFileName;
  }

  lemma Judgement(rules: Rules, wanted: Constraints, input: string, draft: string,
                  code: CheckStatus, names: CheckStatus, errors: CheckStatus, numbers: CheckStatus,
                  negations: CheckStatus)
    requires !Blank(draft)
    requires Tells(code, rules, wanted, input, draft, CodeBlocks)
    requires Tells(names, rules, wanted, input, draft, FileNames)
    requires Tells(errors, rules, wanted, input, draft, ErrorMessages)
    requires Tells(numbers, rules, wanted, input, draft, Numbers)
    requires Tells(negations, rules, wanted, input, draft, Negations)
    ensures var checks := Listed(code, names, errors, numbers, negations);
      && (forall c :: c in PreservedChecks(checks) <==>
        Applies(rules, wanted, input, c) && Keeps(rules, input, draft, c))
      && (MissingChecks(checks) == [] <==> Accepts(rules, wanted, input, draft))
      && ListsLosses(rules, wanted, input, draft, MissingChecks(checks))
  {
    hide IsLost, Applies, Keeps, MissingChecks, PreservedChecks, Listed;
    var checks := Listed(code, names, errors, numbers, negations);
    var missing := MissingChecks(checks);
    ListedIs(code, names, errors, numbers, negations);
    forall c: Check
      ensures c in PreservedChecks(checks) <==> Applies(rules, wanted, input, c) && Keeps(rules, input, draft, c)
      ensures (exists values :: (c, values) in missing) <==>
        Applies(rules, wanted, input, c) && !Keeps(rules, input, draft, c)
    {
      var status := StatusOf(code, names, errors, numbers, negations, c);
      assert Tells(status, rules, wanted, input, draft, c);
      if status.Missing? {
        assert (c, status.values) in missing;
      }
    }
    if missing != [] {
      assert (missing[0].0, missing[0].1) in missing;
    }
    forall c: Check, values: seq<string> | (c, values) in missing
      ensures forall v :: v in values <==> IsLost(rules, input, draft, c, v)
    {
      assert StatusOf(code, names, errors, numbers, negations, c) == Missing(values);
    }
  }

  // ---------- The verifier and its own input ----------

  /** The cleaned input itself passes the four checks on values, whatever the marker tables say. */
  lemma NormalizedInputKeepsValues(rules: Rules, input: string, check: Check)
    requires check != Negations
    ensures Keeps(rules, input, rules.normalized(input), check)
  {
    var text := rules.normalized(input);
    match check
    case CodeBlocks =>
    case FileNames =>
      forall v | v in rules.fileNames(text) ensures HasFileName(rules, text, v) {
        assert IsSameName(v, v);
      }
    case ErrorMessages =>
      forall v | IsErrorLiteral(rules.mentionsError, text, v) ensures IsSubstring(v, text) {
        ErrorLiteralsOccur(rules.mentionsError, text, v);
      }
    case Numbers =>
      forall v | IsRequiredNumber(rules.numbers, text, v) ensures HasNumber(text, v) {
        RequiredNumbersOccur(rules.numbers, text, v);
      }
  }

  /** So only a blank text or a lost negation makes the verifier reject the cleaned input. */
  lemma NormalizedInputIsAccepted(rules: Rules, wanted: Constraints, input: string)
    ensures Accepts(rules, wanted, input, rules.normalized(input)) <==>
      && !Blank(rules.normalized(input))
      && (wanted.negations && rules.hasConstraint(input) ==> rules.keepsNegations(input, rules.normalized(input)))
  {
    forall check | check != Negations ensures Keeps(rules, input, rules.normalized(input), check) {
      NormalizedInputKeepsValues(rules, input, check);
    }
    assert Applies(rules, wanted, input, Negations) <==> wanted.negations && rules.hasConstraint(input);
    assert Keeps(rules, input, rules.normalized(input), Negations) <==>
      rules.keepsNegations(input, rules.normalized(input));
    hide Applies, Keeps;
  }

  /** Text added behind a draft keeps its numbers when it does not continue the last one. */
  lemma NumbersSurviveAppending(rules: Rules, input: string, draft: string, more: string)
    requires Keeps(rules, input, draft, Numbers)
    requires more == [] || draft == [] || !IsDigit(draft[|draft| - 1]) || !IsDigit(more[0])
    ensures Keeps(rules, input, draft + more, Numbers)
  {
    hide IsRequiredNumber;
    forall v | HasNumber(draft, v) ensures HasNumber(draft + more, v) {
      var whole := draft + more;
      var i: nat, j: nat :| j < |draft| + 1 && IsDigitRun(draft, i, j) && v == draft[i..j];
      assert whole[i..j] == draft[i..j];
      assert forall k :: 0 <= k < |draft| ==> whole[k] == draft[k];
      assert j < |whole| ==> whole[j] == if j < |draft| then draft[j] else more[j - |draft|];
      assert IsDigitRun(whole, i, j);
    }
  }
}
