/** Repairing misspelled identifiers in model output (runtime/backend.rs): whole-token replacement
    and the one-edit test that finds the misspelling. */
module TokenRepair {
  import opened Sequences
  import opened Text
  import Utf8

  // ---------- Whole-token replacement ----------

  /** No identifier character touches the piece of `s` at `i..i + n`. */
  predicate IsIsolated(s: string, i: nat, n: nat)
    requires i + n <= |s|
  {
    && (i == 0 || !IsIdentifierCharacter(s[i - 1]))
    && (i + n == |s| || !IsIdentifierCharacter(s[i + n]))
  }

  ghost predicate IsIdentifier(s: string) { s != [] && All(IsIdentifierCharacter, s) }

  /** Raw matches are found left to right without overlap; only isolated ones are replaced. */
  function Scanned(s: string, typo: string, replacement: string, from: nat): string
    requires typo != [] && from <= |s|
    decreases |s| - from
  {
    match FindFrom(s, typo, from)
    case None => s[from..]
    case Some(start) =>
      var end := start + |typo|;
      s[from..start] + ((if IsIsolated(s, start, |typo|) then replacement else typo) +
        Scanned(s, typo, replacement, end))
  }

  /** The empty misspelling is found at every place, and isolated where no identifier character is near. */
  function Interspersed(s: string, replacement: string, i: nat): string
    requires i <= |s|
    decreases |s| - i
  {
    (if IsIsolated(s, i, 0) then replacement else [])
      + (if i < |s| then [s[i]] + Interspersed(s, replacement, i + 1) else [])
  }

  /** Nothing is replaced when the beginning is the only such place. */
  ghost function AtGaps(s: string, replacement: string): string {
    if exists i :: 0 < i <= |s| && IsIsolated(s, i, 0) then Interspersed(s, replacement, 0) else s
  }

  method Intersperse(value: string, replacement: string) returns (replaced: string)
    ensures replaced == AtGaps(value, replacement)
  {
    hide IsIdentifierCharacter, IsIsolated, Interspersed, Uncopied;
    replaced := "";
    var copiedUntil, start := 0, 0;
    AllUncopied(value, replacement);
    while start <= |value|
      invariant copiedUntil <= start <= |value| + 1 && copiedUntil <= |value|
      invariant copiedUntil == 0 <==> forall k :: 0 < k < start ==> !IsIsolated(value, k, 0)
      invariant Interspersed(value, replacement, 0) == replaced + Uncopied(value, replacement, copiedUntil, start)
    {
      UncopiedStep(value, replacement, copiedUntil, start, replaced);
      if IsIsolated(value, start, 0) {
        replaced := replaced + value[copiedUntil..start] + replacement;
        copiedUntil := start;
      }
      start := start + 1;
    }
    AllCopied(value, replacement, copiedUntil);
    if copiedUntil == 0 {
      replaced := value;
    } else {
      replaced := replaced + value[copiedUntil..];
    }
  }

  /** What is still to be written when the scan is at `start`. */
  function Uncopied(value: string, replacement: string, copied: nat, start: nat): string
    requires copied <= start <= |value| + 1 && copied <= |value|
  {
    if start <= |value| then value[copied..start] + Interspersed(value, replacement, start) else value[copied..]
  }

  lemma AllUncopied(value: string, replacement: string)
    ensures Interspersed(value, replacement, 0) == [] + Uncopied(value, replacement, 0, 0)
  {
    hide IsIsolated;
  }

  lemma AllCopied(value: string, replacement: string, copied: nat)
    requires copied <= |value|
    ensures Uncopied(value, replacement, copied, |value| + 1) == value[copied..]
  {
  }

  lemma PlaceAndRest(value: string, replacement: string, start: nat)
    requires start <= |value|
    ensures Interspersed(value, replacement, start) ==
      (if IsIsolated(value, start, 0) then replacement else []) + Uncopied(value, replacement, start, start + 1)
  {
    hide IsIsolated;
    if start < |value| {
      assert value[start..start + 1] == [value[start]];
    } else {
      assert value[start..] == [];
    }
  }

  lemma CopyLater(value: string, replacement: string, copied: nat, start: nat)
    requires copied <= start <= |value|
    ensures value[copied..start] + Uncopied(value, replacement, start, start + 1) ==
      Uncopied(value, replacement, copied, start + 1)
  {
    hide Interspersed;
    if start < |value| {
      SliceJoin(value, copied, start, start + 1);
      Associative(value[copied..start], value[start..start + 1], Interspersed(value, replacement, start + 1));
    } else {
      assert value[copied..start] + value[start..] == value[copied..];
    }
  }

  lemma UncopiedStep(value: string, replacement: string, copied: nat, start: nat, replaced: string)
    requires copied <= start <= |value|
    ensures replaced + Uncopied(value, replacement, copied, start) ==
      if IsIsolated(value, start, 0) then
        replaced + value[copied..start] + replacement + Uncopied(value, replacement, start, start + 1)
      else replaced + Uncopied(value, replacement, copied, start + 1)
  {
    hide IsIsolated, Interspersed;
    PlaceAndRest(value, replacement, start);
    CopyLater(value, replacement, copied, start);
    var before, rest := value[copied..start], Uncopied(value, replacement, start, start + 1);
    assert Uncopied(value, replacement, copied, start) == before + Interspersed(value, replacement, start);
    if IsIsolated(value, start, 0) {
      FourJoin(replaced, before, replacement, rest);
    } else {
      assert [] + rest == rest;
    }
  }

  lemma FourJoin(a: string, b: string, c: string, d: string)
    ensures a + (b + (c + d)) == a + b + c + d
  {
  }

  method ReplaceExactAsciiToken(value: string, typo: string, replacement: string) returns (replaced: string)
    ensures typo == [] ==> replaced == AtGaps(value, replacement)
    ensures typo != [] ==> replaced == Scanned(value, typo, replacement, 0)
    ensures IsIdentifier(typo) ==> replaced == TokensReplaced(value, typo, replacement)
    ensures typo != [] && !HidesItself(typo) ==> replaced == IsolatedReplaced(value, typo, replacement, 0)
  {
    if typo == [] {
      replaced := Intersperse(value, replacement);
    } else {
      replaced := ReplaceToken(value, typo, replacement);
    }
  }

  method ReplaceToken(value: string, typo: string, replacement: string) returns (replaced: string)
    requires typo != []
    ensures replaced == Scanned(value, typo, replacement, 0)
    ensures IsIdentifier(typo) ==> replaced == TokensReplaced(value, typo, replacement)
    ensures !HidesItself(typo) ==> replaced == IsolatedReplaced(value, typo, replacement, 0)
  {
    hide Scanned, TokensReplaced, FindFrom, IsIdentifierCharacter, IsIdentifier, HidesItself, IsolatedReplaced;
    replaced := "";
    var copiedUntil, from := 0, 0;
    var next := FindFrom(value, typo, 0);
    assert value[0..0] == [];
    while next.Some?
      invariant 0 <= copiedUntil <= from <= |value|
      invariant next == FindFrom(value, typo, from)
      invariant Scanned(value, typo, replacement, 0)
        == replaced + value[copiedUntil..from] + Scanned(value, typo, replacement, from)
      invariant copiedUntil == 0 ==> replaced == []
      decreases |value| - from
    {
      var start := next.value;
      var end := start + |typo|;
      var hasIdentifierBefore := start > 0 && IsIdentifierCharacter(value[start - 1]);
      var hasIdentifierAfter := end < |value| && IsIdentifierCharacter(value[end]);
      if hasIdentifierBefore || hasIdentifierAfter {
        ScanSkips(value, typo, replacement, replaced, copiedUntil, from, start);
      } else {
        ScanReplaces(value, typo, replacement, replaced, copiedUntil, from, start);
        replaced := replaced + value[copiedUntil..start] + replacement;
        copiedUntil := end;
      }
      from := end;
      next := FindFrom(value, typo, from);
    }
    ScanEnds(value, typo, replacement, replaced, copiedUntil, from);
    if copiedUntil == 0 {
      replaced := value;
    } else {
      replaced := replaced + value[copiedUntil..];
    }
    if IsIdentifier(typo) {
      ScanReplacesTokens(value, typo, replacement);
    }
    if !HidesItself(typo) {
      ScanIsIsolatedReplaced(value, typo, replacement, 0);
    }
  }

  lemma ScanSkips(value: string, typo: string, replacement: string, replaced: string, copied: nat, from: nat,
                  start: nat)
    requires typo != [] && copied <= from <= |value| && FindFrom(value, typo, from) == Some(start)
    requires !IsIsolated(value, start, |typo|)
    ensures var end := start + |typo|;
      replaced + value[copied..from] + Scanned(value, typo, replacement, from)
        == replaced + value[copied..end] + Scanned(value, typo, replacement, end)
  {
    hide Scanned, IsIsolated, FindFrom;
    SkippedMatch(value, typo, replacement, from, start);
    var end := start + |typo|;
    SliceJoin(value, copied, from, end);
    Regroup(replaced, value[copied..from], value[from..end], Scanned(value, typo, replacement, end));
  }

  lemma SkippedMatch(value: string, typo: string, replacement: string, from: nat, start: nat)
    requires typo != [] && from <= |value| && FindFrom(value, typo, from) == Some(start)
    requires !IsIsolated(value, start, |typo|)
    ensures Scanned(value, typo, replacement, from)
      == value[from..start + |typo|] + Scanned(value, typo, replacement, start + |typo|)
  {
    hide Scanned, IsIsolated, FindFrom;
    ScannedAtMatch(value, typo, replacement, from, start);
    SliceJoin(value, from, start, start + |typo|);
    Associative(value[from..start], typo, Scanned(value, typo, replacement, start + |typo|));
  }

  /** What the scan does at the next raw match. */
  lemma ScannedAtMatch(value: string, typo: string, replacement: string, from: nat, start: nat)
    requires typo != [] && from <= |value| && FindFrom(value, typo, from) == Some(start)
    ensures Scanned(value, typo, replacement, from) ==
      value[from..start]
        + ((if IsIsolated(value, start, |typo|) then replacement else typo) +
          Scanned(value, typo, replacement, start + |typo|))
  {
    hide FindFrom, IsIsolated;
  }

  lemma ScanReplaces(value: string, typo: string, replacement: string, replaced: string, copied: nat, from: nat,
                     start: nat)
    requires typo != [] && copied <= from <= |value| && FindFrom(value, typo, from) == Some(start)
    requires IsIsolated(value, start, |typo|)
    ensures var end := start + |typo|;
      replaced + value[copied..from] + Scanned(value, typo, replacement, from)
        == replaced + value[copied..start] + replacement + value[end..end] + Scanned(value, typo, replacement, end)
  {
    hide Scanned, FindFrom, IsIsolated;
    ScannedAtMatch(value, typo, replacement, from, start);
    var end := start + |typo|;
    SliceJoin(value, copied, from, start);
    Replaced(replaced, value[copied..from], value[from..start], replacement, Scanned(value, typo, replacement, end),
      value[end..end]);
  }

  lemma ScanEnds(value: string, typo: string, replacement: string, replaced: string, copied: nat, from: nat)
    requires typo != [] && copied <= from <= |value| && FindFrom(value, typo, from) == None
    ensures replaced + value[copied..from] + Scanned(value, typo, replacement, from) == replaced + value[copied..]
    ensures value[0..] == value && [] + value == value
  {
    SliceJoin(value, copied, from, |value|);
    Associative(replaced, value[copied..from], value[from..|value|]);
    assert value[from..|value|] == value[from..] && value[copied..|value|] == value[copied..];
  }

  // ---------- The token view ----------

  function TokenLength(s: string): (n: nat)
    ensures n <= |s| && All(IsIdentifierCharacter, s[..n])
    ensures n < |s| ==> !IsIdentifierCharacter(s[n])
  {
    LeadingRun(IsIdentifierCharacter, s)
  }

  /** Splits into maximal identifiers and single other characters, replaces the identifiers that are
      exactly the misspelling, and joins again. */
  function TokensReplaced(s: string, typo: string, replacement: string): string
    decreases |s|
  {
    if s == [] then []
    else
      var n := TokenLength(s);
      if n == 0 then [s[0]] + TokensReplaced(s[1..], typo, replacement)
      else (if s[..n] == typo then replacement else s[..n]) + TokensReplaced(s[n..], typo, replacement)
  }

  /** The token view of what follows position `i`, which may lie inside an identifier. */
  function TokensFrom(s: string, typo: string, replacement: string, i: nat): string
    requires i <= |s|
  {
    if 0 < i < |s| && IsIdentifierCharacter(s[i - 1]) && IsIdentifierCharacter(s[i]) then
      var n := TokenLength(s[i..]);
      s[i..i + n] + TokensReplaced(s[i + n..], typo, replacement)
    else TokensReplaced(s[i..], typo, replacement)
  }

  predicate IsTokenAt(s: string, typo: string, i: nat) {
    Occurs(s, typo, i) && IsIsolated(s, i, |typo|)
  }

  lemma TokenStartsHere(s: string, typo: string, i: nat)
    requires IsIdentifier(typo) && i < |s| && IsIdentifierCharacter(s[i])
    requires i == 0 || !IsIdentifierCharacter(s[i - 1])
    ensures s[i..][..TokenLength(s[i..])] == typo <==> IsTokenAt(s, typo, i)
  {
    var rest := s[i..];
    var n := TokenLength(rest);
    SliceOf(s, i, n);
    assert n < |rest| ==> s[i + n] == rest[n];
    if IsTokenAt(s, typo, i) {
      SliceOf(s, i, |typo|);
      assert |typo| < |rest| ==> rest[|typo|] == s[i + |typo|];
      RunIsUnique(rest, n, |typo|);
    }
  }

  lemma SliceOf(s: string, i: nat, n: nat)
    requires i + n <= |s|
    ensures s[i..][..n] == s[i..i + n]
  {
  }

  lemma RunIsUnique(s: string, n: nat, k: nat)
    requires n <= |s| && k <= |s| && All(IsIdentifierCharacter, s[..n]) && All(IsIdentifierCharacter, s[..k])
    requires (n < |s| ==> !IsIdentifierCharacter(s[n])) && (k < |s| ==> !IsIdentifierCharacter(s[k]))
    ensures n == k
  {
    assert forall i :: 0 <= i < n ==> s[..n][i] == s[i];
    assert forall i :: 0 <= i < k ==> s[..k][i] == s[i];
  }

  /** Copying the first character of the identifier that starts `s`, which is not replaced. */
  lemma CopiesInToken(s: string, typo: string, replacement: string, i: nat)
    requires i < |s| && IsIdentifierCharacter(s[i])
    ensures var n := TokenLength(s[i..]);
      s[i..i + n] + TokensReplaced(s[i + n..], typo, replacement) == [s[i]] + TokensFrom(s, typo, replacement, i + 1)
  {
    hide TokensReplaced;
    var n := TokenLength(s[i..]);
    var tail := TokensReplaced(s[i + n..], typo, replacement);
    assert s[i..][0] == s[i];
    SliceJoin(s, i, i + 1, i + n);
    assert s[i..i + 1] == [s[i]];
    Associative([s[i]], s[i + 1..i + n], tail);
    if n > 1 {
      assert s[i..][..n][1] == s[i + 1];
      TokenLengthDrops(s[i..], n);
      assert s[i..][1..] == s[i + 1..];
    } else {
      assert i + 1 < |s| ==> s[i + 1] == s[i..][1];
    }
  }

  lemma TokenLengthDrops(s: string, n: nat)
    requires n == TokenLength(s) > 0
    ensures TokenLength(s[1..]) == n - 1
  {
  }

  /** Where no whole misspelled token starts, the view copies one character. */
  lemma CopiesOne(s: string, typo: string, replacement: string, i: nat)
    requires IsIdentifier(typo) && i < |s| && !IsTokenAt(s, typo, i)
    ensures TokensFrom(s, typo, replacement, i) == [s[i]] + TokensFrom(s, typo, replacement, i + 1)
  {
    var rest := s[i..];
    assert rest[0] == s[i] && rest[1..] == s[i + 1..];
    if IsIdentifierCharacter(s[i]) {
      var n := TokenLength(rest);
      SliceOf(s, i, n);
      assert rest[n..] == s[i + n..];
      CopiesInToken(s, typo, replacement, i);
      if i == 0 || !IsIdentifierCharacter(s[i - 1]) {
        TokenStartsHere(s, typo, i);
      }
    }
  }

  lemma {:induction false} CopiesMany(s: string, typo: string, replacement: string, i: nat, j: nat)
    requires IsIdentifier(typo) && i <= j <= |s|
    requires forall k :: i <= k < j ==> !IsTokenAt(s, typo, k)
    ensures TokensFrom(s, typo, replacement, i) == s[i..j] + TokensFrom(s, typo, replacement, j)
    decreases j - i
  {
    hide TokensFrom, IsTokenAt, IsIdentifier;
    if i < j {
      CopiesOne(s, typo, replacement, i);
      CopiesMany(s, typo, replacement, i + 1, j);
      SliceJoin(s, i, i + 1, j);
      assert s[i..i + 1] == [s[i]];
      Associative([s[i]], s[i + 1..j], TokensFrom(s, typo, replacement, j));
    } else {
      assert s[i..j] == [];
    }
  }

  /** At the border of an identifier the view splits. */
  lemma SplitsAtBorder(s: string, typo: string, replacement: string, i: nat)
    requires i <= |s|
    requires i == 0 || i == |s| || !IsIdentifierCharacter(s[i - 1]) || !IsIdentifierCharacter(s[i])
    ensures TokensFrom(s, typo, replacement, i) == TokensReplaced(s[i..], typo, replacement)
  {
  }

  lemma ReplacesFirst(s: string, typo: string, replacement: string)
    requires s != [] && typo != [] && s[..TokenLength(s)] == typo
    ensures TokensReplaced(s, typo, replacement) == replacement + TokensReplaced(s[|typo|..], typo, replacement)
  {
    hide TokenLength;
    assert |s[..TokenLength(s)]| == TokenLength(s);
  }

  lemma WholeToken(s: string, typo: string, i: nat)
    requires IsIdentifier(typo) && IsTokenAt(s, typo, i)
    ensures typo != [] && i + |typo| <= |s| && s[i..][..TokenLength(s[i..])] == typo
    ensures i == 0 || !IsIdentifierCharacter(s[i - 1])
    ensures i + |typo| == |s| || !IsIdentifierCharacter(s[i + |typo|])
  {
    assert s[i] == typo[0];
    TokenStartsHere(s, typo, i);
  }

  lemma ReplacesToken(s: string, typo: string, replacement: string, i: nat)
    requires IsIdentifier(typo) && IsTokenAt(s, typo, i)
    ensures TokensFrom(s, typo, replacement, i) == replacement + TokensFrom(s, typo, replacement, i + |typo|)
  {
    hide TokensFrom, TokensReplaced, TokenLength, IsIdentifierCharacter, IsIdentifier, IsTokenAt;
    WholeToken(s, typo, i);
    SplitsAtBorder(s, typo, replacement, i);
    SplitsAtBorder(s, typo, replacement, i + |typo|);
    ReplacesFirst(s[i..], typo, replacement);
    DropTwice(s, i, i + |typo|);
  }

  /** A raw match that is not a whole token hides none: every start it covers lies in an identifier. */
  lemma SkippedMatchHidesNothing(s: string, typo: string, start: nat)
    requires IsIdentifier(typo) && Occurs(s, typo, start) && !IsIsolated(s, start, |typo|)
    ensures forall k :: start <= k < start + |typo| ==> !IsTokenAt(s, typo, k)
  {
    forall k | start < k < start + |typo| ensures !IsTokenAt(s, typo, k) {
      assert s[k - 1] == typo[k - 1 - start];
    }
  }

  /** What the scan does with the match at `start` is what the token view does there. */
  lemma MatchIsTokenView(s: string, typo: string, replacement: string, start: nat)
    requires IsIdentifier(typo) && Occurs(s, typo, start)
    ensures TokensFrom(s, typo, replacement, start) ==
      (if IsIsolated(s, start, |typo|) then replacement else typo) + TokensFrom(s, typo, replacement, start + |typo|)
  {
    hide TokensFrom, IsIdentifier;
    if IsIsolated(s, start, |typo|) {
      ReplacesToken(s, typo, replacement, start);
    } else {
      SkippedMatchHidesNothing(s, typo, start);
      CopiesMany(s, typo, replacement, start, start + |typo|);
    }
  }

  lemma NothingFromEnd(s: string, typo: string, replacement: string)
    ensures TokensFrom(s, typo, replacement, |s|) == []
  {
  }

  lemma {:induction false} ScanIsTokenView(s: string, typo: string, replacement: string, from: nat)
    requires IsIdentifier(typo) && from <= |s|
    ensures Scanned(s, typo, replacement, from) == TokensFrom(s, typo, replacement, from)
    decreases |s| - from
  {
    hide TokensFrom, IsIsolated, Scanned, IsTokenAt, IsIdentifier;
    var found := FindFrom(s, typo, from);
    NoTokenWithoutMatch(s, typo);
    if found.None? {
      CopiesMany(s, typo, replacement, from, |s|);
      NothingFromEnd(s, typo, replacement);
      ScannedNothing(s, typo, replacement, from);
      assert s[from..|s|] + [] == s[from..];
    } else {
      CopiesMany(s, typo, replacement, from, found.value);
      ScanIsTokenView(s, typo, replacement, found.value + |typo|);
      MatchIsTokenView(s, typo, replacement, found.value);
      ScannedAtMatch(s, typo, replacement, from, found.value);
    }
  }

  lemma NoTokenWithoutMatch(s: string, typo: string)
    requires IsIdentifier(typo)
    ensures typo != [] && forall k: nat :: IsTokenAt(s, typo, k) ==> Occurs(s, typo, k)
  {
  }

  lemma ScannedNothing(s: string, typo: string, replacement: string, from: nat)
    requires typo != [] && from <= |s| && FindFrom(s, typo, from) == None
    ensures Scanned(s, typo, replacement, from) == s[from..]
  {
  }

  /** For an identifier the raw scan is exactly replacement of whole tokens. */
  lemma ScanReplacesTokens(s: string, typo: string, replacement: string)
    requires IsIdentifier(typo)
    ensures Scanned(s, typo, replacement, 0) == TokensReplaced(s, typo, replacement)
  {
    ScanIsTokenView(s, typo, replacement, 0);
    assert s[0..] == s;
  }

  // ---------- Misspellings that are no identifiers ----------

  /** The misspelling can begin again at its own position `k`, behind a character of no identifier. */
  predicate RestartsAt(typo: string, k: int) {
    0 < k < |typo| && typo[k..] == typo[..|typo| - k] && !IsIdentifierCharacter(typo[k - 1])
  }

  predicate HidesItself(typo: string) { exists k :: 0 < k < |typo| && RestartsAt(typo, k) }

  /** The specification for any misspelling: from left to right every isolated occurrence is replaced. */
  function IsolatedReplaced(s: string, typo: string, replacement: string, i: nat): string
    requires typo != [] && i <= |s|
    decreases |s| - i
  {
    if i == |s| then []
    else if IsTokenAt(s, typo, i) then replacement + IsolatedReplaced(s, typo, replacement, i + |typo|)
    else [s[i]] + IsolatedReplaced(s, typo, replacement, i + 1)
  }

  lemma {:induction false} CopiesBetween(s: string, typo: string, replacement: string, i: nat, j: nat)
    requires typo != [] && i <= j <= |s|
    requires forall k :: i <= k < j ==> !IsTokenAt(s, typo, k)
    ensures IsolatedReplaced(s, typo, replacement, i) == s[i..j] + IsolatedReplaced(s, typo, replacement, j)
    decreases j - i
  {
    hide IsTokenAt;
    if i < j {
      CopiesBetween(s, typo, replacement, i + 1, j);
      SliceJoin(s, i, i + 1, j);
      assert s[i..i + 1] == [s[i]];
      Associative([s[i]], s[i + 1..j], IsolatedReplaced(s, typo, replacement, j));
    } else {
      assert s[i..j] == [];
    }
  }

  /** Two overlapping occurrences of which the second is isolated make the misspelling restart. */
  lemma OverlapRestarts(s: string, typo: string, start: nat, k: nat)
    requires Occurs(s, typo, start) && start < k < start + |typo| && IsTokenAt(s, typo, k)
    ensures RestartsAt(typo, k - start)
  {
    var d, n := k - start, |typo|;
    SliceOfSlice(s, start, start + n, d, n);
    SliceOfSlice(s, k, k + n, 0, n - d);
    assert typo[d..] == typo[d..n] && typo[..n - d] == typo[0..n - d];
    assert s[k - 1] == typo[d - 1];
  }

  lemma SkipHidesNothing(s: string, typo: string, start: nat)
    requires Occurs(s, typo, start) && !IsTokenAt(s, typo, start) && !HidesItself(typo)
    ensures forall k :: start <= k < start + |typo| ==> !IsTokenAt(s, typo, k)
  {
    forall k | start < k < start + |typo| ensures !IsTokenAt(s, typo, k) {
      if IsTokenAt(s, typo, k) {
        OverlapRestarts(s, typo, start, k);
      }
    }
  }

  lemma {:induction false} ScanIsIsolatedReplaced(s: string, typo: string, replacement: string, from: nat)
    requires typo != [] && from <= |s| && !HidesItself(typo)
    ensures Scanned(s, typo, replacement, from) == IsolatedReplaced(s, typo, replacement, from)
    decreases |s| - from
  {
    hide Scanned, IsolatedReplaced, HidesItself;
    var found := FindFrom(s, typo, from);
    if found.None? {
      ScannedNothing(s, typo, replacement, from);
      CopiesBetween(s, typo, replacement, from, |s|);
      NothingAfterEnd(s, typo, replacement);
      assert s[from..|s|] + [] == s[from..];
    } else {
      var start := found.value;
      ScannedAtMatch(s, typo, replacement, from, start);
      CopiesBetween(s, typo, replacement, from, start);
      ScanIsIsolatedReplaced(s, typo, replacement, start + |typo|);
      if IsTokenAt(s, typo, start) {
        ReplacesHere(s, typo, replacement, start);
      } else {
        SkipHidesNothing(s, typo, start);
        CopiesBetween(s, typo, replacement, start, start + |typo|);
      }
    }
  }

  lemma NothingAfterEnd(s: string, typo: string, replacement: string)
    requires typo != []
    ensures IsolatedReplaced(s, typo, replacement, |s|) == []
  {
  }

  lemma ReplacesHere(s: string, typo: string, replacement: string, i: nat)
    requires typo != [] && IsTokenAt(s, typo, i)
    ensures IsolatedReplaced(s, typo, replacement, i) == replacement +
      IsolatedReplaced(s, typo, replacement, i + |typo|)
  {
  }

  // A text on which a misspelling that restarts is left alone.

  function OtherIdentifierCharacter(c: char): (d: char)
    ensures IsIdentifierCharacter(d) && d != c
  {
    if c == 'a' then 'b' else 'a'
  }

  function Hiding(typo: string, k: nat): string
    requires 0 < k < |typo|
  {
    [OtherIdentifierCharacter(typo[0])] + (typo[..k] + typo)
  }

  lemma OccurrencesInHiding(typo: string, k: nat)
    requires RestartsAt(typo, k)
    ensures var s := Hiding(typo, k);
      !Occurs(s, typo, 0) && Occurs(s, typo, 1) && !IsIsolated(s, 1, |typo|) && IsTokenAt(s, typo, k + 1)
  {
    hide IsIdentifierCharacter;
    var s, twice, n := Hiding(typo, k), typo[..k] + typo, |typo|;
    Restarted(typo, k);
    BehindOne(s[0], twice, 0, n);
    BehindOne(s[0], twice, k, k + n);
    assert s[0..n][0] == s[0] != typo[0];
    assert s[k] == twice[k - 1] == typo[k - 1];
  }

  lemma Restarted(typo: string, k: nat)
    requires 0 < k < |typo| && typo[k..] == typo[..|typo| - k]
    ensures var twice := typo[..k] + typo; twice[0..|typo|] == typo && twice[k..k + |typo|] == typo
  {
    var twice := typo[..k] + typo;
    assert twice[0..|typo|] == typo[..k] + typo[..|typo| - k];
    TakeDrop(typo, k);
  }

  lemma BehindOne(c: char, s: string, i: nat, j: nat)
    requires i <= j <= |s|
    ensures ([c] + s)[i + 1..j + 1] == s[i..j]
  {
  }

  lemma ScanLeavesHiding(typo: string, k: nat, replacement: string)
    requires RestartsAt(typo, k)
    ensures Scanned(Hiding(typo, k), typo, replacement, 0) == Hiding(typo, k)
  {
    hide Scanned, FindFrom;
    var s, n := Hiding(typo, k), |typo|;
    OccurrencesInHiding(typo, k);
    assert FindFrom(s, typo, 0) == Some(1);
    ScannedAtMatch(s, typo, replacement, 0, 1);
    assert FindFrom(s, typo, 1 + n) == None;
    ScannedNothing(s, typo, replacement, 1 + n);
    assert s[1..1 + n] == typo;
    SliceJoin(s, 0, 1, 1 + n);
    Associative(s[0..1], typo, s[1 + n..]);
    TakeDrop(s, 1 + n);
    assert s[0..1 + n] == s[..1 + n];
  }

  lemma {:induction false} NeverShrinks(s: string, typo: string, replacement: string, i: nat)
    requires typo != [] && i <= |s| && |replacement| > |typo|
    ensures |IsolatedReplaced(s, typo, replacement, i)| >= |s| - i
    decreases |s| - i
  {
    if i < |s| {
      TokenFits(s, typo, i);
      hide IsTokenAt;
      if IsTokenAt(s, typo, i) {
        NeverShrinks(s, typo, replacement, i + |typo|);
      } else {
        NeverShrinks(s, typo, replacement, i + 1);
      }
    }
  }

  lemma TokenFits(s: string, typo: string, i: nat)
    ensures IsTokenAt(s, typo, i) ==> i + |typo| <= |s|
  {
  }

  /** A longer replacement makes a text longer in which something is to be replaced. */
  lemma {:induction false} GrowsWithToken(s: string, typo: string, replacement: string, i: nat, p: nat)
    requires typo != [] && i <= p < |s| && IsTokenAt(s, typo, p) && |replacement| > |typo|
    ensures |IsolatedReplaced(s, typo, replacement, i)| > |s| - i
    decreases |s| - i
  {
    TokenFits(s, typo, i);
    hide IsTokenAt;
    if IsTokenAt(s, typo, i) {
      NeverShrinks(s, typo, replacement, i + |typo|);
    } else {
      GrowsWithToken(s, typo, replacement, i + 1, p);
    }
  }

  /** The scan replaces every isolated occurrence, in every text, exactly when the misspelling cannot
      restart inside itself behind a character of no identifier. */
  lemma ScanIsExact(typo: string)
    requires typo != []
    ensures (forall s, replacement :: Scanned(s, typo, replacement, 0) == IsolatedReplaced(s, typo, replacement, 0))
      <==> !HidesItself(typo)
  {
    hide Scanned, IsolatedReplaced;
    if !HidesItself(typo) {
      forall s, replacement ensures Scanned(s, typo, replacement, 0) == IsolatedReplaced(s, typo, replacement, 0) {
        ScanIsIsolatedReplaced(s, typo, replacement, 0);
      }
    } else {
      var k :| 0 < k < |typo| && RestartsAt(typo, k);
      var s, replacement := Hiding(typo, k), typo + typo;
      OccurrencesInHiding(typo, k);
      ScanLeavesHiding(typo, k, replacement);
      GrowsWithToken(s, typo, replacement, 0, k + 1);
      assert Scanned(s, typo, replacement, 0) != IsolatedReplaced(s, typo, replacement, 0);
    }
  }

  /** A misspelling whose first character does not come back, and every identifier, is replaced exactly. */
  lemma HidesNothing(typo: string)
    requires IsIdentifier(typo) || (typo != [] && forall i :: 0 < i < |typo| ==> typo[i] != typo[0])
    ensures !HidesItself(typo)
  {
    forall k | 0 < k < |typo| ensures !RestartsAt(typo, k) {
      assert typo[k..][0] == typo[k] && typo[..|typo| - k][0] == typo[0];
    }
  }

  /** The two misspellings in the tables that are no identifiers. */
  lemma TableIsSafe()
    ensures !HidesItself("HTT 400") && !HidesItself("LMS Studio")
  {
    HidesNothing("HTT 400");
    HidesNothing("LMS Studio");
  }

  // ---------- One edit apart ----------

  function LowerByte(b: Utf8.Byte): int {
    if 0x41 <= b <= 0x5A then b + 0x20 else b
  }

  predicate SameIgnoringCase(a: Utf8.Byte, b: Utf8.Byte) { LowerByte(a) == LowerByte(b) }

  /** Two bytes count as one exactly when they are equal or the two forms of one ASCII letter. */
  lemma SameBytesExactly(a: Utf8.Byte, b: Utf8.Byte)
    ensures SameIgnoringCase(a, b) <==> a == b || (65 <= a <= 90 && b == a + 32) || (65 <= b <= 90 && a == b + 32)
  {
  }

  ghost predicate IsSubstitutionAt(a: seq<Utf8.Byte>, b: seq<Utf8.Byte>, i: int)
    requires |a| == |b|
  {
    && 0 <= i < |a| && !SameIgnoringCase(a[i], b[i])
    && forall j :: 0 <= j < |a| && j != i ==> SameIgnoringCase(a[j], b[j])
  }

  /** One position differs. */
  ghost predicate IsSubstitution(a: seq<Utf8.Byte>, b: seq<Utf8.Byte>) {
    |a| == |b| && exists i :: IsSubstitutionAt(a, b, i)
  }

  ghost predicate IsDeletionAt(longer: seq<Utf8.Byte>, shorter: seq<Utf8.Byte>, k: int)
    requires |longer| == |shorter| + 1
  {
    && 0 <= k < |longer|
    && (forall j :: 0 <= j < k ==> SameIgnoringCase(shorter[j], longer[j]))
    && (forall j :: k <= j < |shorter| ==> SameIgnoringCase(shorter[j], longer[j + 1]))
  }

  /** Deleting one byte of `longer` gives `shorter`. */
  ghost predicate IsDeletion(longer: seq<Utf8.Byte>, shorter: seq<Utf8.Byte>) {
    |longer| == |shorter| + 1 && exists k :: IsDeletionAt(longer, shorter, k)
  }

  ghost predicate OneEditApart(a: seq<Utf8.Byte>, b: seq<Utf8.Byte>) {
    IsSubstitution(a, b) || IsDeletion(a, b) || IsDeletion(b, a)
  }

  lemma OneEditIsSymmetric(a: seq<Utf8.Byte>, b: seq<Utf8.Byte>)
    requires OneEditApart(a, b)
    ensures OneEditApart(b, a)
  {
    if IsSubstitution(a, b) {
      var i :| IsSubstitutionAt(a, b, i);
      assert IsSubstitutionAt(b, a, i);
    }
  }

  method CountMismatches(a: seq<Utf8.Byte>, b: seq<Utf8.Byte>) returns (count: nat)
    requires |a| == |b|
    ensures count == 1 <==> IsSubstitution(a, b)
  {
    count := 0;
    ghost var first := 0;
    for i := 0 to |a|
      invariant count == 0 <==> forall j :: 0 <= j < i ==> SameIgnoringCase(a[j], b[j])
      invariant count >= 1 ==> 0 <= first < i && !SameIgnoringCase(a[first], b[first])
      invariant count == 1 ==> forall j :: 0 <= j < i && j != first ==> SameIgnoringCase(a[j], b[j])
      invariant count >= 2 ==> exists j :: 0 <= j < i && j != first && !SameIgnoringCase(a[j], b[j])
    {
      if !SameIgnoringCase(a[i], b[i]) {
        if count == 0 { first := i; }
        count := count + 1;
      }
    }
    assert count == 1 ==> IsSubstitutionAt(a, b, first);
  }

  /** The greedy two-index scan: it skips one byte of the longer text at the first mismatch. */
  method SkipsOneByte(shorter: seq<Utf8.Byte>, longer: seq<Utf8.Byte>) returns (answer: bool)
    requires |longer| == |shorter| + 1
    ensures answer <==> IsDeletion(longer, shorter)
  {
    hide LowerByte;
    var shortIndex, longIndex, skipped := 0, 0, false;
    ghost var mismatch := 0;
    while shortIndex < |shorter| && longIndex < |longer|
      invariant 0 <= shortIndex <= |shorter| && longIndex == shortIndex + (if skipped then 1 else 0)
      invariant !skipped ==> forall j :: 0 <= j < shortIndex ==> SameIgnoringCase(shorter[j], longer[j])
      invariant skipped ==>
        && 0 <= mismatch <= shortIndex && mismatch < |shorter| && !SameIgnoringCase(shorter[mismatch], longer[mismatch])
        && (forall j :: 0 <= j < mismatch ==> SameIgnoringCase(shorter[j], longer[j]))
        && (forall j :: mismatch <= j < shortIndex ==> SameIgnoringCase(shorter[j], longer[j + 1]))
      decreases |longer| - longIndex
    {
      if SameIgnoringCase(shorter[shortIndex], longer[longIndex]) {
        shortIndex := shortIndex + 1;
        longIndex := longIndex + 1;
      } else if skipped {
        TwoMismatches(shorter, longer, mismatch, shortIndex);
        return false;
      } else {
        skipped, mismatch := true, shortIndex;
        longIndex := longIndex + 1;
      }
    }
    assert IsDeletionAt(longer, shorter, if skipped then mismatch else |shorter|);
    answer := true;
  }

  /** A deletion after the first mismatch keeps that mismatch; one before it keeps the second. */
  lemma TwoMismatches(shorter: seq<Utf8.Byte>, longer: seq<Utf8.Byte>, first: nat, second: nat)
    requires |longer| == |shorter| + 1 && first <= second < |shorter|
    requires !SameIgnoringCase(shorter[first], longer[first]) && !SameIgnoringCase(shorter[second], longer[second + 1])
    ensures !IsDeletion(longer, shorter)
  {
    forall k ensures !IsDeletionAt(longer, shorter, k) {
    }
  }

  method AsciiIdentifiersAreOneEditApart(left: seq<Utf8.Byte>, right: seq<Utf8.Byte>) returns (answer: bool)
    ensures answer <==> OneEditApart(left, right)
  {
    var difference := if |left| < |right| then |right| - |left| else |left| - |right|;
    if difference > 1 || left == right {
      return false;
    }
    if |left| == |right| {
      var count := CountMismatches(left, right);
      return count == 1;
    }
    if |left| < |right| {
      answer := SkipsOneByte(left, right);
    } else {
      answer := SkipsOneByte(right, left);
    }
  }
}
