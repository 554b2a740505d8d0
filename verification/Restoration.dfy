/** Putting lost constraints back into a draft without exceeding the length of the input
    (runtime/backend.rs). */
module Restoration {
  import opened Sequences
  import opened Text

  predicate EndsPhrase(c: char) { c in "。.;；、," }

  function Stripped(s: string): (r: string)
    ensures |r| <= |s|
  {
    DropWhileEnd(EndsPhrase, Trim(s))
  }

  predicate IsEnding(c: char) {
    c == '。' || c == '.' || c == ';' || c == '；' || c == '、' || c == ','
  }

  /** `s` is `core` with blanks around it and ending marks behind it, as many as there are. */
  ghost predicate Wraps(s: string, blanks: string, core: string, marks: string, more: string) {
    && s == blanks + (core + marks) + more && Blank(blanks) && Blank(more)
    && (forall i :: 0 <= i < |marks| ==> IsEnding(marks[i]))
    && (core != "" ==> !IsWhitespace(core[0]) && !IsEnding(core[|core| - 1]))
    && (core != "" && marks == "" ==> !IsWhitespace(core[|core| - 1]))
  }

  lemma Endings(c: char)
    ensures IsEnding(c) <==> EndsPhrase(c)
    ensures IsEnding(c) ==> !IsWhitespace(c)
  {
  }

  lemma {:induction false} EndingsDropped(core: string, marks: string)
    requires forall i :: 0 <= i < |marks| ==> IsEnding(marks[i])
    requires core != "" ==> !IsEnding(core[|core| - 1])
    ensures DropWhileEnd(EndsPhrase, core + marks) == core
    decreases |marks|
  {
    hide EndsPhrase, IsEnding;
    var s := core + marks;
    if marks == "" {
      assert s == core && s[..|core|] == core;
      if core != "" {
        Endings(core[|core| - 1]);
      }
    } else {
      var n := |marks| - 1;
      Endings(marks[n]);
      assert s[|s| - 1] == marks[n] && s[..|s| - 1] == core + marks[..n];
      EndingsDropped(core, marks[..n]);
      var m := TrailingRunStart(EndsPhrase, s[..|s| - 1]);
      assert s[..m] == s[..|s| - 1][..m];
    }
  }

  /** Stripping takes off the blanks and the ending marks, and no more. */
  lemma StrippedIsCore(s: string, blanks: string, core: string, marks: string, more: string)
    requires Wraps(s, blanks, core, marks, more)
    ensures Stripped(s) == core
  {
    var inner := core + marks;
    if marks != "" {
      Endings(marks[0]);
      Endings(marks[|marks| - 1]);
      assert inner[|inner| - 1] == marks[|marks| - 1];
      assert inner[0] == if core == "" then marks[0] else core[0];
    }
    hide IsEnding, IsWhitespace, Trim, Blank;
    EndingsDropped(core, marks);
    if inner == "" {
      BlanksOnly(blanks, more);
      assert s == blanks + more;
    } else {
      assert core != "" && marks == "" ==> inner == core;
      assert core != "" ==> inner[0] == core[0];
      TrimOfBlanks(blanks, inner, more);
    }
  }

  lemma BlanksOnly(a: string, b: string)
    requires Blank(a) && Blank(b)
    ensures Trim(a + b) == ""
  {
    TrimIsBlank(IsWhitespace, a + b);
  }

  function AppendRestorationPhrase(output: string, phrase: string): string {
    var kept, added := Stripped(output), Stripped(phrase);
    if kept == [] then added
    else if added == [] then kept
    else kept + "、" + added + "。"
  }

  /** Appending adds at most a separator and a full stop. */
  lemma AppendLength(output: string, phrase: string)
    ensures |AppendRestorationPhrase(output, phrase)| <= |output| + |phrase| + 2
  {
    assert |Stripped(output)| <= |output| && |Stripped(phrase)| <= |phrase|;
  }

  /** Stripping the joined text only drops the full stop again. */
  lemma StrippedJoined(kept: string, added: string)
    requires kept != [] && added != [] && !IsWhitespace(kept[0]) && !EndsPhrase(added[|added| - 1])
    ensures Stripped(kept + "、" + added + "。") == kept + "、" + added
  {
    var joined := kept + "、" + added;
    var s := joined + "。";
    assert s[0] == kept[0] && s[|s| - 1] == '。';
    TrimKeeps(IsWhitespace, s);
    assert s[..|s| - 1] == joined && joined[|joined| - 1] == added[|added| - 1];
    assert TrailingRunStart(EndsPhrase, s) == TrailingRunStart(EndsPhrase, joined) == |joined|;
  }

  /** Phrases appended one after another. */
  function AppendAll(output: string, phrases: seq<string>): string
    decreases |phrases|
  {
    if phrases == [] then output else AppendAll(AppendRestorationPhrase(output, phrases[0]), phrases[1..])
  }

  /** What is left of the given texts, without those of which nothing is. */
  function Parts(texts: seq<string>): (parts: seq<string>)
    ensures forall i :: 0 <= i < |parts| ==> IsPart(parts[i])
    decreases |texts|
  {
    if texts == [] then []
    else
      StrippedIsPart(texts[0]);
      (if Stripped(texts[0]) == [] then [] else [Stripped(texts[0])]) + Parts(texts[1..])
  }

  predicate IsPart(s: string) { s != [] && !IsWhitespace(s[0]) && !EndsPhrase(s[|s| - 1]) }

  lemma StrippedIsPart(s: string)
    ensures Stripped(s) != [] ==> IsPart(Stripped(s))
  {
    TrimBySplits(IsWhitespace, s);
  }

  function Joined(parts: seq<string>): string
    decreases |parts|
  {
    if parts == [] then [] else if |parts| == 1 then parts[0]
    else Joined(parts[..|parts| - 1]) + "、" + parts[|parts| - 1]
  }

  /** Stripping a part again takes nothing away: no white space was hidden behind its punctuation. */
  predicate IsClean(s: string) { Stripped(Stripped(s)) == Stripped(s) }

  lemma CleanEnd(part: string)
    requires IsPart(part)
    ensures Stripped(part) == part <==> !IsWhitespace(part[|part| - 1])
  {
    TrimBySplits(IsWhitespace, part);
    if !IsWhitespace(part[|part| - 1]) {
      TrimKeeps(IsWhitespace, part);
      assert TrailingRunStart(EndsPhrase, part) == |part|;
    }
  }

  predicate EndAlike(a: string, b: string) { a != [] && b != [] && a[|a| - 1] == b[|b| - 1] }

  lemma {:induction false} JoinedIsPart(parts: seq<string>)
    requires parts != [] && forall i :: 0 <= i < |parts| ==> IsPart(parts[i])
    ensures IsPart(Joined(parts)) && EndAlike(Joined(parts), parts[|parts| - 1])
    decreases |parts|
  {
    if |parts| > 1 {
      JoinedIsPart(parts[..|parts| - 1]);
    }
  }

  lemma JoinedSnoc(parts: seq<string>, part: string)
    ensures Joined(parts + [part]) == if parts == [] then part else Joined(parts) + "、" + part
  {
    assert (parts + [part])[..|parts|] == parts;
  }

  lemma JoinedStaysStripped(parts: seq<string>)
    requires forall i :: 0 <= i < |parts| ==> IsPart(parts[i]) && Stripped(parts[i]) == parts[i]
    ensures Stripped(Joined(parts)) == Joined(parts)
  {
    hide *;
    if parts == [] {
      NothingStripped();
    } else {
      JoinedIsPart(parts);
      SameEndSameStrip(Joined(parts), parts[|parts| - 1]);
    }
  }

  lemma SameEndSameStrip(a: string, b: string)
    requires IsPart(a) && IsPart(b) && EndAlike(a, b) && Stripped(b) == b
    ensures Stripped(a) == a
  {
    hide Stripped;
    CleanEnd(a);
    CleanEnd(b);
  }

  lemma NothingStripped()
    ensures Stripped("") == "" && Joined([]) == ""
  {
  }

  /** The list goes on: `text` reads `parts`, perhaps with a full stop, and more phrases are appended. */
  lemma {:induction false} AppendAllContinues(text: string, parts: seq<string>, phrases: seq<string>)
    requires Stripped(text) == Joined(parts) && phrases != []
    requires forall i :: 0 <= i < |parts| ==> IsPart(parts[i])
    requires
      || (parts != [] && forall i :: 0 <= i < |phrases| ==> Stripped(phrases[i]) != [])
      || ((forall i :: 0 <= i < |parts| ==> Stripped(parts[i]) == parts[i]) &&
          forall i :: 0 <= i < |phrases| ==> IsClean(phrases[i]))
    ensures AppendAll(text, phrases) == WithStop(parts + Parts(phrases), phrases[|phrases| - 1])
    decreases |phrases|
  {
    hide AppendRestorationPhrase, Stripped, IsPart, IsClean, Joined, WithStop;
    var added, rest := Stripped(phrases[0]), phrases[1..];
    StrippedIsPart(phrases[0]);
    var longer := if added == [] then parts else parts + [added];
    CleanPart(phrases[0]);
    AppendedReads(text, parts, phrases[0], longer);
    PartsStep(parts, phrases);
    if rest == [] {
      assert longer + [] == longer;
      AppendNothing(AppendRestorationPhrase(text, phrases[0]));
    } else {
      AppendAllContinues(AppendRestorationPhrase(text, phrases[0]), longer, rest);
    }
  }

  lemma CleanPart(s: string)
    ensures IsClean(s) <==> Stripped(Stripped(s)) == Stripped(s)
  {
  }

  lemma PartsStep(parts: seq<string>, phrases: seq<string>)
    requires phrases != []
    ensures parts + Parts(phrases) ==
      (if Stripped(phrases[0]) == [] then parts else parts + [Stripped(phrases[0])]) + Parts(phrases[1..])
    ensures Parts([]) == []
  {
    hide Stripped, IsPart;
    assert [] + Parts(phrases[1..]) == Parts(phrases[1..]);
    Associative(parts, [Stripped(phrases[0])], Parts(phrases[1..]));
  }

  /** The list with its full stop, which only a phrase that adds something sets. */
  function WithStop(parts: seq<string>, last: string): string {
    Joined(parts) + if |parts| >= 2 && Stripped(last) != [] then "。" else []
  }

  lemma AppendedReads(text: string, parts: seq<string>, phrase: string, longer: seq<string>)
    requires Stripped(text) == Joined(parts) && forall i :: 0 <= i < |parts| ==> IsPart(parts[i])
    requires longer == if Stripped(phrase) == [] then parts else parts + [Stripped(phrase)]
    requires (parts != [] && Stripped(phrase) != []) ||
      ((forall i :: 0 <= i < |parts| ==> Stripped(parts[i]) == parts[i]) && IsClean(phrase))
    ensures AppendRestorationPhrase(text, phrase) == WithStop(longer, phrase)
    ensures Stripped(AppendRestorationPhrase(text, phrase)) == Joined(longer)
  {
    hide Stripped, IsPart, IsClean, Joined, EndsPhrase;
    var added := Stripped(phrase);
    JoinedSnoc(parts, added);
    FirstPart("", []) by {
      NothingStripped();
    }
    NothingStripped();
    CleanPart(phrase);
    assert Joined(longer) + [] == Joined(longer);
    if added == [] {
      JoinedStaysStripped(parts);
    } else if parts != [] {
      JoinedHasText(parts);
      JoinedStops(parts, phrase);
    }
  }

  lemma JoinedHasText(parts: seq<string>)
    requires parts != [] && forall i :: 0 <= i < |parts| ==> IsPart(parts[i])
    ensures Joined(parts) != []
  {
    JoinedIsPart(parts);
  }

  lemma PartBorders(s: string)
    requires IsPart(s)
    ensures s != [] && !IsWhitespace(s[0]) && !EndsPhrase(s[|s| - 1])
  {
  }

  lemma JoinedStops(parts: seq<string>, phrase: string)
    requires parts != [] && Stripped(phrase) != [] && forall i :: 0 <= i < |parts| ==> IsPart(parts[i])
    ensures Stripped(Joined(parts) + "、" + Stripped(phrase) + "。") == Joined(parts) + "、" + Stripped(phrase)
  {
    hide *;
    JoinedIsPart(parts);
    StrippedIsPart(phrase);
    PartBorders(Joined(parts));
    var kept, added := Joined(parts), Stripped(phrase);
    PartBorders(added);
    StrippedJoined(kept, added);
  }

  /** However many phrases are appended one after another, they form one list behind the output, in order, with
      one full stop; blank ones add nothing, but a blank one at the end takes the full stop away.  This holds
      whenever no text is blank, and with blank ones whenever stripping twice is stripping once. */
  lemma AppendAllJoins(output: string, phrases: seq<string>)
    requires phrases != []
    ensures NoneBlank([output] + phrases) || AllClean([output] + phrases) ==>
      AppendAll(output, phrases) == WithStop(Parts([output] + phrases), phrases[|phrases| - 1])
  {
    hide Stripped, IsPart, IsClean, Joined, WithStop;
    var texts := [output] + phrases;
    assert texts[0] == output && texts[1..] == phrases;
    assert forall i :: 0 <= i < |phrases| ==> texts[i + 1] == phrases[i];
    StrippedIsPart(output);
    CleanPart(output);
    var first := if Stripped(output) == [] then [] else [Stripped(output)];
    FirstPart(output, first);
    PartsStep([], texts);
    assert [] + Parts(texts) == Parts(texts) && [] + [Stripped(output)] == [Stripped(output)];
    if NoneBlank(texts) || AllClean(texts) {
      AppendAllContinues(output, first, phrases);
    }
  }

  lemma FirstPart(output: string, first: seq<string>)
    requires first == if Stripped(output) == [] then [] else [Stripped(output)]
    ensures Joined(first) == Stripped(output)
  {
    hide Stripped;
  }

  ghost predicate NoneBlank(texts: seq<string>) { forall i :: 0 <= i < |texts| ==> Stripped(texts[i]) != [] }

  ghost predicate AllClean(texts: seq<string>) { forall i :: 0 <= i < |texts| ==> IsClean(texts[i]) }

  /** Without that a blank phrase can take white space out of the list. */
  lemma BlankPhraseTakesSpace()
    ensures AppendAll("a .", ["", "b"]) == "a、b。" && AppendAll("a .", ["b"]) == "a 、b。"
  {
    hide Stripped;
    StripsToSpace();
    SpaceStrips();
    NothingStripped();
    CleanEnd("b");
    var blank, both, one := [""], ["", "b"], ["b"];
    assert both[1..] == one && one[1..] == [];
    AppendNothing("a、b。");
    AppendNothing("a 、b。");
  }

  lemma AppendNothing(output: string)
    ensures AppendAll(output, []) == output
  {
  }

  lemma SpaceStrips()
    ensures Stripped("a ") == "a"
  {
    assert "a "[..1] == "a";
    assert TrailingRunStart(IsWhitespace, "a ") == TrailingRunStart(IsWhitespace, "a") == 1;
  }

  lemma StripsToSpace()
    ensures Stripped("a .") == "a "
  {
    assert "a ."[..2] == "a ";
    TrimKeeps(IsWhitespace, "a .");
  }

  // ---------- Nothing is lost ----------

  /** The characters of a text that are neither white space nor punctuation of a list. */
  function Letters(s: string): string
    decreases |s|
  {
    if s == [] then [] else
      Letters(s[..|s| - 1]) + if IsWhitespace(s[|s| - 1]) || EndsPhrase(s[|s| - 1]) then [] else [s[|s| - 1]]
  }

  lemma {:induction false} LettersJoined(a: string, b: string)
    ensures Letters(a + b) == Letters(a) + Letters(b)
    decreases |b|
  {
    if b == [] {
      assert a + b == a;
    } else {
      LettersJoined(a, b[..|b| - 1]);
      assert (a + b)[..|a + b| - 1] == a + b[..|b| - 1];
    }
  }

  lemma {:induction false} NoLetters(s: string)
    requires forall i :: 0 <= i < |s| ==> IsWhitespace(s[i]) || EndsPhrase(s[i])
    ensures Letters(s) == []
    decreases |s|
  {
    if s != [] {
      NoLetters(s[..|s| - 1]);
    }
  }

  lemma TrimKeepsLetters(s: string)
    ensures Letters(Trim(s)) == Letters(s)
  {
    hide Letters, Trim;
    TrimSplits(s);
    var start, end := TrimStartIndex(IsWhitespace, s), TrimEndIndex(IsWhitespace, s);
    NoLetters(s[..start]);
    NoLetters(s[end..]);
    LettersJoined(s[..start] + Trim(s), s[end..]);
    LettersJoined(s[..start], Trim(s));
    assert [] + Letters(Trim(s)) + [] == Letters(Trim(s));
  }

  lemma TrimSplits(s: string)
    ensures var start, end := TrimStartIndex(IsWhitespace, s), TrimEndIndex(IsWhitespace, s);
      && s == s[..start] + Trim(s) + s[end..]
      && (forall i :: 0 <= i < |s[..start]| ==> IsWhitespace(s[..start][i]))
      && (forall i :: 0 <= i < |s[end..]| ==> IsWhitespace(s[end..][i]))
  {
    TrimBySplits(IsWhitespace, s);
    var start, end := TrimStartIndex(IsWhitespace, s), TrimEndIndex(IsWhitespace, s);
    assert s[..start] + s[start..end] == s[..end];
  }

  lemma DroppedEndKeepsLetters(s: string)
    ensures Letters(DropWhileEnd(EndsPhrase, s)) == Letters(s)
  {
    hide Letters;
    var kept := TrailingRunStart(EndsPhrase, s);
    NoLetters(s[kept..]);
    TakeDrop(s, kept);
    LettersJoined(s[..kept], s[kept..]);
    assert Letters(s[..kept]) + [] == Letters(s[..kept]);
  }

  lemma StrippedKeepsLetters(s: string)
    ensures Letters(Stripped(s)) == Letters(s)
  {
    hide Letters, Trim;
    TrimKeepsLetters(s);
    DroppedEndKeepsLetters(Trim(s));
  }

  function LettersOf(texts: seq<string>): string
    decreases |texts|
  {
    if texts == [] then [] else Letters(texts[0]) + LettersOf(texts[1..])
  }

  lemma LettersInList(kept: string, added: string)
    ensures Letters(kept + "、" + added + "。") == Letters(kept) + Letters(added)
  {
    hide Letters;
    NoLetters("、");
    NoLetters("。");
    LettersJoined(kept + "、" + added, "。");
    LettersJoined(kept + "、", added);
    LettersJoined(kept, "、");
    assert Letters(kept) + [] == Letters(kept);
    assert Letters(kept) + Letters(added) + [] == Letters(kept) + Letters(added);
  }

  lemma AppendKeepsLetters(output: string, phrase: string)
    ensures Letters(AppendRestorationPhrase(output, phrase)) == Letters(output) + Letters(phrase)
  {
    hide *;
    StrippedKeepsLetters(output);
    StrippedKeepsLetters(phrase);
    NoLettersAtAll();
    AppendedIs(output, phrase);
    LettersInList(Stripped(output), Stripped(phrase));
    assert [] + Letters(phrase) == Letters(phrase) && Letters(output) + [] == Letters(output);
  }

  lemma NoLettersAtAll()
    ensures Letters([]) == []
  {
  }

  lemma AppendedIs(output: string, phrase: string)
    ensures AppendRestorationPhrase(output, phrase) ==
      if Stripped(output) == [] then Stripped(phrase)
      else if Stripped(phrase) == [] then Stripped(output)
      else Stripped(output) + "、" + Stripped(phrase) + "。"
  {
    hide Stripped;
  }

  /** Whatever the texts are, appending keeps all their letters, in order, and adds none. */
  lemma {:induction false} AppendAllKeepsLetters(output: string, phrases: seq<string>)
    ensures Letters(AppendAll(output, phrases)) == Letters(output) + LettersOf(phrases)
    decreases |phrases|
  {
    if phrases != [] {
      AppendKeepsLetters(output, phrases[0]);
      AppendAllKeepsLetters(AppendRestorationPhrase(output, phrases[0]), phrases[1..]);
      Associative(Letters(output), Letters(phrases[0]), LettersOf(phrases[1..]));
    }
  }

  // ---------- Trimming to a budget ----------

  predicate IsSoftCut(c: char) { c in "。、;/ " }

  predicate IsEdge(c: char) { IsWhitespace(c) || c in "、/;:：" }

  /** The text before the last soft cut in `hard[..end]` that keeps at least `least` characters. */
  function LastSoftCut(hard: string, least: nat, end: nat): (r: Option<string>)
    requires end <= |hard|
    ensures r.Some? ==> |r.value| <= end && exists i :: 0 <= i < end && r.value == Trim(hard[..i])
  {
    if end == 0 then None
    else if IsSoftCut(hard[end - 1]) && |Trim(hard[..end - 1])| >= least then Some(Trim(hard[..end - 1]))
    else LastSoftCut(hard, least, end - 1)
  }

  function NonEmpty(s: string): Option<string> { if s == [] then None else Some(s) }

  /** Text that fits is only trimmed; longer text is cut at the last soft cut of its second half, or
      at the budget when there is none. */
  function WithinBudget(text: string, maxChars: nat): (r: Option<string>)
  {
    if maxChars == 0 then None
    else if |text| <= maxChars then Some(Trim(text))
    else
      var hard := Trim(text[..maxChars]);
      match LastSoftCut(hard, maxChars / 2, |hard|)
      case Some(cut) => NonEmpty(TrimBy(IsEdge, cut))
      case None => NonEmpty(TrimBy(IsEdge, hard))
  }

  /** What is kept is a piece of the text, within the budget, and empty only for blank text. */
  lemma BudgetIsKept(text: string, maxChars: nat)
    ensures var r := WithinBudget(text, maxChars);
      && (r.Some? ==> |r.value| <= maxChars && IsSubstring(r.value, text))
      && (r == Some([]) ==> Blank(text))
  {
    if maxChars > 0 {
      if |text| <= maxChars {
        TrimIsSubstring(IsWhitespace, text);
        TrimIsBlank(IsWhitespace, text);
      } else {
        HardCutIsKept(text, maxChars);
      }
    }
  }

  lemma HardCutIsKept(text: string, maxChars: nat)
    requires 0 < maxChars < |text|
    ensures var r := WithinBudget(text, maxChars);
      r.Some? ==> r.value != [] && |r.value| <= maxChars && IsSubstring(r.value, text)
  {
    hide IsSubstring, TrimBy, LastSoftCut;
    var hard := Trim(text[..maxChars]);
    SliceIsSubstring(text, 0, maxChars);
    assert text[0..maxChars] == text[..maxChars];
    TrimIsSubstring(IsWhitespace, text[..maxChars]);
    SubstringsCompose(hard, text[..maxChars], text);
    var cut := LastSoftCut(hard, maxChars / 2, |hard|);
    if cut.Some? {
      var i :| 0 <= i < |hard| && cut.value == Trim(hard[..i]);
      assert hard[0..i] == hard[..i];
      SliceIsSubstring(hard, 0, i);
      TrimIsSubstring(IsWhitespace, hard[..i]);
      SubstringsCompose(cut.value, hard[..i], hard);
      SubstringsCompose(cut.value, hard, text);
      TrimIsSubstring(IsEdge, cut.value);
      SubstringsCompose(TrimBy(IsEdge, cut.value), cut.value, text);
    } else {
      TrimIsSubstring(IsEdge, hard);
      SubstringsCompose(TrimBy(IsEdge, hard), hard, text);
    }
  }

  predicate IsCutCharacter(c: char) { c == '。' || c == '、' || c == ';' || c == '/' || c == ' ' }

  predicate IsBorder(c: char) { IsWhitespace(c) || c == '、' || c == '/' || c == ';' || c == ':' || c == '：' }

  /** At `i` the text may be cut: what stands before is at least half of the budget, rounded down. */
  predicate MayCutAt(hard: string, maxChars: nat, i: nat) {
    i < |hard| && IsCutCharacter(hard[i]) && 2 * |Trim(hard[..i])| + 1 >= maxChars
  }

  ghost predicate IsLastCut(hard: string, maxChars: nat, i: nat) {
    MayCutAt(hard, maxChars, i) && forall k: nat :: i < k < |hard| ==> !MayCutAt(hard, maxChars, k)
  }

  /** `r` is the text without the border characters around it, if anything else is in it. */
  ghost predicate IsBare(r: Option<string>, text: string) {
    match r
    case None => forall i :: 0 <= i < |text| ==> IsBorder(text[i])
    case Some(v) =>
      && v != [] && !IsBorder(v[0]) && !IsBorder(v[|v| - 1])
      && exists i: nat, j: nat :: BordersAround(text, i, j) && v == text[i..j]
  }

  ghost predicate BordersAround(text: string, i: nat, j: nat) {
    && i <= j <= |text| && (forall k :: 0 <= k < i ==> IsBorder(text[k]))
    && (forall k :: j <= k < |text| ==> IsBorder(text[k]))
  }

  lemma Borders(c: char)
    ensures IsBorder(c) <==> IsEdge(c)
    ensures IsCutCharacter(c) <==> IsSoftCut(c)
  {
  }

  lemma EdgesAreBorders(text: string, i: nat, j: nat)
    requires i <= j <= |text| && All(IsEdge, text[i..j])
    ensures forall k :: i <= k < j ==> IsBorder(text[k])
  {
    hide IsBorder, IsEdge;
    forall k | i <= k < j ensures IsBorder(text[k]) {
      assert text[i..j][k - i] == text[k];
      Borders(text[k]);
    }
  }

  lemma BareIsTrimmed(text: string)
    ensures IsBare(NonEmpty(TrimBy(IsEdge, text)), text)
  {
    hide IsBorder, IsEdge, All, TrimBy;
    TrimIsBlank(IsEdge, text);
    TrimBySplits(IsEdge, text);
    var i, j := TrimStartIndex(IsEdge, text), TrimEndIndex(IsEdge, text);
    assert text[0..i] == text[..i] && text[j..|text|] == text[j..] && text[0..|text|] == text;
    EdgesAreBorders(text, 0, i);
    EdgesAreBorders(text, j, |text|);
    if i < j {
      Borders(text[i]);
      Borders(text[j - 1]);
      assert BordersAround(text, i, j);
    } else {
      EdgesAreBorders(text, 0, |text|);
    }
  }

  lemma {:induction false} LastSoftCutIs(hard: string, maxChars: nat, end: nat, i: nat)
    requires i < end <= |hard| && MayCutAt(hard, maxChars, i)
    requires forall k: nat :: i < k < end ==> !MayCutAt(hard, maxChars, k)
    ensures LastSoftCut(hard, maxChars / 2, end) == Some(Trim(hard[..i]))
  {
    hide Trim, IsSoftCut, IsCutCharacter;
    Borders(hard[end - 1]);
    if i < end - 1 {
      assert !MayCutAt(hard, maxChars, end - 1);
      LastSoftCutIs(hard, maxChars, end - 1, i);
    }
  }

  lemma {:induction false} NoSoftCut(hard: string, maxChars: nat, end: nat)
    requires end <= |hard| && forall k: nat :: k < end ==> !MayCutAt(hard, maxChars, k)
    ensures LastSoftCut(hard, maxChars / 2, end).None?
  {
    hide Trim, IsSoftCut, IsCutCharacter;
    if end > 0 {
      Borders(hard[end - 1]);
      assert !MayCutAt(hard, maxChars, end - 1);
      NoSoftCut(hard, maxChars, end - 1);
    }
  }

  /** A text beyond the budget is cut at the last place where it may be, or at the budget; one within it
      is only trimmed. */
  lemma CutExactly(text: string, maxChars: nat)
    ensures maxChars == 0 ==> WithinBudget(text, maxChars) == None
    ensures 0 < maxChars && |text| <= maxChars ==> WithinBudget(text, maxChars) == Some(Trim(text))
    ensures 0 < maxChars < |text| ==>
      var hard := Trim(text[..maxChars]);
      && (forall i: nat :: IsLastCut(hard, maxChars, i) ==>
           IsBare(WithinBudget(text, maxChars), Trim(hard[..i])))
      && ((forall k: nat :: k < |hard| ==> !MayCutAt(hard, maxChars, k)) ==>
           IsBare(WithinBudget(text, maxChars), hard))
  {
    if 0 < maxChars < |text| {
      var hard := Trim(text[..maxChars]);
      hide IsBare, MayCutAt, TrimBy, Trim;
      forall i: nat | IsLastCut(hard, maxChars, i)
        ensures IsBare(WithinBudget(text, maxChars), Trim(hard[..i]))
      {
        LastSoftCutIs(hard, maxChars, |hard|, i);
        BareIsTrimmed(Trim(hard[..i]));
      }
      if forall k: nat :: k < |hard| ==> !MayCutAt(hard, maxChars, k) {
        NoSoftCut(hard, maxChars, |hard|);
        BareIsTrimmed(hard);
      }
    }
  }

  method TrimToCharBudget(text: string, maxChars: nat) returns (r: Option<string>)
    ensures r == WithinBudget(text, maxChars)
  {
    if maxChars == 0 {
      return None;
    }
    if |text| <= maxChars {
      return Some(Trim(text));
    }
    var hardCut := Trim(text[..maxChars]);
    var minSoftCutChars := maxChars / 2;
    var bestSoftCut: Option<string> := None;
    for i := 0 to |hardCut|
      invariant bestSoftCut == LastSoftCut(hardCut, minSoftCutChars, i)
    {
      if IsSoftCut(hardCut[i]) {
        var candidate := Trim(hardCut[..i]);
        if |candidate| >= minSoftCutChars {
          bestSoftCut := Some(candidate);
        }
      }
    }
    var trimmed := TrimBy(IsEdge, if bestSoftCut.Some? then bestSoftCut.value else hardCut);
    r := if trimmed == [] then None else Some(trimmed);
  }

  // ---------- Restoring constraints ----------

  /** The judgements about a request that the loop consults: the length of its trimmed input, the required
      terms test, the attempt to put missing terms back, and the negative-constraint test. */
  datatype Rules = Rules(
    inputLength: nat,
    hasTerms: string -> bool,
    restoreTerms: string -> string,
    keepsNegatives: string -> bool,
    normalize: string -> string,
    positivePhrases: string -> seq<string>,
    allPhrases: string -> seq<string>
  )

  /** Appending to text that was trimmed to the budget always stays below the input length. */
  lemma TrimmedCandidateFits(restored: string, phrase: string, inputLength: nat)
    requires |phrase| + 3 <= inputLength && WithinBudget(restored, inputLength - (|phrase| + 3)).Some?
    ensures var kept := WithinBudget(restored, inputLength - (|phrase| + 3)).value;
      |AppendRestorationPhrase(kept, phrase)| < inputLength
  {
    hide WithinBudget, AppendRestorationPhrase;
    var budget := inputLength - (|phrase| + 3);
    BudgetIsKept(restored, budget);
    AppendLength(WithinBudget(restored, budget).value, phrase);
  }

  /** The candidate for one phrase, None when the phrase cannot fit. */
  function Candidate(inputLength: nat, restored: string, phrase: string): (r: Option<string>) {
    var plain := AppendRestorationPhrase(restored, phrase);
    if |plain| < inputLength then Some(plain)
    else if inputLength < |phrase| + 3 then None
    else
      match WithinBudget(restored, inputLength - (|phrase| + 3))
      case None => None
      case Some(kept) => Some(AppendRestorationPhrase(kept, phrase))
  }

  function WithTerms(rules: Rules, candidate: string): string {
    if rules.hasTerms(candidate) then candidate else rules.restoreTerms(candidate)
  }

  predicate Acceptable(rules: Rules, text: string) { |text| < rules.inputLength && rules.hasTerms(text) }

  /** The text after one phrase, or None when the phrase is passed over. */
  function Applied(rules: Rules, restored: string, phrase: string): (r: Option<string>)
    ensures r.Some? ==> Acceptable(rules, r.value)
  {
    match Candidate(rules.inputLength, restored, phrase)
    case None => None
    case Some(candidate) =>
      var text := WithTerms(rules, candidate);
      if Acceptable(rules, text) then Some(text) else None
  }

  /** All phrases in turn; while negative constraints are missing, the first text that keeps them
      ends the search.  None when no phrase was applied. */
  function Restored(rules: Rules, restored: string, phrases: seq<string>, searching: bool): Option<string>
    decreases |phrases|
  {
    if phrases == [] then None
    else
      match Applied(rules, restored, phrases[0])
      case None => Restored(rules, restored, phrases[1..], searching)
      case Some(text) =>
        if searching && rules.keepsNegatives(text) then Some(text)
        else
          var rest := Restored(rules, text, phrases[1..], searching);
          if rest.Some? then rest else Some(text)
  }

  /** Whatever is restored is strictly shorter than the input and holds every required term. */
  lemma {:induction false} RestoredIsAcceptable(rules: Rules, restored: string, phrases: seq<string>, searching: bool)
    requires Restored(rules, restored, phrases, searching).Some?
    ensures Acceptable(rules, Restored(rules, restored, phrases, searching).value)
    decreases |phrases|
  {
    hide Applied, Acceptable;
    var text := Applied(rules, restored, phrases[0]);
    var next := if text.Some? then text.value else restored;
    if Restored(rules, next, phrases[1..], searching).Some? {
      RestoredIsAcceptable(rules, next, phrases[1..], searching);
    }
  }

  /** The first `n` phrases end the search: they are all there are, or they bring the negative
      constraints back and fewer do not. */
  ghost predicate EndsSearch(rules: Rules, restored: string, phrases: seq<string>, searching: bool, n: nat) {
    && 0 < n <= |phrases|
    && (n == |phrases| || (searching && rules.keepsNegatives(AppendAll(restored, phrases[..n]))))
    && forall m :: 0 < m < n ==> !(searching && rules.keepsNegatives(AppendAll(restored, phrases[..m])))
  }

  /** As long as there is room for them and no required term is lost, the phrases that end the search
      are all restored, in order and without trimming anything. */
  lemma {:induction false} FittingPhrasesAreRestored(rules: Rules, restored: string, phrases: seq<string>,
                                                     searching: bool, n: nat)
    requires EndsSearch(rules, restored, phrases, searching, n)
    requires forall m :: 0 < m <= n ==> Acceptable(rules, AppendAll(restored, phrases[..m]))
    ensures Restored(rules, restored, phrases, searching) == Some(AppendAll(restored, phrases[..n]))
    decreases |phrases|
  {
    hide AppendRestorationPhrase, WithinBudget, Restored;
    var text, rest := AppendRestorationPhrase(restored, phrases[0]), phrases[1..];
    AppendsFirst(restored, phrases, 1);
    assert Acceptable(rules, AppendAll(restored, phrases[..1]));
    assert rest[..0] == [];
    assert Applied(rules, restored, phrases[0]) == Some(text);
    hide Applied, Acceptable;
    RestoredUnfolds(rules, restored, phrases, searching);
    if n == 1 {
      if rest == [] {
        RestoredNothing(rules, text, rest, searching);
      }
    } else {
      assert !(searching && rules.keepsNegatives(AppendAll(restored, phrases[..1])));
      forall m | 0 < m < |phrases|
        ensures AppendAll(text, rest[..m]) == AppendAll(restored, phrases[..m + 1])
      {
        AppendsFirst(restored, phrases, m + 1);
      }
      FittingPhrasesAreRestored(rules, text, rest, searching, n - 1);
    }
  }

  lemma RestoredByOne(rules: Rules, restored: string, phrase: string, searching: bool)
    ensures Restored(rules, restored, [phrase], searching) == Applied(rules, restored, phrase)
  {
    hide Applied;
    assert [phrase][1..] == [];
  }

  lemma CandidateTrimmed(inputLength: nat, restored: string, phrase: string)
    requires |AppendRestorationPhrase(restored, phrase)| >= inputLength
    ensures Candidate(inputLength, restored, phrase) ==
      if inputLength < |phrase| + 3 then None
      else
        var kept := WithinBudget(restored, inputLength - |phrase| - 3);
        if kept.None? then None else Some(AppendRestorationPhrase(kept.value, phrase))
  {
    hide AppendRestorationPhrase, WithinBudget;
    assert inputLength - |phrase| - 3 == inputLength - (|phrase| + 3);
  }

  lemma AppliedIs(rules: Rules, restored: string, phrase: string, candidate: string)
    requires Candidate(rules.inputLength, restored, phrase) == Some(candidate)
    requires rules.hasTerms(candidate) && |candidate| < rules.inputLength
    ensures Applied(rules, restored, phrase) == Some(candidate)
  {
    hide Candidate;
  }

  /** A phrase that would make the text too long is appended to as much of the text as the budget leaves. */
  lemma TrimmedForPhrase(rules: Rules, restored: string, phrase: string, searching: bool, kept: string)
    requires |AppendRestorationPhrase(restored, phrase)| >= rules.inputLength >= |phrase| + 3
    requires WithinBudget(restored, rules.inputLength - |phrase| - 3) == Some(kept)
    requires rules.hasTerms(AppendRestorationPhrase(kept, phrase))
    ensures Restored(rules, restored, [phrase], searching) == Some(AppendRestorationPhrase(kept, phrase))
  {
    hide *;
    assert rules.inputLength - |phrase| - 3 == rules.inputLength - (|phrase| + 3);
    TrimmedCandidateFits(restored, phrase, rules.inputLength);
    CandidateTrimmed(rules.inputLength, restored, phrase);
    AppliedIs(rules, restored, phrase, AppendRestorationPhrase(kept, phrase));
    RestoredByOne(rules, restored, phrase, searching);
  }

  /** And without room for more than three characters beside the phrase, it is passed over. */
  lemma NoRoomForPhrase(rules: Rules, restored: string, phrase: string, searching: bool)
    requires |AppendRestorationPhrase(restored, phrase)| >= rules.inputLength
    requires rules.inputLength <= |phrase| + 3
    ensures Restored(rules, restored, [phrase], searching) == None
  {
    hide AppendRestorationPhrase;
    CandidateTrimmed(rules.inputLength, restored, phrase);
    RestoredByOne(rules, restored, phrase, searching);
  }

  lemma AppendsFirst(restored: string, phrases: seq<string>, m: nat)
    requires 0 < m <= |phrases|
    ensures AppendAll(restored, phrases[..m]) == AppendAll(AppendRestorationPhrase(restored, phrases[0]),
      phrases[1..][..m - 1])
  {
    assert phrases[..m][1..] == phrases[1..][..m - 1];
  }

  /** The draft stays as it was exactly when none of the phrases can be applied to it. */
  lemma {:induction false} NothingRestoredMeansNothingApplicable(rules: Rules, restored: string,
                                                                 phrases: seq<string>, searching: bool)
    ensures Restored(rules, restored, phrases, searching).None? <==>
      forall i :: 0 <= i < |phrases| ==> Applied(rules, restored, phrases[i]).None?
  {
    hide Applied;
    if phrases != [] {
      NothingRestoredMeansNothingApplicable(rules, restored, phrases[1..], searching);
      assert forall i :: 0 < i < |phrases| ==> phrases[i] == phrases[1..][i - 1];
    }
  }

  class CompressionDraft {
    var distilledPrompt: string

    constructor (text: string)
      ensures distilledPrompt == text
    {
      distilledPrompt := text;
    }
  }

  function Normalized(rules: Rules, prompt: string): string {
    var trimmed := Trim(prompt);
    if rules.normalize(trimmed) != trimmed then rules.normalize(trimmed) else prompt
  }

  function PhrasesFor(rules: Rules, output: string): seq<string> {
    if rules.keepsNegatives(output) then rules.positivePhrases(output) else rules.allPhrases(output)
  }

  /** The draft keeps its normalised text unless some phrase was applied, and then it is strictly
      shorter than the trimmed input and holds every required term. */
  method RestoreMissingRequiredConstraints(rules: Rules, preserveNegations: bool, draft: CompressionDraft)
    modifies draft
    ensures !preserveNegations ==> draft.distilledPrompt == old(draft.distilledPrompt)
    ensures preserveNegations ==>
      var base := Normalized(rules, old(draft.distilledPrompt));
      var output := Trim(base);
      var restored := Restored(rules, output, PhrasesFor(rules, output), !rules.keepsNegatives(output));
      draft.distilledPrompt == if output == [] || restored.None? then base else restored.value
    ensures draft.distilledPrompt == old(draft.distilledPrompt)
      || draft.distilledPrompt == Normalized(rules, old(draft.distilledPrompt))
      || Acceptable(rules, draft.distilledPrompt)
  {
    if !preserveNegations {
      return;
    }
    hide Applied, Acceptable, Candidate, Restored;
    var normalized := rules.normalize(Trim(draft.distilledPrompt));
    if normalized != Trim(draft.distilledPrompt) {
      draft.distilledPrompt := normalized;
    }
    var output := Trim(draft.distilledPrompt);
    if output == [] {
      return;
    }
    var preservesNegatives := rules.keepsNegatives(output);
    var phrases := if preservesNegatives then rules.positivePhrases(output) else rules.allPhrases(output);
    if |phrases| == 0 {
      return;
    }
    var restored, applied := output, false;
    ghost var goal := Restored(rules, output, phrases, !preservesNegatives);
    assert phrases[0..] == phrases;
    for i := 0 to |phrases|
      invariant draft.distilledPrompt == Normalized(rules, old(draft.distilledPrompt))
      invariant var rest := Restored(rules, restored, phrases[i..], !preservesNegatives);
        goal == if rest.Some? || !applied then rest else Some(restored)
    {
      assert phrases[i..][0] == phrases[i] && phrases[i..][1..] == phrases[i + 1..];
      RestoredUnfolds(rules, restored, phrases[i..], !preservesNegatives);
      var candidate := TryPhrase(rules, restored, phrases[i]);
      if candidate.None? {
        continue;
      }
      restored := candidate.value;
      applied := true;
      if !preservesNegatives && rules.keepsNegatives(restored) {
        draft.distilledPrompt := restored;
        RestoredIsAcceptable(rules, output, phrases, !preservesNegatives);
        return;
      }
    }
    RestoredNothing(rules, restored, phrases[|phrases|..], !preservesNegatives);
    if applied {
      draft.distilledPrompt := restored;
    }
    assert applied ==> goal == Some(restored);
    if goal.Some? {
      RestoredIsAcceptable(rules, output, phrases, !preservesNegatives);
    }
  }

  lemma RestoredNothing(rules: Rules, restored: string, phrases: seq<string>, searching: bool)
    requires phrases == []
    ensures Restored(rules, restored, phrases, searching) == None
  {
  }

  lemma RestoredUnfolds(rules: Rules, restored: string, phrases: seq<string>, searching: bool)
    requires phrases != []
    ensures Restored(rules, restored, phrases, searching) ==
      var applied := Applied(rules, restored, phrases[0]);
      if applied.None? then Restored(rules, restored, phrases[1..], searching)
      else if searching && rules.keepsNegatives(applied.value) then applied
      else
        var rest := Restored(rules, applied.value, phrases[1..], searching);
        if rest.Some? then rest else applied
  {
  }

  /** One round of the loop. */
  method TryPhrase(rules: Rules, restored: string, phrase: string) returns (r: Option<string>)
    ensures r == Applied(rules, restored, phrase)
  {
    hide AppendRestorationPhrase, WithinBudget;
    var candidate := AppendRestorationPhrase(restored, phrase);
    if |candidate| >= rules.inputLength {
      if rules.inputLength < |phrase| + 3 {
        return None;
      }
      var trimmedOutput := TrimToCharBudget(restored, rules.inputLength - (|phrase| + 3));
      if trimmedOutput.None? {
        return None;
      }
      candidate := AppendRestorationPhrase(trimmedOutput.value, phrase);
      TrimmedCandidateFits(restored, phrase, rules.inputLength);
      assert |candidate| < rules.inputLength;
    }
    if !rules.hasTerms(candidate) {
      candidate := rules.restoreTerms(candidate);
    }
    if |candidate| >= rules.inputLength || !rules.hasTerms(candidate) {
      return None;
    }
    r := Some(candidate);
  }
}
