/** What the verifier takes from a text: clauses, numbers, error literals, code blocks
    (compression/verifier.rs). */
module Extractors {
  import opened Numbers
  import opened Sequences
  import opened Text

  // ---------- Splitting ----------

  /** How far the text goes before a character that satisfies `p`. */
  function PieceLength(p: char -> bool, s: string): (n: nat)
    ensures n <= |s| && (n < |s| ==> p(s[n])) && forall i :: 0 <= i < n ==> !p(s[i])
  {
    if s == [] || p(s[0]) then 0 else 1 + PieceLength(p, s[1..])
  }

  /** The pieces between the characters that satisfy `p`. */
  function SplitBy(p: char -> bool, s: string): (pieces: seq<string>)
    ensures pieces != []
    decreases |s|
  {
    var n := PieceLength(p, s);
    if n == |s| then [s] else [s[..n]] + SplitBy(p, s[n + 1..])
  }

  predicate EndsClause(c: char) { c == '。' || c == '！' || c == '？' || c == '\n' || c == ';' }

  function Clauses(s: string): seq<string> { SplitBy(EndsClause, s) }

  /** `s[i..j]` has no character that satisfies `p`, and such characters or the ends of `s` around it. */
  ghost predicate IsPiece(p: char -> bool, s: string, i: nat, j: nat) {
    && i <= j <= |s|
    && (forall k :: i <= k < j ==> !p(s[k]))
    && (i > 0 ==> p(s[i - 1])) && (j < |s| ==> p(s[j]))
  }

  lemma ShiftPiece(p: char -> bool, s: string, n: nat, i: nat, j: nat)
    requires n < |s| && p(s[n]) && IsPiece(p, s[n + 1..], i, j)
    ensures IsPiece(p, s, n + 1 + i, n + 1 + j) && s[n + 1..][i..j] == s[n + 1 + i..n + 1 + j]
  {
    var rest := s[n + 1..];
    assert s[n + 1..|s|] == rest;
    SliceOfSlice(s, n + 1, |s|, i, j);
    forall k | n + 1 + i <= k < n + 1 + j ensures !p(s[k]) {
      assert s[k] == rest[k - n - 1];
    }
    assert j < |rest| ==> rest[j] == s[n + 1 + j];
    assert i > 0 ==> rest[i - 1] == s[n + i];
  }

  /** Every piece lies in the text between two separators. */
  lemma {:induction false} PieceAt(p: char -> bool, s: string, k: nat) returns (i: nat, j: nat)
    requires k < |SplitBy(p, s)|
    ensures IsPiece(p, s, i, j) && SplitBy(p, s)[k] == s[i..j]
    decreases |s|
  {
    hide IsPiece, PieceLength;
    var n := PieceLength(p, s);
    FirstPiece(p, s);
    SplitByUnfolds(p, s);
    hide SplitBy;
    if k == 0 {
      i, j := 0, n;
    } else {
      var a, b := PieceAt(p, s[n + 1..], k - 1);
      ShiftPiece(p, s, n, a, b);
      i, j := n + 1 + a, n + 1 + b;
    }
  }

  lemma SplitByUnfolds(p: char -> bool, s: string)
    ensures var n := PieceLength(p, s);
      && SplitBy(p, s)[0] == s[..n]
      && (n == |s| ==> |SplitBy(p, s)| == 1)
      && (n < |s| ==> SplitBy(p, s)[1..] == SplitBy(p, s[n + 1..]))
  {
    hide PieceLength;
  }

  lemma PieceOf(p: char -> bool, s: string, piece: string) returns (i: nat, j: nat)
    requires piece in SplitBy(p, s)
    ensures IsPiece(p, s, i, j) && piece == s[i..j]
  {
    hide IsPiece, SplitBy;
    var k :| 0 <= k < |SplitBy(p, s)| && SplitBy(p, s)[k] == piece;
    i, j := PieceAt(p, s, k);
  }

  lemma FirstPiece(p: char -> bool, s: string)
    ensures var n := PieceLength(p, s); IsPiece(p, s, 0, n) && s[0..n] == s[..n] && (n == |s| ==> s[..n] == s)
  {
  }

  // ---------- Unique lists ----------

  function PushUnique(values: seq<string>, value: string): seq<string> {
    if value in values then values else values + [value]
  }

  function PushAllUnique(values: seq<string>, more: seq<string>): (r: seq<string>)
    ensures forall v :: v in r <==> v in values || v in more
    decreases |more|
  {
    if more == [] then values
    else
      assert forall v :: v in more <==> v == more[0] || v in more[1..];
      PushAllUnique(PushUnique(values, more[0]), more[1..])
  }

  // ---------- Numbers ----------

  /** `s[i..j]` is a maximal run of digits. */
  predicate IsDigitRun(s: string, i: nat, j: nat) {
    && i < j <= |s|
    && (forall k :: i <= k < j ==> IsDigit(s[k]))
    && (i > 0 ==> !IsDigit(s[i - 1])) && (j < |s| ==> !IsDigit(s[j]))
  }

  ghost predicate HasNumber(s: string, number: string) { HasNumberBefore(s, |s| + 1, number) }

  /** As `HasNumber`, for the digit runs that end before `limit`. */
  ghost predicate HasNumberBefore(s: string, limit: nat, number: string) {
    exists i: nat, j: nat :: j < limit && IsDigitRun(s, i, j) && number == s[i..j]
  }

  lemma NoNumberEndsHere(s: string, limit: nat)
    requires limit >= |s| || IsDigit(s[limit]) || limit == 0 || !IsDigit(s[limit - 1])
    requires limit == |s| ==> limit == 0 || !IsDigit(s[limit - 1])
    ensures forall v :: HasNumberBefore(s, limit + 1, v) <==> HasNumberBefore(s, limit, v)
  {
    forall i: nat ensures !IsDigitRun(s, i, limit) {
    }
    hide IsDigitRun;
  }

  lemma NumberEndsHere(s: string, start: nat, limit: nat)
    requires IsDigitRun(s, start, limit)
    ensures forall v :: HasNumberBefore(s, limit + 1, v) <==> HasNumberBefore(s, limit, v) || v == s[start..limit]
  {
    OnlyOneRunEndsHere(s, start, limit);
    hide IsDigitRun;
    forall v | HasNumberBefore(s, limit + 1, v) ensures HasNumberBefore(s, limit, v) || v == s[start..limit] {
      var i: nat, j: nat :| j < limit + 1 && IsDigitRun(s, i, j) && v == s[i..j];
    }
  }

  lemma NoNumberBeforeStart(s: string)
    ensures forall v :: !HasNumberBefore(s, 0, v)
  {
  }

  /** All maximal digit runs, each once. */
  method ExtractAllNumbers(input: string) returns (values: seq<string>)
    ensures forall v :: v in values <==> HasNumber(input, v)
  {
    hide HasNumberBefore;
    values := [];
    var current := "";
    ghost var start: nat := 0;
    NoNumberBeforeStart(input);
    for i := 0 to |input|
      invariant start <= i && current == input[start..i]
      invariant forall k :: start <= k < i ==> IsDigit(input[k])
      invariant start > 0 ==> !IsDigit(input[start - 1])
      invariant forall v :: v in values <==> HasNumberBefore(input, i, v)
    {
      if IsDigit(input[i]) {
        NoNumberEndsHere(input, i);
        SliceSnoc(input, start, i);
        current := current + [input[i]];
      } else {
        if current != "" {
          NumberEndsHere(input, start, i);
          values := PushUnique(values, current);
        } else {
          NoNumberEndsHere(input, i);
        }
        current := "";
        start := i + 1;
      }
    }
    if current != "" {
      NumberEndsHere(input, start, |input|);
      values := PushUnique(values, current);
    } else {
      NoNumberEndsHere(input, |input|);
    }
  }

  lemma OnlyOneRunEndsHere(s: string, i: nat, j: nat)
    requires IsDigitRun(s, i, j)
    ensures forall a: nat :: IsDigitRun(s, a, j) ==> a == i
  {
  }

  // ---------- The corrected part of a clause ----------

  const TAIL_MARKERS: seq<string> := ["最終的には", "最終的に", "正しくは", "ここは", "ではなく"]

  function LastOccurrence(s: string, needle: string, below: nat): (r: Option<nat>)
    ensures r.Some? ==> r.value < below && Occurs(s, needle, r.value) && forall k :: r.value < k < below ==>
      !Occurs(s, needle, k)
    ensures r.None? ==> forall k :: 0 <= k < below ==> !Occurs(s, needle, k)
  {
    if below == 0 then None
    else if Occurs(s, needle, below - 1) then Some(below - 1)
    else LastOccurrence(s, needle, below - 1)
  }

  function RFind(s: string, needle: string): (r: Option<nat>)
    ensures r.Some? ==> Occurs(s, needle, r.value) && forall k :: r.value < k ==> !Occurs(s, needle, k)
    ensures r.None? ==> forall k: nat :: !Occurs(s, needle, k)
  {
    LastOccurrence(s, needle, |s| + 1)
  }

  /** Where the tail starts: after the marker that occurs last, the later one in the list when two
      occur at the same place. */
  function TailStart(clause: string, markers: seq<string>, at: nat, start: nat): nat
    decreases |markers|
  {
    if markers == [] then start
    else
      match RFind(clause, markers[0])
      case Some(i) =>
        if i >= at then TailStart(clause, markers[1..], i, i + |markers[0]|)
        else TailStart(clause, markers[1..], at, start)
      case None => TailStart(clause, markers[1..], at, start)
  }

  /** A position in the clause that no digit run crosses. */
  predicate IsCut(clause: string, n: nat) { n <= |clause| && (n > 0 ==> !IsDigit(clause[n - 1])) }

  lemma {:induction false} TailStartIsCut(clause: string, markers: seq<string>, at: nat, start: nat)
    requires IsCut(clause, start)
    requires forall i :: 0 <= i < |markers| ==> markers[i] != [] && !IsDigit(markers[i][|markers[i]| - 1])
    ensures IsCut(clause, TailStart(clause, markers, at, start))
    decreases |markers|
  {
    if markers != [] {
      var next := markers[1..];
      var found := RFind(clause, markers[0]);
      if found.Some? && found.value >= at {
        var i := found.value;
        assert clause[i..i + |markers[0]|][|markers[0]| - 1] == clause[i + |markers[0]| - 1];
        TailStartIsCut(clause, next, i, i + |markers[0]|);
      } else {
        TailStartIsCut(clause, next, at, start);
      }
    }
  }

  function CorrectedTailStart(clause: string): (n: nat)
    ensures IsCut(clause, n)
  {
    TailStartIsCut(clause, TAIL_MARKERS, 0, 0);
    TailStart(clause, TAIL_MARKERS, 0, 0)
  }

  function CorrectedClauseTail(clause: string): string { clause[CorrectedTailStart(clause)..] }

  /** `start` follows an occurrence at `at` of one of the markers, and none of them occurs later; or none
      occurs at all. */
  ghost predicate FollowsLast(clause: string, markers: seq<string>, at: nat, start: nat) {
    && (forall j, k: nat :: 0 <= j < |markers| && Occurs(clause, markers[j], k) ==> k <= at)
    && ((start == 0 && at == 0 && forall j, k: nat :: 0 <= j < |markers| ==> !Occurs(clause, markers[j], k))
        || exists j :: 0 <= j < |markers| && Occurs(clause, markers[j], at) && start == at + |markers[j]|)
  }

  lemma FollowsOneMore(clause: string, seen: seq<string>, marker: string, at: nat, start: nat)
    requires FollowsLast(clause, seen, at, start)
    ensures var found := RFind(clause, marker);
      if found.Some? && found.value >= at then FollowsLast(clause, seen + [marker], found.value, found.value + |marker|)
      else FollowsLast(clause, seen + [marker], at, start)
  {
    hide RFind, Occurs;
    var more := seen + [marker];
    var found := RFind(clause, marker);
    assert more[|seen|] == marker && forall j :: 0 <= j < |seen| ==> more[j] == seen[j];
    if found.Some? && found.value >= at {
      assert Occurs(clause, more[|seen|], found.value);
    } else if !(start == 0 && at == 0 && forall j, k: nat :: 0 <= j < |seen| ==> !Occurs(clause, seen[j], k)) {
      var j :| 0 <= j < |seen| && Occurs(clause, seen[j], at) && start == at + |seen[j]|;
      assert Occurs(clause, more[j], at) && start == at + |more[j]|;
    }
  }

  lemma {:induction false} TailStartFollows(clause: string, seen: seq<string>, markers: seq<string>, at: nat,
                                            start: nat)
    returns (last: nat)
    requires FollowsLast(clause, seen, at, start)
    ensures FollowsLast(clause, seen + markers, last, TailStart(clause, markers, at, start))
    decreases |markers|
  {
    hide FollowsLast, RFind;
    if markers == [] {
      assert seen + markers == seen;
      last := at;
    } else {
      var found := RFind(clause, markers[0]);
      FollowsOneMore(clause, seen, markers[0], at, start);
      assert seen + markers == seen + [markers[0]] + markers[1..];
      if found.Some? && found.value >= at {
        last := TailStartFollows(clause, seen + [markers[0]], markers[1..], found.value, found.value + |markers[0]|);
      } else {
        last := TailStartFollows(clause, seen + [markers[0]], markers[1..], at, start);
      }
    }
  }

  ghost predicate IsBehindMarker(clause: string, markers: seq<string>, start: nat) {
    exists i :: 0 <= i < |markers| && |markers[i]| <= start && Occurs(clause, markers[i], start - |markers[i]|)
  }

  /** The corrected tail holds no marker, and it is the whole clause or directly behind one. */
  lemma CorrectedTailIsLast(clause: string, j: nat)
    requires j < |TAIL_MARKERS|
    ensures !Contains(CorrectedClauseTail(clause), TAIL_MARKERS[j])
    ensures CorrectedTailStart(clause) == 0 || IsBehindMarker(clause, TAIL_MARKERS, CorrectedTailStart(clause))
  {
    var markers := TAIL_MARKERS;
    var start := CorrectedTailStart(clause);
    assert FollowsLast(clause, [], 0, 0);
    var last := TailStartFollows(clause, [], markers, 0, 0);
    assert [] + markers == markers;
    MarkerAhead(clause, markers, last, start);
    forall k: nat ensures !Occurs(clause[start..], markers[j], k) {
      if Occurs(clause[start..], markers[j], k) {
        OccursInTail(clause, markers[j], start, k);
      }
    }
  }

  lemma MarkerAhead(clause: string, markers: seq<string>, at: nat, start: nat)
    requires FollowsLast(clause, markers, at, start) && forall j :: 0 <= j < |markers| ==> markers[j] != []
    ensures start == 0 || IsBehindMarker(clause, markers, start)
    ensures forall j, k: nat :: 0 <= j < |markers| && start <= k ==> !Occurs(clause, markers[j], k)
  {
    hide Occurs;
    if !(start == 0 && at == 0 && forall j, k: nat :: 0 <= j < |markers| ==> !Occurs(clause, markers[j], k)) {
      var i :| 0 <= i < |markers| && Occurs(clause, markers[i], at) && start == at + |markers[i]|;
      assert start - |markers[i]| == at;
    }
  }

  lemma OccursInTail(s: string, needle: string, start: nat, k: nat)
    requires start <= |s| && Occurs(s[start..], needle, k)
    ensures Occurs(s, needle, start + k)
  {
    assert s[start..|s|] == s[start..];
    SliceOfSlice(s, start, |s|, k, k + |needle|);
  }

  /** Wherever the longest marker occurs the next one in the list occurs too, so its last occurrence is
      no earlier. */
  lemma ShorterMarkerIsLater(clause: string)
    ensures var long, short := RFind(clause, TAIL_MARKERS[0]), RFind(clause, TAIL_MARKERS[1]);
      long.Some? ==> short.Some? && short.value >= long.value
  {
    var long := RFind(clause, TAIL_MARKERS[0]);
    if long.Some? {
      assert TAIL_MARKERS[1] == TAIL_MARKERS[0][..4];
      DropOfTake(clause[long.value..], 0, 4);
      assert clause[long.value..long.value + 5][..4] == clause[long.value..long.value + 4];
      assert Occurs(clause, TAIL_MARKERS[1], long.value);
    }
  }

  /** So the longest marker never decides: without it every clause has the same corrected tail. */
  lemma LongMarkerIsShadowed(clause: string)
    ensures CorrectedTailStart(clause) == TailStart(clause, TAIL_MARKERS[1..], 0, 0)
  {
    var rest := TAIL_MARKERS[1..];
    ShorterMarkerIsLater(clause);
    TailStartStep(clause, TAIL_MARKERS, 0, 0);
    TailStartStep(clause, rest, 0, 0);
    var long := RFind(clause, TAIL_MARKERS[0]);
    hide RFind, TailStart;
    assert rest[0] == TAIL_MARKERS[1];
    if long.Some? {
      TailStartStep(clause, rest, long.value, long.value + |TAIL_MARKERS[0]|);
    }
  }

  lemma TailStartStep(clause: string, markers: seq<string>, at: nat, start: nat)
    requires markers != []
    ensures TailStart(clause, markers, at, start) ==
      var found := RFind(clause, markers[0]);
      if found.Some? && found.value >= at then TailStart(clause, markers[1..], found.value, found.value + |markers[0]|)
      else TailStart(clause, markers[1..], at, start)
  {
    hide RFind;
  }

  /** For one: the tail keeps the last character of the longest marker. */
  lemma LongMarkerLeavesItsEnd()
    ensures CorrectedClauseTail("最終的には3") == "は3"
  {
    hide TailStart, RFind;
    var s := "最終的には3";
    LongMarkerIsShadowed(s);
    assert Occurs(s, "最終的に", 0);
    NoLaterOccurrence(s, "最終的に", 0);
    NeverOccurs(s, "正しくは");
    NeverOccurs(s, "ここは");
    NeverOccurs(s, "ではなく");
    var others := ["正しくは", "ここは", "ではなく"];
    assert TAIL_MARKERS[1..] == ["最終的に"] + others;
    TailStartStep(s, TAIL_MARKERS[1..], 0, 0);
    assert TAIL_MARKERS[1..][1..] == others;
    TailWithoutMarkers(s, others, 0, 4);
  }

  lemma {:induction false} TailWithoutMarkers(clause: string, markers: seq<string>, at: nat, start: nat)
    requires forall j :: 0 <= j < |markers| ==> RFind(clause, markers[j]).None?
    ensures TailStart(clause, markers, at, start) == start
    decreases |markers|
  {
    hide RFind;
    if markers != [] {
      TailWithoutMarkers(clause, markers[1..], at, start);
    }
  }

  lemma NoLaterOccurrence(s: string, needle: string, i: nat)
    requires needle != [] && Occurs(s, needle, i)
    requires forall k :: i < k < |s| ==> s[k] != needle[0]
    ensures RFind(s, needle) == Some(i)
  {
    forall k | i < k < |s| + 1 ensures !Occurs(s, needle, k) {
      assert k + |needle| <= |s| ==> s[k..k + |needle|][0] == s[k];
    }
  }

  lemma NeverOccurs(s: string, needle: string)
    requires needle != [] && forall k :: 0 <= k < |s| ==> s[k] != needle[0]
    ensures RFind(s, needle) == None
  {
    forall k: nat ensures !Occurs(s, needle, k) {
      assert k + |needle| <= |s| ==> s[k..k + |needle|][0] == s[k];
    }
  }

  // ---------- Required numbers ----------

  /** How far the window reaches to the left; asking for nothing gets everything. */
  function LeftReach(start: nat, before: nat): (n: nat)
    ensures n <= start
  {
    if before == 0 then start else Min(before, start)
  }

  /** The characters around a number: `before` of them to the left and `after` to the right, or as many
      as there are. */
  function LocalNumberContext(clause: string, start: nat, end: nat, before: nat, after: nat): (r: string)
    requires start <= end <= |clause|
    ensures var left, right := LeftReach(start, before), Min(after, |clause| - end);
      && |r| == left + (end - start) + right
      && Occurs(clause, r, start - left) && Occurs(r, clause[start..end], left)
  {
    var from := if before > 0 && start > before then start - before else 0;
    var to := if end + after < |clause| then end + after else |clause|;
    SliceOfSlice(clause, from, to, start - from, end - from);
    clause[from..to]
  }

  /** The marker tables that the number rules look up: noise in a clause, "only" next to a number,
      guards against duplicates, symptoms next to a number, and what makes a number matter anyway. */
  datatype NumberRules = NumberRules(
    ignored: string -> bool,
    only: string -> bool,
    guardsDuplicates: string -> bool,
    symptom: string -> bool,
    matters: string -> bool)

  predicate Dropped(rules: NumberRules, clause: string, start: nat, end: nat)
    requires start <= end <= |clause|
  {
    || (clause[start..end] == "1" && rules.only(LocalNumberContext(clause, start, end, 10, 12)) &&
      rules.guardsDuplicates(clause))
    || (rules.symptom(LocalNumberContext(clause, start, end, 24, 24))
        && !rules.matters(LocalNumberContext(clause, start, end, 12, 18)))
  }

  /** `number` is a digit run of the corrected tail of a clause, and no rule drops it. */
  ghost predicate IsRequiredNumber(rules: NumberRules, input: string, number: string) {
    exists clause :: clause in Clauses(input) && !rules.ignored(clause) &&
      RequiredIn(rules, CorrectedClauseTail(clause), number)
  }

  ghost predicate RequiredIn(rules: NumberRules, effective: string, number: string) {
    RequiredBefore(rules, effective, |effective| + 1, number)
  }

  /** As `RequiredIn`, for the digit runs that end before `limit`. */
  ghost predicate RequiredBefore(rules: NumberRules, effective: string, limit: nat, number: string) {
    exists i: nat, j: nat ::
      j < limit && IsDigitRun(effective, i, j) && number == effective[i..j] && !Dropped(rules, effective, i, j)
  }

  lemma NoRunEndsHere(rules: NumberRules, effective: string, limit: nat)
    requires forall i: nat :: !IsDigitRun(effective, i, limit)
    ensures forall v :: RequiredBefore(rules, effective, limit + 1, v) <==> RequiredBefore(rules, effective, limit, v)
  {
    hide Dropped, IsDigitRun;
  }

  lemma RunEndsHere(rules: NumberRules, effective: string, start: nat, limit: nat)
    requires IsDigitRun(effective, start, limit)
    ensures forall v :: RequiredBefore(rules, effective, limit + 1, v) <==>
      || RequiredBefore(rules, effective, limit, v)
      || (v == effective[start..limit] && !Dropped(rules, effective, start, limit))
  {
    hide Dropped;
    OnlyOneRunEndsHere(effective, start, limit);
    hide IsDigitRun;
    forall v | RequiredBefore(rules, effective, limit + 1, v)
      ensures RequiredBefore(rules, effective, limit, v) ||
        (v == effective[start..limit] && !Dropped(rules, effective, start, limit))
    {
      var i: nat, j: nat :|
        j < limit + 1 && IsDigitRun(effective, i, j) && v == effective[i..j] && !Dropped(rules, effective, i, j);
    }
  }

  /** The numbers of one clause that must survive, added to the list. */
  method ExtractFromClause(rules: NumberRules, effective: string, known: seq<string>) returns (values: seq<string>)
    ensures forall v :: v in values <==> v in known || RequiredIn(rules, effective, v)
  {
    hide Dropped, RequiredBefore;
    values := known;
    var current := "";
    var currentStart: nat := 0;
    NothingEndsBefore(rules, effective);
    for index := 0 to |effective|
      invariant current != "" ==>
        && currentStart < index && current == effective[currentStart..index]
        && (forall k :: currentStart <= k < index ==> IsDigit(effective[k]))
        && (currentStart > 0 ==> !IsDigit(effective[currentStart - 1]))
      invariant current == "" && index > 0 ==> !IsDigit(effective[index - 1])
      invariant forall v :: v in values <==> v in known || RequiredBefore(rules, effective, index, v)
    {
      if IsDigit(effective[index]) {
        NoRunEndsHere(rules, effective, index);
        if current == "" {
          currentStart := index;
        }
        SliceSnoc(effective, currentStart, index);
        current := current + [effective[index]];
      } else if current != "" {
        RunEndsHere(rules, effective, currentStart, index);
        if !Dropped(rules, effective, currentStart, index) {
          values := PushUnique(values, current);
        }
        current := "";
      } else {
        NoRunEndsHere(rules, effective, index);
      }
    }
    if current != "" {
      RunEndsHere(rules, effective, currentStart, |effective|);
      if !Dropped(rules, effective, currentStart, |effective|) {
        values := PushUnique(values, current);
      }
    } else {
      NoRunEndsHere(rules, effective, |effective|);
    }
  }

  lemma NothingEndsBefore(rules: NumberRules, effective: string)
    ensures forall v :: !RequiredBefore(rules, effective, 0, v)
  {
  }

  method ExtractNumbers(rules: NumberRules, input: string) returns (values: seq<string>)
    ensures forall v :: v in values <==> IsRequiredNumber(rules, input, v)
  {
    values := [];
    var clauses := Clauses(input);
    for c := 0 to |clauses|
      invariant forall v :: v in values <==>
        exists k :: 0 <= k < c && !rules.ignored(clauses[k]) && RequiredIn(rules, CorrectedClauseTail(clauses[k]), v)
    {
      if rules.ignored(clauses[c]) {
        continue;
      }
      values := ExtractFromClause(rules, CorrectedClauseTail(clauses[c]), values);
    }
    forall v ensures v in values <==> IsRequiredNumber(rules, input, v) {
      if v in values {
        var k :| 0 <= k < |clauses| && !rules.ignored(clauses[k]) &&
          RequiredIn(rules, CorrectedClauseTail(clauses[k]), v);
        assert clauses[k] in Clauses(input);
      }
    }
  }

  /** A digit run of a part that is cut at non-digits is a digit run of the whole. */
  lemma RunOfSlice(whole: string, i: nat, j: nat, a: nat, b: nat)
    requires i <= j <= |whole| && IsDigitRun(whole[i..j], a, b)
    requires (i > 0 ==> !IsDigit(whole[i - 1])) && (j < |whole| ==> !IsDigit(whole[j]))
    ensures IsDigitRun(whole, i + a, i + b) && whole[i..j][a..b] == whole[i + a..i + b]
  {
    var part := whole[i..j];
    assert forall k :: a <= k < b ==> part[k] == whole[i + k];
    assert a > 0 ==> part[a - 1] == whole[i + a - 1];
    assert b < |part| ==> part[b] == whole[i + b];
    SliceOfSlice(whole, i, j, a, b);
    assert forall k :: i + a <= k < i + b ==> whole[k] == part[k - i];
  }

  /** Every number that is required of a text is one of the text's own maximal digit runs. */
  lemma RequiredNumbersOccur(rules: NumberRules, input: string, number: string)
    requires IsRequiredNumber(rules, input, number)
    ensures HasNumber(input, number)
  {
    var clause :| clause in Clauses(input) && RequiredIn(rules, CorrectedClauseTail(clause), number);
    TailNumbersOccur(rules, clause, number);
    var i, j := PieceOf(EndsClause, input, clause);
    NumbersOfPiece(input, i, j, number);
  }

  lemma TailNumbersOccur(rules: NumberRules, clause: string, number: string)
    requires RequiredIn(rules, CorrectedClauseTail(clause), number)
    ensures HasNumber(clause, number)
  {
    hide CorrectedTailStart, Dropped;
    var n := CorrectedTailStart(clause);
    var a: nat, b: nat :| IsDigitRun(clause[n..], a, b) && number == clause[n..][a..b];
    assert clause[n..|clause|] == clause[n..];
    RunOfSlice(clause, n, |clause|, a, b);
  }

  lemma NumbersOfPiece(input: string, i: nat, j: nat, number: string)
    requires IsPiece(EndsClause, input, i, j) && HasNumber(input[i..j], number)
    ensures HasNumber(input, number)
  {
    var a: nat, b: nat :| IsDigitRun(input[i..j], a, b) && number == input[i..j][a..b];
    RunOfSlice(input, i, j, a, b);
  }

  // ---------- Error literals ----------

  predicate IsIdentifierToken(c: char) { IsAsciiAlphanumeric(c) || c == '_' || c == '-' }

  function UpperAscii(c: char): char { if 'a' <= c <= 'z' then (c as int - 32) as char else c }

  const EXCLUDED: seq<string> := ["API", "GET", "HTTP", "JSON", "POST", "PUT", "DELETE"]

  /** Four characters or more, with a letter, without a lower-case letter, and no common acronym. */
  predicate IsErrorCode(token: string) {
    && |token| >= 4
    && (exists i :: 0 <= i < |token| && IsAsciiAlphabetic(token[i]))
    && (forall i :: 0 <= i < |token| ==> !('a' <= token[i] <= 'z'))
    && seq(|token|, i requires 0 <= i < |token| => UpperAscii(token[i])) !in EXCLUDED
  }

  datatype Quotation = Quotation(value: string, rest: string)

  /** The trimmed text between the first opening quote and the closing one after it. */
  function NextQuoted(s: string, open: char, close: char): (r: Option<Quotation>)
    ensures r.Some? ==> |r.value.rest| < |s|
  {
    var start := FindChar(s, open);
    if start == |s| then None
    else
      var rest := s[start + 1..];
      var end := FindChar(rest, close);
      if end == |rest| then None else Some(Quotation(Trim(rest[..end]), rest[end + 1..]))
  }

  function Kept(value: string): seq<string> { if value == [] then [] else [value] }

  /** All quoted texts that are not blank. */
  function Quoted(s: string, open: char, close: char): (r: seq<string>)
    decreases |s|
  {
    match NextQuoted(s, open, close)
    case None => []
    case Some(next) => Kept(next.value) + Quoted(next.rest, open, close)
  }

  lemma QuotedStep(values: seq<string>, s: string, open: char, close: char)
    requires NextQuoted(s, open, close).Some?
    ensures var next := NextQuoted(s, open, close).value;
      values + Quoted(s, open, close) == values + Kept(next.value) + Quoted(next.rest, open, close)
  {
    hide NextQuoted;
    var next := NextQuoted(s, open, close).value;
    Associative(values, Kept(next.value), Quoted(next.rest, open, close));
  }

  lemma NextQuotedIs(s: string, open: char, close: char, start: nat, end: nat)
    requires start == FindChar(s, open) < |s| && end == FindChar(s[start + 1..], close) < |s[start + 1..]|
    ensures NextQuoted(s, open, close) == Some(Quotation(Trim(s[start + 1..][..end]), s[start + 1..][end + 1..]))
  {
    hide FindChar, Trim;
  }

  lemma NothingQuoted(s: string, open: char, close: char)
    requires NextQuoted(s, open, close).None?
    ensures forall values: seq<string> :: values + Quoted(s, open, close) == values
  {
  }

  method QuotedValues(input: string, open: char, close: char) returns (values: seq<string>)
    ensures values == Quoted(input, open, close)
  {
    hide Quoted, Trim;
    values := [];
    var remainder := input;
    while true
      invariant Quoted(input, open, close) == values + Quoted(remainder, open, close)
      decreases |remainder|
    {
      var start := FindChar(remainder, open);
      if start == |remainder| {
        NothingQuoted(remainder, open, close);
        return;
      }
      var afterOpen := remainder[start + 1..];
      var end := FindChar(afterOpen, close);
      if end == |afterOpen| {
        NothingQuoted(remainder, open, close);
        return;
      }
      var value := Trim(afterOpen[..end]);
      NextQuotedIs(remainder, open, close, start, end);
      QuotedStep(values, remainder, open, close);
      values := values + Kept(value);
      remainder := afterOpen[end + 1..];
    }
  }

  lemma NextQuotedIsSubstring(s: string, open: char, close: char)
    requires NextQuoted(s, open, close).Some?
    ensures var next := NextQuoted(s, open, close).value; IsSubstring(next.value, s) && IsSubstring(next.rest, s)
  {
    hide IsSubstring, Trim;
    var start := FindChar(s, open);
    var rest := s[start + 1..];
    var end := FindChar(rest, close);
    SliceIsSubstring(s, start + 1, |s|);
    assert s[start + 1..|s|] == rest;
    TrimmedIsSubstring(rest[..end]);
    SliceIsSubstring(rest, 0, end);
    assert rest[0..end] == rest[..end];
    SubstringsCompose(Trim(rest[..end]), rest[..end], rest);
    SubstringsCompose(Trim(rest[..end]), rest, s);
    SliceIsSubstring(rest, end + 1, |rest|);
    assert rest[end + 1..|rest|] == rest[end + 1..];
    SubstringsCompose(rest[end + 1..], rest, s);
  }

  lemma {:induction false} QuotedIsSubstring(s: string, open: char, close: char, value: string)
    requires value in Quoted(s, open, close)
    ensures IsSubstring(value, s)
    decreases |s|
  {
    hide IsSubstring, NextQuoted;
    var next := NextQuoted(s, open, close).value;
    NextQuotedIsSubstring(s, open, close);
    if value !in Kept(next.value) {
      QuotedIsSubstring(next.rest, open, close, value);
      SubstringsCompose(value, next.rest, s);
    }
  }

  function ErrorCodes(tokens: seq<string>): (r: seq<string>)
    ensures forall v :: v in r <==> v in tokens && IsErrorCode(v)
  {
    if tokens == [] then []
    else
      assert forall v :: v in tokens <==> v == tokens[0] || v in tokens[1..];
      (if IsErrorCode(tokens[0]) then [tokens[0]] else []) + ErrorCodes(tokens[1..])
  }

  predicate SeparatesTokens(c: char) { !IsIdentifierToken(c) }

  ghost predicate IsLiteralOf(clause: string, value: string) {
    || value in ErrorCodes(SplitBy(SeparatesTokens, clause))
    || value in Quoted(clause, '"', '"') || value in Quoted(clause, '「', '」') || value in Quoted(clause, '『', '』')
  }

  method LiteralsOfClause(clause: string, known: seq<string>) returns (values: seq<string>)
    ensures forall v :: v in values <==> v in known || IsLiteralOf(clause, v)
  {
    hide ErrorCodes, SplitBy, Quoted, PushAllUnique;
    values := PushAllUnique(known, ErrorCodes(SplitBy(SeparatesTokens, clause)));
    var straight := QuotedValues(clause, '"', '"');
    values := PushAllUnique(values, straight);
    var corner := QuotedValues(clause, '「', '」');
    values := PushAllUnique(values, corner);
    var double := QuotedValues(clause, '『', '』');
    values := PushAllUnique(values, double);
  }

  /** `mentionsError` is the clause test for error vocabulary. */
  ghost predicate IsErrorLiteral(mentionsError: string -> bool, input: string, value: string) {
    exists clause :: clause in Clauses(input) && mentionsError(clause) && IsLiteralOf(clause, value)
  }

  method ExtractErrorLiterals(mentionsError: string -> bool, input: string) returns (values: seq<string>)
    ensures forall v :: v in values <==> IsErrorLiteral(mentionsError, input, v)
  {
    hide IsLiteralOf;
    values := [];
    var clauses := Clauses(input);
    for c := 0 to |clauses|
      invariant forall v :: v in values <==>
        exists k :: 0 <= k < c && mentionsError(clauses[k]) && IsLiteralOf(clauses[k], v)
    {
      if !mentionsError(clauses[c]) {
        continue;
      }
      values := LiteralsOfClause(clauses[c], values);
    }
    forall v ensures v in values <==> IsErrorLiteral(mentionsError, input, v) {
      if v in values {
        var k :| 0 <= k < |clauses| && mentionsError(clauses[k]) && IsLiteralOf(clauses[k], v);
        assert clauses[k] in Clauses(input);
      }
    }
  }

  /** Every error literal is a piece of the text it was taken from. */
  lemma ErrorLiteralsOccur(mentionsError: string -> bool, input: string, value: string)
    requires IsErrorLiteral(mentionsError, input, value)
    ensures IsSubstring(value, input)
  {
    hide IsSubstring;
    var clause :| clause in Clauses(input) && IsLiteralOf(clause, value);
    LiteralIsSubstring(clause, value);
    var i, j := PieceOf(EndsClause, input, clause);
    SliceIsSubstring(input, i, j);
    SubstringsCompose(value, clause, input);
  }

  lemma LiteralIsSubstring(clause: string, value: string)
    requires IsLiteralOf(clause, value)
    ensures IsSubstring(value, clause)
  {
    hide IsSubstring, SplitBy, Quoted;
    if value in ErrorCodes(SplitBy(SeparatesTokens, clause)) {
      var a, b := PieceOf(SeparatesTokens, clause, value);
      SliceIsSubstring(clause, a, b);
    } else if value in Quoted(clause, '"', '"') {
      QuotedIsSubstring(clause, '"', '"', value);
    } else if value in Quoted(clause, '「', '」') {
      QuotedIsSubstring(clause, '「', '」', value);
    } else {
      QuotedIsSubstring(clause, '『', '』', value);
    }
  }

  // ---------- Code blocks ----------

  function WithUnixLines(s: string): string
    decreases |s|
  {
    if s == [] then []
    else if Occurs(s, "\r\n", 0) then ['\n'] + WithUnixLines(s[2..])
    else [s[0]] + WithUnixLines(s[1..])
  }

  function SplitOn(s: string, fence: string): seq<string>
    requires fence != []
    decreases |s|
  {
    match Find(s, fence)
    case None => [s]
    case Some(i) => [s[..i]] + SplitOn(s[i + |fence|..], fence)
  }

  function OddTrimmed(pieces: seq<string>, odd: bool): seq<string> {
    if pieces == [] then []
    else (if odd && Trim(pieces[0]) != [] then [Trim(pieces[0])] else []) + OddTrimmed(pieces[1..], !odd)
  }

  /** The trimmed, non-empty texts between fences. */
  function FencedCodeBlocks(input: string): seq<string> {
    OddTrimmed(SplitOn(WithUnixLines(input), "```"), false)
  }

  function JoinOn(pieces: seq<string>, fence: string): string
    requires pieces != []
    decreases |pieces|
  {
    if |pieces| == 1 then pieces[0] else pieces[0] + (fence + JoinOn(pieces[1..], fence))
  }

  /** Splitting loses nothing, and no piece holds a fence. */
  lemma {:induction false} SplitOnFences(s: string, fence: string)
    requires fence != []
    ensures SplitOn(s, fence) != [] && JoinOn(SplitOn(s, fence), fence) == s
    ensures forall k :: 0 <= k < |SplitOn(s, fence)| ==> !Contains(SplitOn(s, fence)[k], fence)
    decreases |s|
  {
    hide Contains;
    var found := Find(s, fence);
    if found.None? {
      FirstHasNoFence(s, fence, |s|);
      assert s[..|s|] == s;
    } else {
      var i := found.value;
      var rest := s[i + |fence|..];
      SplitOnFences(rest, fence);
      FirstHasNoFence(s, fence, i);
      assert SplitOn(s, fence)[1..] == SplitOn(rest, fence);
      CutAtFence(s, fence, i);
    }
  }

  lemma CutAtFence(s: string, fence: string, i: nat)
    requires Occurs(s, fence, i)
    ensures s[..i] + (fence + s[i + |fence|..]) == s
  {
  }

  lemma FirstHasNoFence(s: string, fence: string, i: nat)
    requires fence != [] && i <= |s| && forall k: nat :: k < i ==> !Occurs(s, fence, k)
    ensures !Contains(s[..i], fence)
  {
    forall k: nat ensures !Occurs(s[..i], fence, k) {
      if k + |fence| <= i {
        assert !Occurs(s, fence, k);
        assert s[..i][k..k + |fence|] == s[k..k + |fence|];
      }
    }
  }

  lemma {:induction false} OddTrimmedComesFrom(pieces: seq<string>, odd: bool, block: string) returns (k: nat)
    requires block in OddTrimmed(pieces, odd)
    ensures block != [] && k < |pieces| && block == Trim(pieces[k]) && (k % 2 == 1 <==> !odd)
    decreases |pieces|
  {
    hide Trim;
    if odd && block == Trim(pieces[0]) && block != [] {
      k := 0;
    } else {
      k := OddTrimmedComesFrom(pieces[1..], !odd, block);
      k := k + 1;
    }
  }

  /** A code block is not blank, holds no fence, and stands between two fences or behind the last one. */
  lemma CodeBlocksAreFenced(input: string, block: string) returns (k: nat)
    requires block in FencedCodeBlocks(input)
    ensures block != [] && !Contains(block, "```")
    ensures var pieces := SplitOn(WithUnixLines(input), "```");
      k < |pieces| && k % 2 == 1 && block == Trim(pieces[k])
  {
    hide Contains, Trim, SplitOn;
    var pieces := SplitOn(WithUnixLines(input), "```");
    k := OddTrimmedComesFrom(pieces, false, block);
    SplitOnFences(WithUnixLines(input), "```");
    NoFenceInPart(block, pieces[k], "```") by {
      TrimmedIsSubstring(pieces[k]);
    }
  }

  lemma NoFenceInPart(part: string, whole: string, fence: string)
    requires IsSubstring(part, whole) && !Contains(whole, fence)
    ensures !Contains(part, fence)
  {
    ContainsIsSubstring(part, fence);
    ContainsIsSubstring(whole, fence);
    hide IsSubstring, Contains;
    if Contains(part, fence) {
      SubstringsCompose(fence, part, whole);
    }
  }
}
