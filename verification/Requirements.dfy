/** What a draft has to keep, on the characters of the input (compression/verifier.rs).  The extractors
    compute exactly this. */
module Requirements {
  import opened Sequences
  import opened Text
  import opened Extractors

  // ---------- Clauses ----------

  predicate IsClauseEnd(c: char) { c == '。' || c == '！' || c == '？' || c == '\n' || c == ';' }

  /** `s[i..j]` is the text between two clause ends, or between one and a border of `s`. */
  ghost predicate ClauseAt(s: string, i: nat, j: nat) {
    && i <= j <= |s| && (forall k :: i <= k < j ==> !IsClauseEnd(s[k]))
    && (i > 0 ==> IsClauseEnd(s[i - 1])) && (j < |s| ==> IsClauseEnd(s[j]))
  }

  ghost predicate IsClause(s: string, clause: string) {
    exists i: nat, j: nat :: ClauseAt(s, i, j) && clause == s[i..j]
  }

  /** Every piece between separators is among the pieces. */
  lemma {:induction false} PieceIsListed(p: char -> bool, s: string, i: nat, j: nat)
    requires IsPiece(p, s, i, j)
    ensures s[i..j] in SplitBy(p, s)
    decreases |s|
  {
    var n := PieceLength(p, s);
    SplitByUnfolds(p, s);
    hide SplitBy, PieceLength;
    if i == 0 {
      assert j == n && s[0..n] == s[..n];
    } else {
      var rest := s[n + 1..];
      assert n < i;
      assert forall k :: n < k < |s| ==> s[k] == rest[k - n - 1];
      assert IsPiece(p, rest, i - n - 1, j - n - 1);
      PieceIsListed(p, rest, i - n - 1, j - n - 1);
      assert rest[i - n - 1..j - n - 1] == s[i..j];
    }
  }

  lemma PiecesExactly(p: char -> bool, s: string, v: string)
    ensures v in SplitBy(p, s) <==> exists i: nat, j: nat :: IsPiece(p, s, i, j) && v == s[i..j]
  {
    hide SplitBy;
    if v in SplitBy(p, s) {
      var i, j := PieceOf(p, s, v);
    }
    if i: nat, j: nat :| IsPiece(p, s, i, j) && v == s[i..j] {
      PieceIsListed(p, s, i, j);
    }
  }

  /** The clauses of a text are the pieces between its clause ends, all of them. */
  lemma ClausesExactly(s: string, clause: string)
    ensures clause in Clauses(s) <==> IsClause(s, clause)
  {
    PiecesExactly(EndsClause, s, clause);
    assert forall i: nat, j: nat :: ClauseAt(s, i, j) <==> IsPiece(EndsClause, s, i, j);
  }

  // ---------- Code blocks ----------

  /** Each place is at least `gap` behind the one before. */
  ghost predicate Spaced(places: seq<nat>, gap: nat) {
    forall a, b :: 0 <= a < b < |places| ==> places[a] + gap <= places[b]
  }

  /** The fences of a text from left to right: none overlaps the one before, and every place where one
      could start lies within one of them. */
  ghost predicate AreFences(s: string, fences: seq<nat>) {
    Spaced(fences, 3) && AllAreFences(s, 0, fences) && CoversFences(s, 0, fences)
  }

  ghost predicate AllAreFences(s: string, from: nat, fences: seq<nat>) {
    forall i :: 0 <= i < |fences| ==> from <= fences[i] && Occurs(s, "```", fences[i])
  }

  ghost predicate CoversFences(s: string, from: nat, fences: seq<nat>) {
    forall k: nat :: from <= k && Occurs(s, "```", k) ==>
      exists i :: 0 <= i < |fences| && fences[i] <= k < fences[i] + 3
  }

  function From(fences: seq<nat>, j: nat): nat
    requires j <= |fences|
  {
    if j == 0 then 0 else fences[j - 1] + 3
  }

  function To(s: string, fences: seq<nat>, j: nat): nat
    requires j <= |fences|
  {
    if j < |fences| then fences[j] else |s|
  }

  lemma FenceBounds(s: string, fences: seq<nat>, j: nat)
    requires AreFences(s, fences) && j <= |fences|
    ensures From(fences, j) <= To(s, fences, j) <= |s|
    ensures j < |fences| ==> fences[j] == To(s, fences, j) && Occurs(s, "```", fences[j])
  {
  }

  lemma SpacedOrder(places: seq<nat>, gap: nat, a: nat, b: nat)
    requires Spaced(places, gap) && a <= b < |places|
    ensures places[a] <= places[b]
  {
  }

  lemma FenceCovers(s: string, fences: seq<nat>, k: nat) returns (i: nat)
    requires AreFences(s, fences) && Occurs(s, "```", k)
    ensures i < |fences| && fences[i] <= k < fences[i] + 3 && Spaced(fences, 3)
  {
    hide Occurs, Spaced;
    i :| 0 <= i < |fences| && fences[i] <= k < fences[i] + 3;
  }

  lemma NoFenceBetween(s: string, fences: seq<nat>, j: nat, k: nat)
    requires AreFences(s, fences) && j <= |fences| && From(fences, j) <= k && Occurs(s, "```", k)
    ensures j < |fences| && fences[j] <= k
  {
    hide Occurs, Spaced, AreFences;
    var i := FenceCovers(s, fences, k);
    if i < j {
      SpacedOrder(fences, 3, i, j - 1);
    } else {
      SpacedOrder(fences, 3, j, i);
    }
  }

  /** The next fence is the first one behind the last. */
  lemma NextFence(s: string, fences: seq<nat>, j: nat)
    requires AreFences(s, fences) && j <= |fences|
    ensures From(fences, j) <= |s|
    ensures Find(s[From(fences, j)..], "```") == if j < |fences| then Some(fences[j] - From(fences, j)) else None
  {
    hide *;
    FenceBounds(s, fences, j);
    var from := From(fences, j);
    var rest := s[from..];
    var found := Find(rest, "```");
    if j < |fences| {
      OccursInRest(s, "```", from, fences[j] - from);
    }
    if found.Some? {
      OccursInRest(s, "```", from, found.value);
      NoFenceBetween(s, fences, j, from + found.value);
    }
  }

  lemma OccursInRest(s: string, needle: string, from: nat, k: nat)
    requires from <= |s|
    ensures Occurs(s[from..], needle, k) <==> Occurs(s, needle, from + k)
  {
    if from + k + |needle| <= |s| {
      assert s[from..][k..k + |needle|] == s[from + k..from + k + |needle|];
    }
  }

  /** The text between the `j`-th fence and the one before. */
  function Between(s: string, fences: seq<nat>, j: nat): string
    requires j <= |fences| && From(fences, j) <= To(s, fences, j) <= |s|
  {
    s[From(fences, j)..To(s, fences, j)]
  }

  lemma SplitOnUnfolds(s: string, fence: string)
    requires fence != []
    ensures var found := Find(s, fence);
      && (found.None? ==> SplitOn(s, fence) == [s])
      && (found.Some? ==> SplitOn(s, fence) == [s[..found.value]] + SplitOn(s[found.value + |fence|..], fence))
  {
  }

  lemma {:induction false} PiecesLieBetween(s: string, fences: seq<nat>, j: nat, k: nat)
    requires AreFences(s, fences) && j <= k <= |fences|
    ensures From(fences, j) <= |s| && From(fences, k) <= To(s, fences, k) <= |s|
    ensures var pieces := SplitOn(s[From(fences, j)..], "```");
      |pieces| == |fences| - j + 1 && pieces[k - j] == Between(s, fences, k)
    decreases |fences| - j
  {
    hide AreFences, Find, Occurs, SplitOn;
    FenceBounds(s, fences, j);
    NextFence(s, fences, j);
    var rest := s[From(fences, j)..];
    SplitOnUnfolds(rest, "```");
    if j < |fences| {
      var n := fences[j] - From(fences, j);
      FenceBounds(s, fences, j + 1);
      assert rest[n + 3..] == s[From(fences, j + 1)..];
      PiecesLieBetween(s, fences, j + 1, if k == j then k + 1 else k);
      assert rest[..n] == Between(s, fences, j);
    } else {
      assert rest == Between(s, fences, j);
    }
  }

  /** An odd piece that is not blank. */
  predicate IsBlock(pieces: seq<string>, k: nat) { k < |pieces| && k % 2 == 1 && Trim(pieces[k]) != "" }

  ghost predicate AllAreBlocks(pieces: seq<string>, from: nat, at: seq<nat>) {
    forall i :: 0 <= i < |at| ==> from <= at[i] && IsBlock(pieces, at[i])
  }

  ghost predicate CoversBlocks(pieces: seq<string>, from: nat, at: seq<nat>) {
    forall k: nat :: from <= k && IsBlock(pieces, k) ==> k in at
  }

  /** `at` are the places of the odd pieces that are not blank, from `from` on, in their order. */
  ghost predicate ArePlaces(pieces: seq<string>, from: nat, at: seq<nat>) {
    Spaced(at, 1) && AllAreBlocks(pieces, from, at) && CoversBlocks(pieces, from, at)
  }

  /** The list holds the trimmed pieces at these places. */
  ghost predicate Lists(list: seq<string>, pieces: seq<string>, at: seq<nat>) {
    |list| == |at| && forall i :: 0 <= i < |at| ==> at[i] < |pieces| && list[i] == Trim(pieces[at[i]])
  }

  lemma SpacedCons(n: nat, rest: seq<nat>, gap: nat)
    requires Spaced(rest, gap) && forall i :: 0 <= i < |rest| ==> n + gap <= rest[i]
    ensures Spaced([n] + rest, gap)
  {
    var all := [n] + rest;
    forall a, b | 0 <= a < b < |all| ensures all[a] + gap <= all[b] {
      assert all[b] == rest[b - 1];
      if a > 0 {
        assert all[a] == rest[a - 1];
      }
    }
  }

  lemma BlocksCons(pieces: seq<string>, n: nat, rest: seq<nat>)
    requires AllAreBlocks(pieces, n + 1, rest) && CoversBlocks(pieces, n + 1, rest) && IsBlock(pieces, n)
    ensures AllAreBlocks(pieces, n, [n] + rest) && CoversBlocks(pieces, n, [n] + rest)
  {
    hide IsBlock;
    var all := [n] + rest;
    forall i | 0 <= i < |all| ensures n <= all[i] && IsBlock(pieces, all[i]) {
      if i > 0 {
        assert all[i] == rest[i - 1];
      }
    }
    forall k: nat | n <= k && IsBlock(pieces, k) ensures k in all {
      if k > n {
        assert k in rest;
      }
    }
  }

  lemma ListsCons(list: seq<string>, pieces: seq<string>, n: nat, rest: seq<nat>)
    requires Lists(list, pieces, rest) && n < |pieces|
    ensures Lists([Trim(pieces[n])] + list, pieces, [n] + rest)
  {
    hide Trim;
    var all, more := [n] + rest, [Trim(pieces[n])] + list;
    forall i | 0 <= i < |all| ensures all[i] < |pieces| && more[i] == Trim(pieces[all[i]]) {
      if i > 0 {
        assert all[i] == rest[i - 1] && more[i] == list[i - 1];
      }
    }
  }

  lemma OnePlaceMore(pieces: seq<string>, from: nat, rest: seq<nat>, list: seq<string>)
    requires from < |pieces| && ArePlaces(pieces, from + 1, rest) && Lists(list, pieces, rest)
    requires IsBlock(pieces, from)
    ensures ArePlaces(pieces, from, [from] + rest) && Lists([Trim(pieces[from])] + list, pieces, [from] + rest)
  {
    assert forall i :: 0 <= i < |rest| ==> from + 1 <= rest[i];
    hide Trim, Spaced, AllAreBlocks, CoversBlocks, Lists, IsBlock;
    SpacedCons(from, rest, 1);
    BlocksCons(pieces, from, rest);
    ListsCons(list, pieces, from, rest);
  }

  lemma NoPlaceMore(pieces: seq<string>, from: nat, rest: seq<nat>)
    requires from < |pieces| && ArePlaces(pieces, from + 1, rest) && !IsBlock(pieces, from)
    ensures ArePlaces(pieces, from, rest)
  {
    hide IsBlock, Spaced;
  }

  lemma OddTrimmedStep(pieces: seq<string>, from: nat)
    requires from < |pieces|
    ensures OddTrimmed(pieces[from..], from % 2 == 1) ==
      (if from % 2 == 1 && Trim(pieces[from]) != "" then [Trim(pieces[from])] else []) +
        OddTrimmed(pieces[from + 1..], (from + 1) % 2 == 1)
  {
    hide Trim;
    assert pieces[from..][0] == pieces[from] && pieces[from..][1..] == pieces[from + 1..];
  }

  lemma BlockIs(pieces: seq<string>, k: nat)
    requires k < |pieces|
    ensures IsBlock(pieces, k) <==> k % 2 == 1 && Trim(pieces[k]) != ""
  {
  }

  lemma NoPlaces(pieces: seq<string>)
    ensures ArePlaces(pieces, |pieces|, []) && Lists(OddTrimmed(pieces[|pieces|..], |pieces| % 2 == 1), pieces, [])
  {
  }

  lemma {:induction false} OddPiecesAreListed(pieces: seq<string>, from: nat) returns (at: seq<nat>)
    requires from <= |pieces|
    ensures ArePlaces(pieces, from, at) && Lists(OddTrimmed(pieces[from..], from % 2 == 1), pieces, at)
    decreases |pieces| - from
  {
    hide *;
    if from == |pieces| {
      NoPlaces(pieces);
      at := [];
    } else {
      var rest := OddPiecesAreListed(pieces, from + 1);
      OddTrimmedStep(pieces, from);
      var list := OddTrimmed(pieces[from + 1..], (from + 1) % 2 == 1);
      BlockIs(pieces, from);
      if IsBlock(pieces, from) {
        OnePlaceMore(pieces, from, rest, list);
        at := [from] + rest;
      } else {
        NoPlaceMore(pieces, from, rest);
        assert [] + list == list;
        at := rest;
      }
    }
  }

  /** A nonblank text between an odd fence and the next one, or the end; `j` counts the fences up to it. */
  ghost predicate FencedAt(s: string, fences: seq<nat>, j: nat, block: string) {
    && AreFences(s, fences) && j <= |fences| && j % 2 == 1
    && From(fences, j) <= To(s, fences, j) <= |s| && block == Trim(Between(s, fences, j)) && block != ""
  }

  ghost predicate IsFencedBlock(text: string, block: string) {
    exists fences: seq<nat>, j: nat :: FencedAt(WithUnixLines(text), fences, j, block)
  }

  /** The list of code blocks is exact: all fenced texts that are not blank, trimmed, in their order. */
  lemma BlocksInOrder(text: string, fences: seq<nat>) returns (at: seq<nat>)
    requires AreFences(WithUnixLines(text), fences)
    ensures |at| == |FencedCodeBlocks(text)| && Spaced(at, 1)
    ensures forall i :: 0 <= i < |at| ==> FencedAt(WithUnixLines(text), fences, at[i], FencedCodeBlocks(text)[i])
    ensures forall j: nat, block :: FencedAt(WithUnixLines(text), fences, j, block) ==> j in at
  {
    var s := WithUnixLines(text);
    var pieces := SplitOn(s, "```");
    PiecesAre(s, fences);
    at := OddPiecesAreListed(pieces, 0);
    BlocksAt(text, fences, at);
  }

  lemma BlocksAt(text: string, fences: seq<nat>, at: seq<nat>)
    requires var s := WithUnixLines(text);
      var pieces := SplitOn(s, "```");
      && AreFences(s, fences) && |pieces| == |fences| + 1
      && (forall k: nat :: k <= |fences| ==>
        From(fences, k) <= To(s, fences, k) <= |s| && pieces[k] == Between(s, fences, k))
      && ArePlaces(pieces, 0, at) && Lists(OddTrimmed(pieces[0..], false), pieces, at)
    ensures Spaced(at, 1)
    ensures |at| == |FencedCodeBlocks(text)|
    ensures forall i :: 0 <= i < |at| ==> FencedAt(WithUnixLines(text), fences, at[i], FencedCodeBlocks(text)[i])
    ensures forall j: nat, block :: FencedAt(WithUnixLines(text), fences, j, block) ==> j in at
  {
    var s := WithUnixLines(text);
    var pieces := SplitOn(s, "```");
    hide AreFences, SplitOn, Trim, WithUnixLines, OddTrimmed, Between, From, To;
    assert pieces[0..] == pieces;
    forall j: nat, block | FencedAt(s, fences, j, block) ensures j in at {
      assert IsBlock(pieces, j);
    }
  }

  lemma PiecesAre(s: string, fences: seq<nat>)
    requires AreFences(s, fences)
    ensures |SplitOn(s, "```")| == |fences| + 1
    ensures forall k: nat :: k <= |fences| ==>
      From(fences, k) <= To(s, fences, k) <= |s| && SplitOn(s, "```")[k] == Between(s, fences, k)
  {
    hide AreFences, SplitOn, Between, To;
    assert s[From(fences, 0)..] == s;
    PiecesLieBetween(s, fences, 0, 0);
    forall k: nat | k <= |fences|
      ensures From(fences, k) <= To(s, fences, k) <= |s| && SplitOn(s, "```")[k] == Between(s, fences, k)
    {
      PiecesLieBetween(s, fences, 0, k);
    }
  }

  /** Every text has fences in this sense. */
  ghost predicate AreFencesFrom(s: string, from: nat, fences: seq<nat>) {
    Spaced(fences, 3) && AllAreFences(s, from, fences) && CoversFences(s, from, fences)
  }

  lemma FencesCons(s: string, from: nat, n: nat, rest: seq<nat>)
    requires from <= n && Occurs(s, "```", n) && AllAreFences(s, n + 3, rest)
    ensures AllAreFences(s, from, [n] + rest)
  {
    hide Occurs;
    var fences := [n] + rest;
    forall i | 0 <= i < |fences| ensures from <= fences[i] && Occurs(s, "```", fences[i]) {
      if i > 0 {
        assert fences[i] == rest[i - 1];
      }
    }
  }

  lemma CoversCons(s: string, from: nat, n: nat, rest: seq<nat>)
    requires from <= n && CoversFences(s, n + 3, rest)
    requires forall k: nat :: from <= k < n ==> !Occurs(s, "```", k)
    ensures CoversFences(s, from, [n] + rest)
  {
    hide Occurs;
    var fences := [n] + rest;
    forall k: nat | from <= k && Occurs(s, "```", k)
      ensures exists i :: 0 <= i < |fences| && fences[i] <= k < fences[i] + 3
    {
      if k < n + 3 {
        assert fences[0] <= k < fences[0] + 3;
      } else {
        var i :| 0 <= i < |rest| && rest[i] <= k < rest[i] + 3;
        assert fences[i + 1] == rest[i];
      }
    }
  }

  lemma OneFenceMore(s: string, from: nat, n: nat, rest: seq<nat>)
    requires from <= n && Occurs(s, "```", n) && AreFencesFrom(s, n + 3, rest)
    requires forall k: nat :: from <= k < n ==> !Occurs(s, "```", k)
    ensures AreFencesFrom(s, from, [n] + rest)
  {
    assert forall i :: 0 <= i < |rest| ==> n + 3 <= rest[i];
    hide Occurs, Spaced, AllAreFences, CoversFences;
    SpacedCons(n, rest, 3);
    FencesCons(s, from, n, rest);
    CoversCons(s, from, n, rest);
  }

  lemma {:induction false} FencesFrom(s: string, from: nat) returns (fences: seq<nat>)
    requires from <= |s|
    ensures AreFencesFrom(s, from, fences)
    decreases |s| - from
  {
    hide FindFrom, Occurs;
    var found := FindFrom(s, "```", from);
    if found.None? {
      fences := [];
    } else {
      OccursWithin(s, "```", found.value);
      var rest := FencesFrom(s, found.value + 3);
      OneFenceMore(s, from, found.value, rest);
      fences := [found.value] + rest;
    }
  }

  lemma OccursWithin(s: string, needle: string, i: nat)
    requires Occurs(s, needle, i)
    ensures i + |needle| <= |s|
  {
  }

  lemma FencesExist(s: string) returns (fences: seq<nat>)
    ensures AreFences(s, fences)
  {
    hide Occurs;
    fences := FencesFrom(s, 0);
  }

  lemma BlocksExactly(text: string, block: string)
    ensures block in FencedCodeBlocks(text) <==> IsFencedBlock(text, block)
  {
    hide AreFences, FencedCodeBlocks, WithUnixLines, Trim;
    var blocks := FencedCodeBlocks(text);
    if block in blocks {
      var fences := FencesExist(WithUnixLines(text));
      var at := BlocksInOrder(text, fences);
      var i :| 0 <= i < |blocks| && blocks[i] == block;
      assert FencedAt(WithUnixLines(text), fences, at[i], block);
    }
    if fences: seq<nat>, j: nat :| FencedAt(WithUnixLines(text), fences, j, block) {
      var at := BlocksInOrder(text, fences);
      var i :| 0 <= i < |at| && at[i] == j;
      assert FencedAt(WithUnixLines(text), fences, at[i], blocks[i]);
    }
  }

  lemma UnixLinesStep(s: string)
    requires s != ""
    ensures WithUnixLines(s) ==
      if |s| >= 2 && Occurs(s, "\r\n", 0) then ['\n'] + WithUnixLines(s[2..]) else [s[0]] + WithUnixLines(s[1..])
    ensures WithUnixLines("") == ""
  {
  }

  lemma BreakFirst(rest: string)
    ensures Occurs("\r\n" + rest, "\r\n", 0) && ("\r\n" + rest)[2..] == rest
  {
    assert ("\r\n" + rest)[0..2] == "\r\n";
  }

  /** Of a carriage return and a line feed the line feed stays; everything else stays too. */
  lemma {:induction false} UnixLinesExactly(line: string, rest: string)
    requires !Contains(line, "\r\n")
    ensures WithUnixLines(line + ("\r\n" + rest)) == line + ("\n" + WithUnixLines(rest))
    ensures WithUnixLines(line) == line
  {
    hide *;
    var s := line + ("\r\n" + rest);
    UnixLinesStep(s);
    if line == "" {
      BreakFirst(rest);
      assert s == "\r\n" + rest;
    } else {
      assert s[1..] == line[1..] + ("\r\n" + rest);
      UnixLinesStep(line);
      NoneBehind(line);
      UnixLinesExactly(line[1..], rest);
      NoneInFront(line, rest);
    }
  }

  lemma NoneBehind(line: string)
    requires line != "" && !Contains(line, "\r\n")
    ensures !Contains(line[1..], "\r\n")
  {
    forall i: nat ensures !Occurs(line[1..], "\r\n", i) {
      OccursInRest(line, "\r\n", 1, i);
    }
  }

  lemma NoneInFront(line: string, rest: string)
    requires line != "" && !Contains(line, "\r\n")
    ensures !Occurs(line, "\r\n", 0) && !Occurs(line + ("\r\n" + rest), "\r\n", 0)
  {
    var s := line + ("\r\n" + rest);
    if |line| >= 2 {
      assert s[0..2] == line[0..2];
    } else {
      assert s[1] == '\r' && s[0..2][1] == s[1];
    }
  }

  // ---------- Error literals ----------

  predicate IsCodeCharacter(c: char) {
    'a' <= c <= 'z' || 'A' <= c <= 'Z' || '0' <= c <= '9' || c == '_' || c == '-'
  }

  ghost predicate TokenAt(s: string, i: nat, j: nat) {
    && i <= j <= |s| && (forall k :: i <= k < j ==> IsCodeCharacter(s[k]))
    && (i > 0 ==> !IsCodeCharacter(s[i - 1])) && (j < |s| ==> !IsCodeCharacter(s[j]))
  }

  /** Four characters or more, a capital letter, no small one, and none of seven acronyms. */
  predicate IsCode(s: string) {
    && |s| >= 4 && (exists i :: 0 <= i < |s| && 'A' <= s[i] <= 'Z')
    && (forall i :: 0 <= i < |s| ==> !('a' <= s[i] <= 'z'))
    && s !in {"API", "GET", "HTTP", "JSON", "POST", "PUT", "DELETE"}
  }

  ghost predicate HasCode(clause: string, value: string) {
    IsCode(value) && exists i: nat, j: nat :: TokenAt(clause, i, j) && value == clause[i..j]
  }

  ghost predicate IsValueOf(clause: string, value: string) {
    || HasCode(clause, value)
    || value in Quoted(clause, '"', '"') || value in Quoted(clause, '「', '」') || value in Quoted(clause, '『', '』')
  }

  /** `value` is a code or a quotation in a clause that mentions an error. */
  ghost predicate IsMentioned(mentionsError: string -> bool, input: string, value: string) {
    exists clause :: IsClause(input, clause) && mentionsError(clause) && IsValueOf(clause, value)
  }

  /** The quotations of a text from left to right, trimmed, without the blank ones. */
  lemma QuotedExactly(front: string, open: char, body: string, close: char, rest: string)
    requires open !in front && close !in body
    ensures Quoted(front + ([open] + (body + ([close] + rest))), open, close) ==
      (if Trim(body) == "" then [] else [Trim(body)]) + Quoted(rest, open, close)
    ensures Quoted(front, open, close) == [] && Quoted(front + ([open] + body), open, close) == []
  {
    hide Trim;
    var tail := body + ([close] + rest);
    var s, t := front + ([open] + tail), front + ([open] + body);
    FirstChar(front, open, tail);
    FirstChar(body, close, rest);
    FirstChar(front, open, body);
    assert tail[..|body|] == body && tail[|body| + 1..] == rest;
    assert s[|front| + 1..] == tail && t[|front| + 1..] == body;
    NoChar(front, open);
    NoChar(body, close);
    hide FindChar;
  }

  lemma FirstChar(front: string, c: char, rest: string)
    requires c !in front
    ensures FindChar(front + ([c] + rest), c) == |front|
  {
    var s := front + ([c] + rest);
    assert s[|front|] == c;
    assert forall i :: 0 <= i < |front| ==> s[i] == front[i];
  }

  lemma NoChar(s: string, c: char)
    requires c !in s
    ensures FindChar(s, c) == |s|
  {
  }

  lemma CodesExactly(clause: string, value: string)
    ensures value in ErrorCodes(SplitBy(SeparatesTokens, clause)) <==> HasCode(clause, value)
  {
    PiecesExactly(SeparatesTokens, clause, value);
    assert forall i: nat, j: nat :: TokenAt(clause, i, j) <==> IsPiece(SeparatesTokens, clause, i, j);
    CodeIsErrorCode(value);
    hide SplitBy, IsPiece, TokenAt, IsCode, IsErrorCode;
  }

  lemma CodeIsErrorCode(value: string)
    ensures IsCode(value) <==> IsErrorCode(value)
  {
    if forall i :: 0 <= i < |value| ==> !('a' <= value[i] <= 'z') {
      assert seq(|value|, i requires 0 <= i < |value| => UpperAscii(value[i])) == value;
      ExcludedAre(value);
    }
  }

  lemma ExcludedAre(value: string)
    ensures value in EXCLUDED <==> value in {"API", "GET", "HTTP", "JSON", "POST", "PUT", "DELETE"}
  {
    var all := EXCLUDED;
    assert all[0] == "API" && all[1] == "GET" && all[2] == "HTTP" && all[3] == "JSON";
    assert all[4] == "POST" && all[5] == "PUT" && all[6] == "DELETE";
  }

  lemma ValuesExactly(clause: string, value: string)
    ensures IsLiteralOf(clause, value) <==> IsValueOf(clause, value)
  {
    hide ErrorCodes, SplitBy, Quoted, HasCode;
    CodesExactly(clause, value);
  }

  lemma MentionedExactly(mentionsError: string -> bool, input: string, value: string)
    ensures IsErrorLiteral(mentionsError, input, value) <==> IsMentioned(mentionsError, input, value)
  {
    hide Clauses, IsLiteralOf, IsValueOf, IsClause;
    forall clause ensures clause in Clauses(input) <==> IsClause(input, clause) {
      ClausesExactly(input, clause);
    }
    forall clause ensures IsLiteralOf(clause, value) <==> IsValueOf(clause, value) {
      ValuesExactly(clause, value);
    }
  }

  // ---------- Numbers ----------

  /** The text around `s[i..j]`, as far as the given numbers of characters or the borders of `s`. */
  function Around(s: string, i: nat, j: nat, before: nat, after: nat): string
    requires i <= j <= |s|
  {
    s[if i < before then 0 else i - before..if j + after > |s| then |s| else j + after]
  }

  /** The number is a "1" that only guards against duplicates, or a symptom that does not matter. */
  predicate IsNoise(rules: NumberRules, s: string, i: nat, j: nat)
    requires i <= j <= |s|
  {
    || (s[i..j] == "1" && rules.only(Around(s, i, j, 10, 12)) && rules.guardsDuplicates(s))
    || (rules.symptom(Around(s, i, j, 24, 24)) && !rules.matters(Around(s, i, j, 12, 18)))
  }

  ghost predicate NeededIn(rules: NumberRules, tail: string, number: string) {
    exists i: nat, j: nat :: IsDigitRun(tail, i, j) && number == tail[i..j] && !IsNoise(rules, tail, i, j)
  }

  /** `number` is a digit run behind the last correction of a clause that counts, and it is no noise. */
  ghost predicate IsNeeded(rules: NumberRules, input: string, number: string) {
    exists clause :: IsClause(input, clause) && !rules.ignored(clause) &&
      NeededIn(rules, CorrectedClauseTail(clause), number)
  }

  lemma NoiseExactly(rules: NumberRules, s: string, i: nat, j: nat)
    requires i <= j <= |s|
    ensures Dropped(rules, s, i, j) <==> IsNoise(rules, s, i, j)
  {
  }

  lemma NeededInExactly(rules: NumberRules, tail: string, number: string)
    ensures RequiredIn(rules, tail, number) <==> NeededIn(rules, tail, number)
  {
    hide Dropped, IsNoise;
    forall i: nat, j: nat | IsDigitRun(tail, i, j) ensures Dropped(rules, tail, i, j) <==> IsNoise(rules, tail, i, j) {
      NoiseExactly(rules, tail, i, j);
    }
  }

  lemma NeededExactly(rules: NumberRules, input: string, number: string)
    ensures IsRequiredNumber(rules, input, number) <==> IsNeeded(rules, input, number)
  {
    hide Clauses, IsClause, RequiredIn, NeededIn, CorrectedClauseTail;
    forall clause ensures clause in Clauses(input) <==> IsClause(input, clause) {
      ClausesExactly(input, clause);
    }
    forall clause ensures RequiredIn(rules, CorrectedClauseTail(clause), number) <==>
      NeededIn(rules, CorrectedClauseTail(clause), number) {
      NeededInExactly(rules, CorrectedClauseTail(clause), number);
    }
  }

  /** The markers behind which a clause counts. */
  lemma TailMarkersAre(marker: string)
    ensures marker in TAIL_MARKERS <==> marker in {"最終的には", "最終的に", "正しくは", "ここは", "ではなく"}
  {
    var all := TAIL_MARKERS;
    assert all[0] == "最終的には" && all[1] == "最終的に" && all[2] == "正しくは" && all[3] == "ここは";
    assert all[4] == "ではなく";
  }
}
